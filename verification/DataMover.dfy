// The data mover of dm.h (cluster-local interrupt variant): one client hart queues transfers in a
// four-slot ring, the DM core starts them on the DMA. Every access of either side to the shared
// structure is a step of its own; the answers of the DMA's status registers are arbitrary.
module DataMover {

  const SIZE: nat := 4   // DM_TASK_QUEUE_SIZE

  // dm_task_t. A 1D transfer leaves the stride fields of its slot as they were.
  datatype Slot = Slot(src: int, dst: int, size: int, sstrd: int, dstrd: int, nreps: int, cfg: int, twod: bool)

  /** What the DMA is asked to do. */
  datatype Transfer =
    | OneD(src: int, dst: int, size: int, cfg: int)
    | TwoD(src: int, dst: int, size: int, sstrd: int, dstrd: int, nreps: int, cfg: int)

  /** What the client asks for: dm_memcpy_async or dm_memcpy2d_async, with the parameters in their order. */
  datatype Copy =
    | Memcpy1d(dest: int, src: int, size: int)
    | Memcpy2d(src: int, dst: int, size: int, sstrd: int, dstrd: int, nreps: int, cfg: int)

  function Asked(c: Copy): Transfer {
    match c
    case Memcpy1d(dest, src, size) => OneD(src, dest, size, 0)
    case Memcpy2d(src, dst, size, sstrd, dstrd, nreps, cfg) => TwoD(src, dst, size, sstrd, dstrd, nreps, cfg)
  }

  function Issue(t: Slot): Transfer {
    if t.twod then TwoD(t.src, t.dst, t.size, t.sstrd, t.dstrd, t.nreps, t.cfg) else OneD(t.src, t.dst, t.size, t.cfg)
  }

  // stat_q: no request, or one of two.
  datatype Request = None | WaitIdle | Ready

  // The DM core in dm_main and wfi_dm; each name is the access it does next.
  datatype DmPc =
    | TestFill                                    // if (queue_fill)
    | PollBlock                                   // while (sdma_stat(WOULD_BLOCK))
    | ReadKind                                    // if (t->twod)
    | StartTransfer                               // sdma_start_oned / sdma_start_twod
    | BumpBack                                    // queue_back = (queue_back + 1) % SIZE
    | DecFill                                     // queue_fill -= 1
    | TestStat                                    // if (stat_q)
    | Switch                                      // switch (stat_q)
    | PollBusy                                    // if (sdma_stat(BUSY) == 0)
    | SetValid                                    // stat_pvalid = 1
    | ClearStat                                   // stat_q = 0
    | SleepFill                                   // !queue_fill && ...
    | SleepStat                                   // ... !stat_q
    | IncWfi                                      // dm_wfi += 1
    | Wfi                                         // until the interrupt is pending
    | ClearIrq                                    // clear it
    | DecWfi                                      // dm_wfi -= 1

  // What follows wake_dm: nothing, the first wait of dm_wait, or the wait for the answer.
  datatype Then = Return | Drain | Answer

  // The client in dm_memcpy_async, dm_memcpy2d_async, dm_start, dm_wait and dm_wait_ready.
  datatype ClientPc =
    | Idle
    | Poll | Lock | Fill(k: nat) | IncFill | BumpFront | Unlock
    | WakeSpin(next: Then) | WakeSet(next: Then)
    | AwaitEmpty | AwaitStat | LockStat | ClearValid | PutRequest | AwaitValid | UnlockStat

  datatype Client = Client(pc: ClientPc, want: Copy, request: Request)

  // The ring of dm_t, with (history variables) the transfers queued and started so far. `twod` is the DM core's copy of
  // the kind of the slot it is about to start.
  datatype Ring = Ring(queue: seq<Slot>, back: nat, front: nat, fill: int, twod: bool,
                       queued: seq<Transfer>, started: seq<Transfer>)

  // The request words of dm_t, with (history variables) how many transfers had been started when the DMA last
  // reported idle to a request, and whether a request was ever made.
  datatype Stat = Stat(statQ: Request, pvalid: bool, idleAt: nat, requested: bool)

  // The mutex and dm_wfi of dm_t, and the pending bit of the DM core.
  datatype Irq = Irq(mutex: bool, dmWfi: int, pending: bool)

  datatype State = State(ring: Ring, stat: Stat, irq: Irq, dm: DmPc, client: Client)

  // The calls of the client, in any order.
  datatype Op = Memcpy(copy: Copy) | Start | Wait | WaitReady

  ghost predicate Init(s: State) {
    && |s.ring.queue| == SIZE && s.ring.back == 0 && s.ring.front == 0 && s.ring.fill == 0
    && s.ring.queued == [] && s.ring.started == []
    && s.stat == Stat(None, false, 0, false) && s.irq == Irq(false, 0, false)
    && s.dm == TestFill && s.client.pc == Idle
  }

  predicate RingShape(r: Ring) { |r.queue| == SIZE && r.back < SIZE && r.front < SIZE }

  // ---------------------------------------------------------------- steps of the DM core

  predicate DmCanStep(s: State) {
    s.dm == Wfi ==> s.irq.pending
  }

  // Where the DM core goes; `poll` is what a status register of the DMA answers.
  function DmGoes(s: State, poll: bool): DmPc {
    match s.dm
    case TestFill => if s.ring.fill != 0 then PollBlock else TestStat
    case PollBlock => if poll then PollBlock else ReadKind
    case ReadKind => StartTransfer
    case StartTransfer => BumpBack
    case BumpBack => DecFill
    case DecFill => TestStat
    case TestStat => if s.stat.statQ != None then Switch else SleepFill
    case Switch => (match s.stat.statQ case WaitIdle => PollBusy case Ready => SetValid case None => SleepFill)
    case PollBusy => if poll then SleepFill else SetValid
    case SetValid => ClearStat
    case ClearStat => SleepFill
    case SleepFill => if s.ring.fill != 0 then TestFill else SleepStat
    case SleepStat => if s.stat.statQ != None then TestFill else IncWfi
    case IncWfi => Wfi
    case Wfi => ClearIrq
    case ClearIrq => DecWfi
    case DecWfi => TestFill
  }

  // What it does to the ring, to the request words, and to the interrupt state.
  function DmRing(r: Ring, dm: DmPc): Ring
    requires r.back < |r.queue|
  {
    match dm
    case ReadKind => r.(twod := r.queue[r.back].twod)
    case StartTransfer => r.(started := r.started + [Issue(r.queue[r.back].(twod := r.twod))])
    case BumpBack => r.(back := (r.back + 1) % SIZE)
    case DecFill => r.(fill := r.fill - 1)
    case _ => r
  }

  function DmStat(t: Stat, dm: DmPc, poll: bool, started: nat): Stat {
    match dm
    case PollBusy => if poll then t else t.(idleAt := started)
    case SetValid => t.(pvalid := true)
    case ClearStat => t.(statQ := None)
    case _ => t
  }

  function DmIrq(q: Irq, dm: DmPc): Irq {
    match dm
    case IncWfi => q.(dmWfi := q.dmWfi + 1)
    case ClearIrq => q.(pending := false)
    case DecWfi => q.(dmWfi := q.dmWfi - 1)
    case _ => q
  }

  /** The next access of the DM core. */
  function DmStep(s: State, poll: bool): State
    requires DmCanStep(s) && RingShape(s.ring)
  {
    State(DmRing(s.ring, s.dm), DmStat(s.stat, s.dm, poll, |s.ring.started|), DmIrq(s.irq, s.dm), DmGoes(s, poll), s.client)
  }

  // ---------------------------------------------------------------- steps of the client

  predicate ClientCanStep(s: State) {
    match s.client.pc
    case Poll => s.ring.fill < SIZE
    case Lock => !s.irq.mutex
    case LockStat => !s.irq.mutex
    case WakeSpin(_) => s.irq.dmWfi != 0
    case AwaitEmpty => s.ring.fill == 0
    case AwaitStat => s.stat.statQ == None
    case AwaitValid => s.stat.pvalid
    case _ => true
  }

  // The fields of a descriptor in the order the client writes them.
  function Fields(c: Copy): nat { if c.Memcpy1d? then 5 else 8 }

  function WriteField(slot: Slot, c: Copy, k: nat): Slot {
    match c
    case Memcpy1d(dest, src, size) =>
      (match k
       case 0 => slot.(src := src) case 1 => slot.(dst := dest) case 2 => slot.(size := size)
       case 3 => slot.(twod := false) case _ => slot.(cfg := 0))
    case Memcpy2d(src, dst, size, sstrd, dstrd, nreps, cfg) =>
      (match k
       case 0 => slot.(src := src) case 1 => slot.(dst := dst) case 2 => slot.(size := size)
       case 3 => slot.(sstrd := sstrd) case 4 => slot.(dstrd := dstrd) case 5 => slot.(nreps := nreps)
       case 6 => slot.(twod := true) case _ => slot.(cfg := cfg))
  }

  // Where the client goes; `op` is the call it makes if it is idle.
  function ClientGoes(c: Client, op: Op): Client {
    match c.pc
    case Idle =>
      (match op
       case Memcpy(copy) => c.(pc := Poll, want := copy)
       case Start => c.(pc := WakeSpin(Return))
       case Wait => c.(pc := WakeSpin(Drain), request := WaitIdle)
       case WaitReady => c.(pc := LockStat, request := Ready))
    // dm_memcpy_async, dm_memcpy2d_async
    case Poll => c.(pc := Lock)
    case Lock => c.(pc := Fill(0))
    case Fill(k) => c.(pc := if k + 1 < Fields(c.want) then Fill(k + 1) else IncFill)
    case IncFill => c.(pc := BumpFront)
    case BumpFront => c.(pc := Unlock)
    case Unlock => c.(pc := Idle)
    // wake_dm
    case WakeSpin(next) => c.(pc := WakeSet(next))
    case WakeSet(next) => c.(pc := match next case Return => Idle case Drain => AwaitEmpty case Answer => AwaitValid)
    // dm_wait, dm_wait_ready
    case AwaitEmpty => c.(pc := AwaitStat)
    case AwaitStat => c.(pc := LockStat)
    case LockStat => c.(pc := ClearValid)
    case ClearValid => c.(pc := PutRequest)
    case PutRequest => c.(pc := WakeSpin(Answer))
    case AwaitValid => c.(pc := UnlockStat)
    case UnlockStat => c.(pc := Idle)
  }

  function ClientRing(r: Ring, c: Client): Ring
    requires r.front < |r.queue|
  {
    match c.pc
    case Fill(k) => r.(queue := r.queue[r.front := WriteField(r.queue[r.front], c.want, k)])
    case IncFill => r.(fill := r.fill + 1, queued := r.queued + [Asked(c.want)])
    case BumpFront => r.(front := (r.front + 1) % SIZE)
    case _ => r
  }

  function ClientStat(t: Stat, c: Client): Stat {
    match c.pc
    case ClearValid => t.(pvalid := false)
    case PutRequest => t.(statQ := c.request, requested := true)
    case _ => t
  }

  function ClientIrq(q: Irq, c: Client): Irq {
    match c.pc
    case Lock => q.(mutex := true)
    case LockStat => q.(mutex := true)
    case Unlock => q.(mutex := false)
    case UnlockStat => q.(mutex := false)
    case WakeSet(_) => q.(pending := true)
    case _ => q
  }

  /** The next access of the client. */
  function ClientStep(s: State, op: Op): State
    requires ClientCanStep(s) && RingShape(s.ring)
  {
    State(ClientRing(s.ring, s.client), ClientStat(s.stat, s.client), ClientIrq(s.irq, s.client), s.dm, ClientGoes(s.client, op))
  }

  ghost predicate Next(s: State, s': State) {
    RingShape(s.ring) &&
    ((DmCanStep(s) && exists poll: bool :: s' == DmStep(s, poll))
     || (ClientCanStep(s) && exists op :: s' == ClientStep(s, op)))
  }

  ghost predicate IsRun(run: seq<State>) {
    && 0 < |run| && Init(run[0])
    && forall k :: 0 <= k < |run| - 1 ==> Next(run[k], run[k + 1])
  }

  // ---------------------------------------------------------------- the invariant

  // The DM core has started a transfer that `fill` does not show yet.
  predicate Unaccounted(pc: DmPc) { pc.BumpBack? || pc.DecFill? }
  predicate Taking(pc: DmPc) { pc.PollBlock? || pc.ReadKind? || pc.StartTransfer? }
  predicate Inserting(pc: ClientPc) { pc.Lock? || pc.Fill? || pc.IncFill? }

  function Lag(b: bool): int { if b then 1 else 0 }

  // `back` and `front` are the counts modulo the size of the ring.
  ghost predicate PlacesOk(r: Ring, dm: DmPc, pc: ClientPc) {
    && RingShape(r)
    && r.back == (|r.started| - Lag(dm.BumpBack?)) % SIZE
    && r.front == (|r.queued| - Lag(pc.BumpFront?)) % SIZE
    && (dm.BumpBack? ==> 0 < |r.started|)
    && (pc.BumpFront? ==> 0 < |r.queued|)
  }

  // `fill` is their difference.
  ghost predicate FillIsDifference(r: Ring, dm: DmPc, pc: ClientPc) {
    && |r.started| <= |r.queued|
    && r.fill == |r.queued| - |r.started| + Lag(Unaccounted(dm))
    && r.fill <= SIZE
    && (Inserting(pc) ==> r.fill < SIZE)
    && (Taking(dm) ==> |r.started| < |r.queued|)
  }

  ghost predicate CountsOk(r: Ring, dm: DmPc, pc: ClientPc) { PlacesOk(r, dm, pc) && FillIsDifference(r, dm, pc) }

  // What has been started is what was queued, in order; the slots hold what has been queued and not yet started.
  ghost predicate SlotsOk(r: Ring, dm: DmPc)
    requires RingShape(r)
  {
    && r.started <= r.queued
    && (forall k :: |r.started| <= k < |r.queued| ==> Issue(r.queue[k % SIZE]) == r.queued[k])
    && (dm.StartTransfer? ==> r.twod == r.queue[r.back].twod)
  }

  predicate Written(slot: Slot, c: Copy, k: nat) {
    match c
    case Memcpy1d(dest, src, size) =>
      (k > 0 ==> slot.src == src) && (k > 1 ==> slot.dst == dest) && (k > 2 ==> slot.size == size) && (k > 3 ==> !slot.twod)
    case Memcpy2d(src, dst, size, sstrd, dstrd, nreps, cfg) =>
      && (k > 0 ==> slot.src == src) && (k > 1 ==> slot.dst == dst) && (k > 2 ==> slot.size == size)
      && (k > 3 ==> slot.sstrd == sstrd) && (k > 4 ==> slot.dstrd == dstrd) && (k > 5 ==> slot.nreps == nreps)
      && (k > 6 ==> slot.twod)
  }

  // The slot being written agrees with the transfer as far as it has been written.
  predicate FillOk(r: Ring, c: Client)
    requires RingShape(r)
  {
    match c.pc
    case Fill(k) => k < Fields(c.want) && Written(r.queue[r.front], c.want, k)
    case IncFill => Issue(r.queue[r.front]) == Asked(c.want)
    case _ => true
  }

  // A request has been made and its answer not yet been taken.
  predicate Asking(pc: ClientPc) { pc == WakeSpin(Answer) || pc == WakeSet(Answer) || pc.AwaitValid? }
  predicate Preparing(pc: ClientPc) { pc.LockStat? || pc.ClearValid? || pc.PutRequest? }
  predicate Draining(pc: ClientPc) { pc == WakeSpin(Drain) || pc == WakeSet(Drain) || pc.AwaitEmpty? || pc.AwaitStat? }
  predicate Answering(dm: DmPc) { dm.Switch? || dm.PollBusy? || dm.SetValid? }
  predicate Quiet(t: Stat, dm: DmPc) { t.statQ == None && !Answering(dm) && !dm.ClearStat? }

  // The DM core is about to clear the request before this one, or has cleared this one with it.
  predicate Lost(t: Stat, dm: DmPc, pc: ClientPc) { Asking(pc) && !t.pvalid && (dm.ClearStat? || t.statQ == None) }

  // A request of dm_wait_ready, which does not wait for the one before to be cleared.
  predicate MayOverlap(c: Client) { (Preparing(c.pc) || Asking(c.pc)) && c.request == Ready }

  predicate StatOk(t: Stat, dm: DmPc, c: Client) {
    && (!t.requested ==> Quiet(t, dm))
    && (Preparing(c.pc) ==> c.request != None && (Quiet(t, dm) || (dm.ClearStat? && MayOverlap(c))))
    && (c.pc.PutRequest? ==> !t.pvalid)
    && (Asking(c.pc) ==> t.requested && c.request != None)
    && (Asking(c.pc) && !t.pvalid && !Lost(t, dm, c.pc) ==> t.statQ == c.request)
    && (Lost(t, dm, c.pc) ==> c.request == Ready)
    && (t.statQ != None ==> (Asking(c.pc) && !t.pvalid) || dm.ClearStat?)
    && (dm.ClearStat? ==> t.statQ != None && (t.pvalid || MayOverlap(c)))
    && (Answering(dm) ==> t.statQ != None && !t.pvalid && Asking(c.pc))
    && (dm.PollBusy? ==> t.statQ == WaitIdle)
    && (Draining(c.pc) ==> c.request == WaitIdle)
  }

  // Between the drain and the answer of dm_wait nothing is queued, so idle means all done.
  predicate Drained(pc: ClientPc) { pc.AwaitStat? || Preparing(pc) || Asking(pc) || pc.UnlockStat? }

  predicate IdleOk(r: Ring, t: Stat, dm: DmPc, c: Client) {
    && (Drained(c.pc) && c.request == WaitIdle ==> r.fill == 0)
    && (dm.SetValid? && t.statQ == WaitIdle ==> t.idleAt == |r.started|)
    && ((Asking(c.pc) || c.pc.UnlockStat?) && c.request == WaitIdle && t.pvalid ==> t.idleAt == |r.started|)
    && (c.pc.UnlockStat? ==> t.pvalid)
  }

  // The DM core is on its way to sleep and no interrupt will stop it.
  predicate GoingToSleep(q: Irq, dm: DmPc) { !q.pending && (dm.IncWfi? || dm.Wfi?) }

  predicate Locked(pc: ClientPc) {
    || pc.Fill? || pc.IncFill? || pc.BumpFront? || pc.Unlock?
    || pc.ClearValid? || pc.PutRequest? || Asking(pc) || pc.UnlockStat?
  }

  predicate WakeOk(fill: int, statQ: Request, q: Irq, dm: DmPc, pc: ClientPc) {
    && (dm.ClearIrq? ==> q.pending)
    && q.dmWfi == Lag(dm.Wfi? || dm.ClearIrq? || dm.DecWfi?)
    && (q.mutex <==> Locked(pc))
    && (pc.AwaitEmpty? && fill != 0 ==> !GoingToSleep(q, dm) && (dm.SleepStat? ==> q.pending))
    && (pc.AwaitValid? && statQ != None ==> !GoingToSleep(q, dm))
  }

  ghost predicate Inv(s: State) {
    && CountsOk(s.ring, s.dm, s.client.pc) && SlotsOk(s.ring, s.dm) && FillOk(s.ring, s.client)
    && StatOk(s.stat, s.dm, s.client) && IdleOk(s.ring, s.stat, s.dm, s.client)
    && WakeOk(s.ring.fill, s.stat.statQ, s.irq, s.dm, s.client.pc)
  }

  lemma InitInv(s: State)
    requires Init(s)
    ensures Inv(s)
  {
  }

  // Indices less than a ring apart name different slots.
  lemma Apart(a: nat, b: nat)
    requires a < b < a + SIZE
    ensures a % SIZE != b % SIZE
  {
  }

  lemma NextSlot(n: nat)
    ensures ((n - 1) % SIZE + 1) % SIZE == n % SIZE
  {
  }

  lemma DmPlaces(r: Ring, dm: DmPc, dm': DmPc, pc: ClientPc)
    requires PlacesOk(r, dm, pc) && (dm.StartTransfer? <==> dm'.BumpBack?)
    ensures PlacesOk(DmRing(r, dm), dm', pc)
  {
    if dm.BumpBack? { NextSlot(|r.started|); }
  }

  lemma DmFill(s: State, poll: bool)
    requires DmCanStep(s) && CountsOk(s.ring, s.dm, s.client.pc)
    ensures FillIsDifference(DmRing(s.ring, s.dm), DmGoes(s, poll), s.client.pc)
  {
  }

  lemma DmCounts(s: State, poll: bool)
    requires DmCanStep(s) && CountsOk(s.ring, s.dm, s.client.pc)
    ensures CountsOk(DmRing(s.ring, s.dm), DmGoes(s, poll), s.client.pc)
  {
    DmPlaces(s.ring, s.dm, DmGoes(s, poll), s.client.pc);
    DmFill(s, poll);
  }

  lemma DmSlots(s: State, poll: bool)
    requires DmCanStep(s) && CountsOk(s.ring, s.dm, s.client.pc) && SlotsOk(s.ring, s.dm)
    ensures SlotsOk(DmRing(s.ring, s.dm), DmGoes(s, poll))
  {
    var r := s.ring;
    if s.dm.StartTransfer? {
      var k := |r.started|;
      assert r.queue[r.back].(twod := r.twod) == r.queue[k % SIZE];
    }
  }

  lemma DmStats(s: State, poll: bool)
    requires DmCanStep(s) && StatOk(s.stat, s.dm, s.client)
    ensures StatOk(DmStat(s.stat, s.dm, poll, |s.ring.started|), DmGoes(s, poll), s.client)
  {
  }

  lemma DmIdle(s: State, poll: bool)
    requires Inv(s) && DmCanStep(s)
    ensures IdleOk(DmRing(s.ring, s.dm), DmStat(s.stat, s.dm, poll, |s.ring.started|), DmGoes(s, poll), s.client)
  {
  }

  lemma DmWake(s: State, poll: bool)
    requires Inv(s) && DmCanStep(s)
    ensures WakeOk(DmRing(s.ring, s.dm).fill, DmStat(s.stat, s.dm, poll, |s.ring.started|).statQ,
                   DmIrq(s.irq, s.dm), DmGoes(s, poll), s.client.pc)
  {
  }

  lemma ClientPlaces(r: Ring, dm: DmPc, c: Client, pc': ClientPc)
    requires PlacesOk(r, dm, c.pc) && (c.pc.IncFill? <==> pc'.BumpFront?)
    ensures PlacesOk(ClientRing(r, c), dm, pc')
  {
    if c.pc.BumpFront? { NextSlot(|r.queued|); }
  }

  lemma ClientFillCounts(s: State, op: Op)
    requires ClientCanStep(s) && CountsOk(s.ring, s.dm, s.client.pc)
    ensures FillIsDifference(ClientRing(s.ring, s.client), s.dm, ClientGoes(s.client, op).pc)
  {
  }

  lemma ClientCounts(s: State, op: Op)
    requires ClientCanStep(s) && CountsOk(s.ring, s.dm, s.client.pc)
    ensures CountsOk(ClientRing(s.ring, s.client), s.dm, ClientGoes(s.client, op).pc)
  {
    ClientPlaces(s.ring, s.dm, s.client, ClientGoes(s.client, op).pc);
    ClientFillCounts(s, op);
  }

  lemma ClientSlots(s: State, op: Op)
    requires ClientCanStep(s) && CountsOk(s.ring, s.dm, s.client.pc) && SlotsOk(s.ring, s.dm) && FillOk(s.ring, s.client)
    ensures SlotsOk(ClientRing(s.ring, s.client), s.dm)
  {
    var r := s.ring;
    if s.client.pc.Fill? {
      forall k | |r.started| <= k < |r.queued| ensures k % SIZE != r.front {
        Apart(k, |r.queued|);
      }
    }
  }

  lemma ClientFill(s: State, op: Op)
    requires ClientCanStep(s) && RingShape(s.ring) && FillOk(s.ring, s.client)
    ensures RingShape(ClientRing(s.ring, s.client)) && FillOk(ClientRing(s.ring, s.client), ClientGoes(s.client, op))
  {
  }

  lemma ClientStats(s: State, op: Op)
    requires ClientCanStep(s) && StatOk(s.stat, s.dm, s.client)
    ensures StatOk(ClientStat(s.stat, s.client), s.dm, ClientGoes(s.client, op))
  {
  }

  lemma ClientIdle(s: State, op: Op)
    requires Inv(s) && ClientCanStep(s)
    ensures IdleOk(ClientRing(s.ring, s.client), ClientStat(s.stat, s.client), s.dm, ClientGoes(s.client, op))
  {
  }

  lemma ClientWake(s: State, op: Op)
    requires Inv(s) && ClientCanStep(s)
    ensures WakeOk(ClientRing(s.ring, s.client).fill, ClientStat(s.stat, s.client).statQ,
                   ClientIrq(s.irq, s.client), s.dm, ClientGoes(s.client, op).pc)
  {
  }

  // The DM core does not write the slots or where the client writes next.
  lemma DmFrame(s: State)
    requires RingShape(s.ring) && FillOk(s.ring, s.client)
    ensures RingShape(DmRing(s.ring, s.dm)) && FillOk(DmRing(s.ring, s.dm), s.client)
  {
    assert DmRing(s.ring, s.dm).queue == s.ring.queue && DmRing(s.ring, s.dm).front == s.ring.front;
  }

  lemma DmStepInv(s: State, poll: bool)
    requires Inv(s) && DmCanStep(s)
    ensures Inv(DmStep(s, poll))
  {
    DmCounts(s, poll);
    DmSlots(s, poll);
    DmStats(s, poll);
    DmIdle(s, poll);
    DmWake(s, poll);
    DmFrame(s);
  }

  lemma ClientStepInv(s: State, op: Op)
    requires Inv(s) && ClientCanStep(s)
    ensures Inv(ClientStep(s, op))
  {
    ClientCounts(s, op);
    ClientSlots(s, op);
    ClientFill(s, op);
    ClientStats(s, op);
    ClientIdle(s, op);
    ClientWake(s, op);
  }

  lemma NextInv(s: State, s': State)
    requires Inv(s) && Next(s, s')
    ensures Inv(s')
  {
    if DmCanStep(s) && exists poll: bool :: s' == DmStep(s, poll) {
      var poll: bool :| s' == DmStep(s, poll);
      DmStepInv(s, poll);
    } else {
      var op :| s' == ClientStep(s, op);
      ClientStepInv(s, op);
    }
  }

  lemma {:induction false} RunInvariant(run: seq<State>, k: nat)
    requires IsRun(run) && k < |run|
    ensures Inv(run[k])
  {
    if k == 0 {
      InitInv(run[0]);
    } else {
      RunInvariant(run, k - 1);
      NextInv(run[k - 1], run[k]);
    }
  }

  // ---------------------------------------------------------------- what every run satisfies

  // Reading n slots from slot i on, around the ring.
  function Contents(queue: seq<Slot>, i: nat, n: nat): (r: seq<Transfer>)
    requires |queue| == SIZE
    ensures |r| == n
    decreases n
  {
    if n == 0 then [] else [Issue(queue[i % SIZE])] + Contents(queue, i + 1, n - 1)
  }

  lemma {:induction false} ContentsAre(queue: seq<Slot>, queued: seq<Transfer>, i: nat)
    requires |queue| == SIZE && i <= |queued|
    requires forall k :: i <= k < |queued| ==> Issue(queue[k % SIZE]) == queued[k]
    ensures Contents(queue, i, |queued| - i) == queued[i..]
    decreases |queued| - i
  {
    if i >= |queued| {
    } else {
      ContentsAre(queue, queued, i + 1);
      assert queued[i..] == [queued[i]] + queued[i + 1..];
    }
  }

  /**
   * The ring is a FIFO of at most four: whatever has been queued is what has been started, in order and each once,
   * followed by what the slots from `queue_back` on still hold. Nothing is overwritten before it is started.
   */
  lemma RingIsFifo(run: seq<State>, k: nat)
    requires IsRun(run) && k < |run|
    ensures |run[k].ring.queue| == SIZE && |run[k].ring.started| <= |run[k].ring.queued| <= |run[k].ring.started| + SIZE
    ensures var r := run[k].ring; r.queued == r.started + Contents(r.queue, |r.started|, |r.queued| - |r.started|)
    ensures !Unaccounted(run[k].dm) ==> run[k].ring.back == |run[k].ring.started| % SIZE
  {
    RunInvariant(run, k);
    var r := run[k].ring;
    ContentsAre(r.queue, r.queued, |r.started|);
    assert r.queued == r.queued[..|r.started|] + r.queued[|r.started|..];
  }

  /** The slot the DM core is reading is never the slot the client is writing. */
  lemma NoRaceOnSlots(run: seq<State>, k: nat)
    requires IsRun(run) && k < |run|
    ensures Taking(run[k].dm) && Inserting(run[k].client.pc) ==> run[k].ring.back != run[k].ring.front
  {
    RunInvariant(run, k);
    var r := run[k].ring;
    if Taking(run[k].dm) && Inserting(run[k].client.pc) {
      Apart(|r.started|, |r.queued|);
    }
  }

  /**
   * When dm_wait returns, every transfer queued before it has been started, and the DMA has reported idle since the
   * last of them was started.
   */
  lemma WaitIsComplete(run: seq<State>, k: nat)
    requires IsRun(run) && k < |run|
    requires run[k].client.pc.UnlockStat? && run[k].client.request == WaitIdle
    ensures run[k].ring.started == run[k].ring.queued && run[k].stat.idleAt == |run[k].ring.queued|
  {
    RunInvariant(run, k);
    var r := run[k].ring;
    assert |r.started| == |r.queued|;
  }

  // The DM core sleeps, and nothing has told it to wake up.
  predicate Asleep(s: State) { s.dm.Wfi? && !s.irq.pending }

  predicate PollsFull(s: State) { s.client.pc.Poll? && s.ring.fill == SIZE }

  predicate RequestLost(s: State) { Lost(s.stat, s.dm, s.client.pc) }

  /**
   * No lost wakeup, and no deadlock but two: both cores are stuck exactly when the DM core sleeps and either the client
   * polls a full queue, because nothing has told the DM core to start (dm_start or dm_wait), or the client's request
   * has been lost.
   */
  lemma StuckExactlyWhen(run: seq<State>, k: nat)
    requires IsRun(run) && k < |run|
    ensures !DmCanStep(run[k]) && !ClientCanStep(run[k]) <==>
      Asleep(run[k]) && (PollsFull(run[k]) || (run[k].client.pc.AwaitValid? && RequestLost(run[k])))
  {
    RunInvariant(run, k);
  }

  // ---------------------------------------------------------------- lost requests

  lemma DmLosesNone(s: State, poll: bool)
    requires DmCanStep(s) && RingShape(s.ring) && StatOk(s.stat, s.dm, s.client)
    ensures RequestLost(DmStep(s, poll)) <==> RequestLost(s)
  {
  }

  lemma ClientLoses(s: State, op: Op)
    requires ClientCanStep(s) && RingShape(s.ring) && StatOk(s.stat, s.dm, s.client)
    ensures RequestLost(ClientStep(s, op)) <==> RequestLost(s) || (s.client.pc.PutRequest? && s.dm.ClearStat?)
    ensures ClientGoes(s.client, op) != s.client
  {
  }

  // A request is lost by the client's step alone.
  lemma LostByNext(s: State, s': State)
    requires Inv(s) && Next(s, s')
    ensures RequestLost(s') <==> RequestLost(s) || (s.client.pc.PutRequest? && s.dm.ClearStat? && s'.client != s.client)
  {
    if DmCanStep(s) && exists poll: bool :: s' == DmStep(s, poll) {
      var poll: bool :| s' == DmStep(s, poll);
      DmLosesNone(s, poll);
    } else {
      var op :| s' == ClientStep(s, op);
      ClientLoses(s, op);
    }
  }

  lemma LostIsReady(s: State)
    requires Inv(s) && RequestLost(s)
    ensures s.client.request == Ready
  {
  }

  /** A request is lost exactly when dm_wait_ready puts it while the DM core is about to clear the request before. */
  lemma LostExactlyWhen(run: seq<State>, k: nat)
    requires IsRun(run) && k + 1 < |run| && !RequestLost(run[k])
    ensures RequestLost(run[k + 1]) <==>
      run[k].client.pc.PutRequest? && run[k].dm.ClearStat? && run[k + 1].client != run[k].client
    ensures RequestLost(run[k + 1]) ==> run[k + 1].client.request == Ready
  {
    RunInvariant(run, k);
    RunInvariant(run, k + 1);
    LostByNext(run[k], run[k + 1]);
    if RequestLost(run[k + 1]) { LostIsReady(run[k + 1]); }
  }

  /** Its dm_wait_ready never returns. */
  lemma {:induction false} LostForever(run: seq<State>, k: nat, j: nat)
    requires IsRun(run) && k <= j < |run| && RequestLost(run[k])
    ensures RequestLost(run[j])
    decreases j
  {
    if j == k {
    } else {
      var i := j - 1;
      LostForever(run, k, i);
      RunInvariant(run, i);
      LostByNext(run[i], run[i + 1]);
    }
  }

  predicate AsksAgain(s: State, s': State) { s.client.pc.Idle? && s.stat.requested && s'.client.pc.LockStat? }

  /** A client that calls dm_wait_ready, if at all, before any other request. */
  ghost predicate Cautious(run: seq<State>) {
    forall k :: 0 <= k < |run| - 1 ==> !AsksAgain(run[k], run[k + 1])
  }

  // The request before has been cleared.
  predicate Clear(s: State) { Preparing(s.client.pc) ==> Quiet(s.stat, s.dm) }

  lemma DmClear(s: State, poll: bool)
    requires DmCanStep(s) && RingShape(s.ring) && Clear(s)
    ensures Clear(DmStep(s, poll))
  {
  }

  lemma ClientClear(s: State, op: Op)
    requires ClientCanStep(s) && RingShape(s.ring) && StatOk(s.stat, s.dm, s.client) && Clear(s)
    requires !AsksAgain(s, ClientStep(s, op))
    ensures Clear(ClientStep(s, op))
  {
  }

  lemma ClearStays(s: State, s': State)
    requires Inv(s) && Next(s, s') && Clear(s) && !AsksAgain(s, s')
    ensures Clear(s')
  {
    if DmCanStep(s) && exists poll: bool :: s' == DmStep(s, poll) {
      var poll: bool :| s' == DmStep(s, poll);
      DmClear(s, poll);
    } else {
      var op :| s' == ClientStep(s, op);
      ClientClear(s, op);
    }
  }

  /** Then no request is ever lost. */
  lemma {:induction false} CautiousNeverLoses(run: seq<State>, k: nat)
    requires IsRun(run) && Cautious(run) && k < |run|
    ensures !RequestLost(run[k]) && Clear(run[k])
  {
    if k == 0 {
    } else {
      CautiousNeverLoses(run, k - 1);
      RunInvariant(run, k - 1);
      ClearStays(run[k - 1], run[k]);
      LostByNext(run[k - 1], run[k]);
    }
  }

  // ---------------------------------------------------------------- a run that gets stuck

  function Last(run: seq<State>): State
    requires 0 < |run|
  {
    run[|run| - 1]
  }

  lemma DmExtends(run: seq<State>, poll: bool) returns (run': seq<State>)
    requires IsRun(run) && RingShape(Last(run).ring) && DmCanStep(Last(run))
    ensures IsRun(run') && Last(run') == DmStep(Last(run), poll)
  {
    run' := run + [DmStep(Last(run), poll)];
    assert Next(Last(run), Last(run'));
  }

  lemma ClientExtends(run: seq<State>, op: Op) returns (run': seq<State>)
    requires IsRun(run) && RingShape(Last(run).ring) && ClientCanStep(Last(run))
    ensures IsRun(run') && Last(run') == ClientStep(Last(run), op)
  {
    run' := run + [ClientStep(Last(run), op)];
    assert Next(Last(run), Last(run'));
  }

  predicate AsleepWith(s: State, fill: nat) {
    RingShape(s.ring) && s.dm.Wfi? && !s.irq.pending && !s.irq.mutex && s.client.pc.Idle? && s.ring.fill == fill
  }

  // The client is at `pc` of a copy while the DM core sleeps.
  predicate CopyingAt(s: State, copy: Copy, fill: nat, pc: ClientPc) {
    RingShape(s.ring) && s.dm.Wfi? && !s.irq.pending && s.ring.fill == fill && s.client.want == copy && s.client.pc == pc
  }

  lemma BeginCopy(run: seq<State>, copy: Copy, fill: nat) returns (run': seq<State>)
    requires IsRun(run) && AsleepWith(Last(run), fill) && fill < SIZE && copy.Memcpy1d?
    ensures IsRun(run') && CopyingAt(Last(run'), copy, fill, Fill(0))
  {
    run' := ClientExtends(run, Memcpy(copy));
    run' := ClientExtends(run', Memcpy(copy));
    run' := ClientExtends(run', Memcpy(copy));
  }

  lemma WriteFields(run: seq<State>, copy: Copy, fill: nat) returns (run': seq<State>)
    requires IsRun(run) && CopyingAt(Last(run), copy, fill, Fill(0)) && copy.Memcpy1d?
    ensures IsRun(run') && CopyingAt(Last(run'), copy, fill, IncFill)
  {
    run' := run;
    var k := 0;
    while k < 5
      invariant 0 <= k <= 5 && IsRun(run') && CopyingAt(Last(run'), copy, fill, if k < 5 then Fill(k) else IncFill)
    {
      run' := ClientExtends(run', Memcpy(copy));
      k := k + 1;
    }
  }

  lemma EndCopy(run: seq<State>, copy: Copy, fill: nat) returns (run': seq<State>)
    requires IsRun(run) && CopyingAt(Last(run), copy, fill, IncFill)
    ensures IsRun(run') && AsleepWith(Last(run'), fill + 1)
  {
    run' := ClientExtends(run, Memcpy(copy));
    run' := ClientExtends(run', Memcpy(copy));
    run' := ClientExtends(run', Memcpy(copy));
  }

  // One whole dm_memcpy_async while the DM core sleeps.
  lemma QueueOne(run: seq<State>, copy: Copy, fill: nat) returns (run': seq<State>)
    requires IsRun(run) && AsleepWith(Last(run), fill) && fill < SIZE && copy.Memcpy1d?
    ensures IsRun(run') && AsleepWith(Last(run'), fill + 1)
  {
    run' := BeginCopy(run, copy, fill);
    run' := WriteFields(run', copy, fill);
    run' := EndCopy(run', copy, fill);
  }

  // Where both cores are, with an empty ring.
  predicate At(s: State, dm: DmPc, pc: ClientPc, statQ: Request, pvalid: bool, irq: Irq) {
    && RingShape(s.ring) && s.ring.fill == 0
    && s.dm == dm && s.client.pc == pc && s.stat.statQ == statQ && s.stat.pvalid == pvalid && s.irq == irq
  }

  // With nothing to do the DM core goes to sleep.
  lemma FallAsleep(s0: State) returns (run: seq<State>)
    requires Init(s0)
    ensures IsRun(run) && At(Last(run), Wfi, Idle, None, false, Irq(false, 1, false))
  {
    run := [s0];
    var k := 0;
    while k < 5
      invariant 0 <= k <= 5 && IsRun(run)
      invariant At(Last(run), [TestFill, TestStat, SleepFill, SleepStat, IncWfi, Wfi][k], Idle, None, false, Irq(false, Lag(k == 5), false))
    {
      run := DmExtends(run, false);
      k := k + 1;
    }
  }

  /** The first stuck state is reachable: five copies queued before the first dm_start. */
  lemma FiveCopiesGetStuck(s0: State, copy: Copy) returns (run: seq<State>)
    requires Init(s0) && copy.Memcpy1d?
    ensures IsRun(run) && !DmCanStep(Last(run)) && !ClientCanStep(Last(run)) && PollsFull(Last(run))
  {
    run := FallAsleep(s0);
    run := QueueOne(run, copy, 0);
    run := QueueOne(run, copy, 1);
    run := QueueOne(run, copy, 2);
    run := QueueOne(run, copy, 3);
    run := ClientExtends(run, Memcpy(copy));
  }

  // ---------------------------------------------------------------- a run that loses a request

  lemma BeginWait(run: seq<State>) returns (run': seq<State>)
    requires IsRun(run) && At(Last(run), Wfi, Idle, None, false, Irq(false, 1, false))
    ensures IsRun(run') && At(Last(run'), Wfi, LockStat, None, false, Irq(false, 1, true)) && Last(run').client.request == WaitIdle
  {
    run' := ClientExtends(run, Wait);
    run' := ClientExtends(run', Wait);
    run' := ClientExtends(run', Wait);
    run' := ClientExtends(run', Wait);
    run' := ClientExtends(run', Wait);
  }

  lemma ClearAnswer(run: seq<State>, dm: DmPc, q: Irq, request: Request, statQ: Request) returns (run': seq<State>)
    requires IsRun(run) && At(Last(run), dm, ClearValid, statQ, Last(run).stat.pvalid, q) && Last(run).client.request == request
    ensures IsRun(run') && At(Last(run'), dm, WakeSpin(Answer), request, false, q)
  {
    run' := ClientExtends(run, Wait);
    run' := ClientExtends(run', Wait);
  }

  lemma WakeForAnswer(run: seq<State>, statQ: Request) returns (run': seq<State>)
    requires IsRun(run) && At(Last(run), Wfi, WakeSpin(Answer), statQ, false, Irq(true, 1, Last(run).irq.pending))
    ensures IsRun(run') && At(Last(run'), Wfi, AwaitValid, statQ, false, Irq(true, 1, true))
  {
    run' := ClientExtends(run, Wait);
    run' := ClientExtends(run', Wait);
  }

  lemma PutWait(run: seq<State>) returns (run': seq<State>)
    requires IsRun(run) && At(Last(run), Wfi, LockStat, None, false, Irq(false, 1, true)) && Last(run).client.request == WaitIdle
    ensures IsRun(run') && At(Last(run'), Wfi, AwaitValid, WaitIdle, false, Irq(true, 1, true))
  {
    run' := ClientExtends(run, Wait);
    run' := ClearAnswer(run', Wfi, Irq(true, 1, true), WaitIdle, None);
    run' := WakeForAnswer(run', WaitIdle);
  }

  lemma WakeUp(run: seq<State>, statQ: Request) returns (run': seq<State>)
    requires IsRun(run) && At(Last(run), Wfi, AwaitValid, statQ, false, Irq(true, 1, true))
    ensures IsRun(run') && At(Last(run'), TestStat, AwaitValid, statQ, false, Irq(true, 0, false))
  {
    run' := DmExtends(run, false);
    run' := DmExtends(run', false);
    run' := DmExtends(run', false);
    run' := DmExtends(run', false);
  }

  lemma GoSleep(run: seq<State>, pc: ClientPc) returns (run': seq<State>)
    requires IsRun(run) && At(Last(run), SleepFill, pc, None, false, Irq(true, 0, false))
    ensures IsRun(run') && At(Last(run'), Wfi, pc, None, false, Irq(true, 1, false))
  {
    run' := DmExtends(run, false);
    run' := DmExtends(run', false);
    run' := DmExtends(run', false);
  }

  // The DM core answers the request and is about to clear it.
  lemma AnswerIt(run: seq<State>) returns (run': seq<State>)
    requires IsRun(run) && At(Last(run), Wfi, AwaitValid, WaitIdle, false, Irq(true, 1, true))
    ensures IsRun(run') && At(Last(run'), ClearStat, AwaitValid, WaitIdle, true, Irq(true, 0, false))
  {
    run' := WakeUp(run, WaitIdle);
    run' := DmExtends(run', false);
    run' := DmExtends(run', false);
    run' := DmExtends(run', false);
    run' := DmExtends(run', false);
  }

  lemma TakeAnswer(run: seq<State>) returns (run': seq<State>)
    requires IsRun(run) && At(Last(run), ClearStat, AwaitValid, WaitIdle, true, Irq(true, 0, false))
    ensures IsRun(run') && At(Last(run'), ClearStat, Idle, WaitIdle, true, Irq(false, 0, false))
  {
    run' := ClientExtends(run, WaitReady);
    run' := ClientExtends(run', WaitReady);
  }

  // The client takes the answer, calls dm_wait_ready and puts its request.
  lemma PutReady(run: seq<State>) returns (run': seq<State>)
    requires IsRun(run) && At(Last(run), ClearStat, AwaitValid, WaitIdle, true, Irq(true, 0, false))
    ensures IsRun(run') && At(Last(run'), ClearStat, WakeSpin(Answer), Ready, false, Irq(true, 0, false))
  {
    run' := TakeAnswer(run);
    run' := ClientExtends(run', WaitReady);
    run' := ClientExtends(run', WaitReady);
    run' := ClearAnswer(run', ClearStat, Irq(true, 0, false), Ready, WaitIdle);
  }

  // The DM core clears it and goes to sleep; woken up, it finds nothing and goes to sleep again.
  lemma ForgetIt(run: seq<State>) returns (run': seq<State>)
    requires IsRun(run) && At(Last(run), ClearStat, WakeSpin(Answer), Ready, false, Irq(true, 0, false))
    ensures IsRun(run') && At(Last(run'), Wfi, AwaitValid, None, false, Irq(true, 1, false))
  {
    run' := DmExtends(run, false);
    run' := GoSleep(run', WakeSpin(Answer));
    run' := WakeForAnswer(run', None);
    run' := WakeUp(run', None);
    run' := DmExtends(run', false);
    run' := GoSleep(run', AwaitValid);
  }

  /** The second one is too: dm_wait returns, and dm_wait_ready is called before the DM core has cleared its request. */
  lemma ReadyAfterWaitIsLost(s0: State) returns (run: seq<State>)
    requires Init(s0)
    ensures IsRun(run) && !DmCanStep(Last(run)) && !ClientCanStep(Last(run)) && RequestLost(Last(run))
  {
    run := FallAsleep(s0);
    run := BeginWait(run);
    run := PutWait(run);
    run := AnswerIt(run);
    run := PutReady(run);
    run := ForgetIt(run);
  }
}
