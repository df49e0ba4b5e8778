// maxpool_layer on one cluster: the DMA core and the compute cores run concurrently, one barrier per step.
//
// A step is one round of the two tile loops. Every access to a shared buffer is a transition of its own,
// and the DMA engine moves the elements of a transfer in any order.
module MaxpoolLayer {
  import Arith
  import opened Maxpool

  /** What a layer makes of its parameters: the sizes, and the input tile fetched in each step. */
  datatype Job = Job(cores: nat, chans: nat, rows: nat, row: nat, window: nat, size: nat, steps: nat, tiles: seq<seq<real>>)
  {
    ghost predicate Valid() {
      && 0 < cores && 0 < chans && chans % cores == 0 && 0 < steps
      && size == rows * row == window * chans && chans <= size
      && |tiles| == steps
      && forall t :: 0 <= t < steps ==> |tiles[t]| == size
    }
  }

  datatype DmPc =
    | Loading(h: nat)     // rows below h have been started
    | AtBarrier
    | Released
    | Storing
    | LastBarrier
    | LastReleased
    | LastStoring
    | DmDone

  /** The DMA core: `prev` is the step whose output position it has saved; `pending` the elements still to move. */
  datatype Dm = Dm(pc: DmPc, step: nat, readBuf: bool, writeBuf: bool, prev: nat, pending: set<nat>)

  datatype CorePc =
    | Waiting
    | First(ci: nat)
    | Compare(ci: nat, p: nat, max: real)
    | AtEnd
    | CoreDone

  datatype Core = Core(pc: CorePc, step: nat, readBuf: bool, writeBuf: bool)

  datatype State = State(ifmap: seq<real>, ofmap: seq<real>, out: seq<real>, dm: Dm, cores: seq<Core>, epoch: nat)

  function Half(buf: bool, size: nat): nat { if buf then size else 0 }

  function Put(s: seq<real>, i: int, v: real): (r: seq<real>)
    ensures |r| == |s|
  {
    if 0 <= i < |s| then s[i := v] else s
  }

  // ---------------------------------------------------------------- transitions

  datatype Action =
    | StartRow
    | LoadsDone
    | Move(i: nat)
    | StartStore
    | StoreDone
    | Compute(c: nat)
    | Barrier

  function Range(lo: nat, n: nat): (r: set<nat>)
    ensures forall i :: i in r <==> lo <= i < lo + n
  {
    if n == 0 then {} else Range(lo, n - 1) + {lo + n - 1}
  }

  function RowElements(j: Job, h: nat): set<nat> { Range(h * j.row, j.row) }

  function ChannelElements(j: Job): set<nat> { Range(0, j.chans) }

  // An element of a load goes to the input buffer; an element of a store goes to the output of step prev.
  function MoveElement(j: Job, s: State, i: nat): State {
    var d := s.dm;
    if d.pc.Loading? then
      s.(ifmap := Put(s.ifmap, Half(d.writeBuf, j.size) + i, if d.step < |j.tiles| then Element(j.tiles[d.step], i) else 0.0),
         dm := d.(pending := d.pending - {i}))
    else
      s.(out := Put(s.out, d.prev * j.chans + i, Element(s.ofmap, Half(!d.readBuf, j.chans) + i)),
         dm := d.(pending := d.pending - {i}))
  }

  function NextStep(j: Job, d: Dm): Dm {
    Dm(if d.step + 1 < j.steps then Loading(0) else LastBarrier, d.step + 1, !d.readBuf, !d.writeBuf, d.step, {})
  }

  function AfterChannel(j: Job, k: Core, ci: nat): Core {
    if ci + j.cores < j.chans then
      k.(pc := First(ci + j.cores))
    else
      Core(if k.step + 1 < j.steps then Waiting else AtEnd, k.step + 1, !k.readBuf, !k.writeBuf)
  }

  // One access of compute core c, whose pointers are offset by its index.
  function CoreStep(j: Job, s: State, c: nat): State
    requires c < |s.cores|
  {
    var k := s.cores[c];
    match k.pc
    case First(ci) =>
      s.(cores := s.cores[c := k.(pc := Compare(ci, 0, Element(s.ifmap, Half(k.readBuf, j.size) + c + ci)))])
    case Compare(ci, p, max) =>
      if p < j.window then
        var v := Element(s.ifmap, Half(k.readBuf, j.size) + c + ci + p * j.chans);
        s.(cores := s.cores[c := k.(pc := Compare(ci, p + 1, Larger(v, max)))])
      else
        s.(ofmap := Put(s.ofmap, Half(k.writeBuf, j.chans) + c + ci, max),
           cores := s.cores[c := AfterChannel(j, k, ci)])
    case _ => s
  }

  predicate AllAtBarrier(s: State) {
    && (s.dm.pc.AtBarrier? || s.dm.pc.LastBarrier?)
    && forall c :: 0 <= c < |s.cores| ==> s.cores[c].pc.Waiting? || s.cores[c].pc.AtEnd?
  }

  function PastBarrier(s: State): State {
    s.(dm := s.dm.(pc := if s.dm.pc.AtBarrier? then Released else LastReleased),
       cores := seq(|s.cores|, c requires 0 <= c < |s.cores| =>
                  s.cores[c].(pc := if s.cores[c].pc.Waiting? then First(0) else CoreDone)),
       epoch := s.epoch + 1)
  }

  predicate Enabled(j: Job, s: State, a: Action) {
    match a
    case StartRow => s.dm.pc.Loading? && s.dm.pc.h < j.rows
    case LoadsDone => s.dm.pc.Loading? && s.dm.pc.h >= j.rows && s.dm.pending == {}
    case Move(i) => (s.dm.pc.Loading? || s.dm.pc.Storing? || s.dm.pc.LastStoring?) && i in s.dm.pending
    case StartStore => s.dm.pc.Released? || s.dm.pc.LastReleased?
    case StoreDone => (s.dm.pc.Storing? || s.dm.pc.LastStoring?) && s.dm.pending == {}
    case Compute(c) => c < |s.cores| && (s.cores[c].pc.First? || s.cores[c].pc.Compare?)
    case Barrier => AllAtBarrier(s)
  }

  function Do(j: Job, s: State, a: Action): State
    requires Enabled(j, s, a)
  {
    var d := s.dm;
    match a
    case StartRow => s.(dm := d.(pc := Loading(d.pc.h + 1), pending := d.pending + RowElements(j, d.pc.h)))
    case LoadsDone => s.(dm := d.(pc := AtBarrier))
    case Move(i) => MoveElement(j, s, i)
    case StartStore =>
      if d.pc.LastReleased? then s.(dm := d.(pc := LastStoring, pending := ChannelElements(j)))
      else s.(dm := d.(pc := Storing, pending := if d.step == 0 then {} else ChannelElements(j)))
    case StoreDone => s.(dm := if d.pc.LastStoring? then d.(pc := DmDone) else NextStep(j, d))
    case Compute(c) => CoreStep(j, s, c)
    case Barrier => PastBarrier(s)
  }

  ghost predicate Init(j: Job, s: State) {
    && |s.ifmap| == 2 * j.size && |s.ofmap| == 2 * j.chans && |s.out| == j.steps * j.chans
    && s.dm.(prev := 0) == Dm(Loading(0), 0, false, false, 0, {})
    && |s.cores| == j.cores
    && (forall c :: 0 <= c < j.cores ==> s.cores[c] == Core(Waiting, 0, false, false))
    && s.epoch == 0
  }

  ghost predicate Takes(j: Job, s: State, a: Action, s': State) {
    Enabled(j, s, a) && s' == Do(j, s, a)
  }

  ghost predicate Next(j: Job, s: State, s': State) {
    exists a :: Takes(j, s, a, s')
  }

  ghost predicate IsRun(j: Job, run: seq<State>) {
    && run != [] && Init(j, run[0])
    && forall i :: 0 <= i < |run| - 1 ==> Next(j, run[i], run[i + 1])
  }

  // ---------------------------------------------------------------- the invariant

  predicate Buf(step: nat) { step % 2 == 1 }

  function Pooled(j: Job, step: nat, k: nat): real
    requires step < |j.tiles|
  {
    Scan(j.tiles[step], k, j.chans, j.window)
  }

  // The part of step `step`'s input tile for which `which` holds is in its buffer.
  ghost predicate Loaded(j: Job, ifmap: seq<real>, step: nat, size: nat, pending: set<nat>)
    requires step < |j.tiles|
  {
    forall i: nat :: i < size && i !in pending ==> Element(ifmap, Half(Buf(step), j.size) + i) == Element(j.tiles[step], i)
  }

  ghost predicate Complete(j: Job, ofmap: seq<real>, step: nat)
    requires step < |j.tiles|
  {
    forall k: nat :: k < j.chans ==> Element(ofmap, Half(Buf(step), j.chans) + k) == Pooled(j, step, k)
  }

  function Progress(j: Job, k: Core, epoch: nat): nat {
    match k.pc
    case First(ci) => ci
    case Compare(ci, _, _) => ci
    case _ => if k.step == epoch then j.chans else 0
  }

  function AllProgress(j: Job, cores: seq<Core>, epoch: nat): (r: seq<nat>)
    ensures |r| == |cores|
  {
    seq(|cores|, c requires 0 <= c < |cores| => Progress(j, cores[c], epoch))
  }

  // Core c has written its channels below progress[c].
  ghost predicate Partial(j: Job, ofmap: seq<real>, step: nat, progress: seq<nat>)
    requires step < |j.tiles| && 0 < j.cores
  {
    forall k: nat :: k < j.chans && k % j.cores < |progress| && k < progress[k % j.cores] ==>
      Element(ofmap, Half(Buf(step), j.chans) + k) == Pooled(j, step, k)
  }

  ghost predicate StepStored(j: Job, out: seq<real>, step: nat, pending: set<nat>)
    requires step < |j.tiles|
  {
    forall k: nat :: k < j.chans && k !in pending ==> Element(out, step * j.chans + k) == Pooled(j, step, k)
  }

  ghost predicate Stored(j: Job, out: seq<real>, steps: int) {
    forall t: nat :: t < steps && t < |j.tiles| ==> StepStored(j, out, t, {})
  }

  ghost predicate DmControl(j: Job, d: Dm, e: nat) {
    && d.readBuf == d.writeBuf == Buf(d.step)
    && (d.step > 0 ==> d.prev == d.step - 1)
    && match d.pc
       case Loading(h) => h <= j.rows && d.step == e < j.steps && (forall i :: i in d.pending ==> i < h * j.row)
       case AtBarrier => d.step == e < j.steps && d.pending == {}
       case Released => d.step + 1 == e <= j.steps && d.pending == {}
       case Storing => d.step + 1 == e <= j.steps && d.pending <= (if d.step == 0 then {} else ChannelElements(j))
       case LastBarrier => d.step == e == j.steps && d.pending == {}
       case LastReleased => d.step == j.steps == e - 1 && d.pending == {}
       case LastStoring => d.step == j.steps == e - 1 && d.pending <= ChannelElements(j)
       case DmDone => d.step == j.steps == e - 1 && d.pending == {}
  }

  ghost predicate CoreControl(j: Job, k: Core, e: nat)
    requires 0 < j.cores
  {
    && k.readBuf == k.writeBuf == Buf(k.step)
    && match k.pc
       case Waiting => k.step == e < j.steps
       case First(ci) => k.step + 1 == e <= j.steps && ci < j.chans && ci % j.cores == 0
       case Compare(ci, p, _) => k.step + 1 == e <= j.steps && ci < j.chans && ci % j.cores == 0 && p <= j.window
       case AtEnd => k.step == e == j.steps
       case CoreDone => k.step == j.steps == e - 1
  }

  // What core c has kept so far is the scan of its channel.
  ghost predicate Keeps(j: Job, k: Core, c: nat) {
    k.pc.Compare? && k.step < |j.tiles| ==> k.pc.max == Scan(j.tiles[k.step], c + k.pc.ci, j.chans, k.pc.p)
  }

  ghost predicate CoresControl(j: Job, cores: seq<Core>, e: nat)
    requires j.Valid()
  {
    && |cores| == j.cores
    && (forall c :: 0 <= c < j.cores ==> CoreControl(j, cores[c], e))
    && (forall c :: 0 <= c < j.cores ==> Keeps(j, cores[c], c))
  }

  // The input tile being pooled is in place, and so is what has arrived of the next one.
  ghost predicate Input(j: Job, ifmap: seq<real>, d: Dm, e: nat)
    requires j.Valid()
  {
    && |ifmap| == 2 * j.size
    && (1 <= e <= j.steps ==> Loaded(j, ifmap, e - 1, j.size, {}))
    && (d.pc.Loading? && e < j.steps ==> Loaded(j, ifmap, e, d.pc.h * j.row, d.pending))
    && (d.pc.AtBarrier? && e < j.steps ==> Loaded(j, ifmap, e, j.size, {}))
  }

  // The channels pooled so far are in place, and so is the whole previous tile.
  ghost predicate Output(j: Job, ofmap: seq<real>, progress: seq<nat>, e: nat)
    requires j.Valid()
  {
    && |ofmap| == 2 * j.chans
    && (1 <= e <= j.steps ==> Partial(j, ofmap, e - 1, progress))
    && (2 <= e <= j.steps + 1 ==> Complete(j, ofmap, e - 2))
  }

  // All tiles before the one being stored have reached the output, and so has what has moved of that one.
  ghost predicate Memory(j: Job, out: seq<real>, d: Dm)
    requires j.Valid()
  {
    && |out| == j.steps * j.chans
    && Stored(j, out, if d.pc.DmDone? then j.steps else d.step - 1)
    && ((d.pc.Storing? || d.pc.LastStoring?) && 0 < d.step <= j.steps ==> StepStored(j, out, d.step - 1, d.pending))
  }

  ghost predicate Inv(j: Job, s: State)
    requires j.Valid()
  {
    && DmControl(j, s.dm, s.epoch)
    && CoresControl(j, s.cores, s.epoch)
    && Input(j, s.ifmap, s.dm, s.epoch)
    && Output(j, s.ofmap, AllProgress(j, s.cores, s.epoch), s.epoch)
    && Memory(j, s.out, s.dm)
  }

  // ---------------------------------------------------------------- the invariant is kept

  lemma InitInv(j: Job, s: State)
    requires j.Valid() && Init(j, s)
    ensures Inv(j, s)
  {
  }

  lemma StartRowInv(j: Job, s: State)
    requires j.Valid() && Inv(j, s) && Enabled(j, s, StartRow)
    ensures Inv(j, Do(j, s, StartRow))
  {
    var h := s.dm.pc.h;
    assert (h + 1) * j.row == h * j.row + j.row;
  }

  lemma LoadsDoneInv(j: Job, s: State)
    requires j.Valid() && Inv(j, s) && Enabled(j, s, LoadsDone)
    ensures Inv(j, Do(j, s, LoadsDone))
  {
    assert s.dm.pc.h == j.rows;
  }

  lemma LoadMove(j: Job, ifmap: seq<real>, step: nat, size: nat, i: nat, pending: set<nat>)
    requires j.Valid() && step < j.steps && i < size <= j.size && |ifmap| == 2 * j.size
    requires Loaded(j, ifmap, step, size, pending)
    ensures Loaded(j, Put(ifmap, Half(Buf(step), j.size) + i, Element(j.tiles[step], i)), step, size, pending - {i})
    ensures step >= 1 && Loaded(j, ifmap, step - 1, j.size, {}) ==>
              Loaded(j, Put(ifmap, Half(Buf(step), j.size) + i, Element(j.tiles[step], i)), step - 1, j.size, {})
  {
  }

  lemma LoadInput(j: Job, ifmap: seq<real>, d: Dm, e: nat, i: nat, ifmap': seq<real>)
    requires j.Valid() && DmControl(j, d, e) && Input(j, ifmap, d, e) && d.pc.Loading? && i in d.pending
    requires ifmap' == Put(ifmap, Half(Buf(d.step), j.size) + i, Element(j.tiles[d.step], i))
    ensures DmControl(j, d.(pending := d.pending - {i}), e) && Input(j, ifmap', d.(pending := d.pending - {i}), e)
  {
    Arith.MulMono(j.row, d.pc.h, j.rows);
    LoadMove(j, ifmap, d.step, d.pc.h * j.row, i, d.pending);
  }

  lemma DmMoved(j: Job, s: State, dm: Dm, ifmap: seq<real>, out: seq<real>)
    requires j.Valid() && Inv(j, s) && DmControl(j, dm, s.epoch)
    requires Input(j, ifmap, dm, s.epoch) && Memory(j, out, dm)
    ensures Inv(j, s.(dm := dm, ifmap := ifmap, out := out))
  {
  }

  lemma LoadMoveInv(j: Job, s: State, i: nat)
    requires j.Valid() && Inv(j, s) && s.dm.pc.Loading? && i in s.dm.pending
    ensures Inv(j, MoveElement(j, s, i))
  {
    var d, d' := s.dm, s.dm.(pending := s.dm.pending - {i});
    var ifmap := Put(s.ifmap, Half(Buf(d.step), j.size) + i, Element(j.tiles[d.step], i));
    LoadInput(j, s.ifmap, d, s.epoch, i, ifmap);
    assert Memory(j, s.out, d');
    DmMoved(j, s, d', ifmap, s.out);
    assert MoveElement(j, s, i) == s.(ifmap := ifmap, dm := d');
  }

  // The element being stored is the result of the step before.
  lemma StoredValue(j: Job, ofmap: seq<real>, progress: seq<nat>, d: Dm, e: nat, i: nat)
    requires j.Valid() && DmControl(j, d, e) && Output(j, ofmap, progress, e)
    requires (d.pc.Storing? || d.pc.LastStoring?) && i in d.pending
    ensures 0 < d.step <= j.steps && d.prev == d.step - 1 && i < j.chans
    ensures Element(ofmap, Half(!d.readBuf, j.chans) + i) == Pooled(j, d.step - 1, i)
  {
  }

  lemma StoreControl(j: Job, d: Dm, e: nat, i: nat, ifmap: seq<real>)
    requires j.Valid() && DmControl(j, d, e) && Input(j, ifmap, d, e) && (d.pc.Storing? || d.pc.LastStoring?)
    ensures DmControl(j, d.(pending := d.pending - {i}), e) && Input(j, ifmap, d.(pending := d.pending - {i}), e)
  {
  }

  lemma StoreMove(j: Job, out: seq<real>, d: Dm, i: nat, v: real)
    requires j.Valid() && Memory(j, out, d) && (d.pc.Storing? || d.pc.LastStoring?)
    requires 0 < d.step <= j.steps && d.prev == d.step - 1 && i < j.chans && v == Pooled(j, d.step - 1, i)
    ensures Memory(j, Put(out, d.prev * j.chans + i, v), d.(pending := d.pending - {i}))
  {
    var step, out' := d.step - 1, Put(out, d.prev * j.chans + i, v);
    InTile(step, i, j.steps, j.chans);
    assert StepStored(j, out', step, d.pending - {i});
    forall t: nat | t < step && t < |j.tiles| ensures StepStored(j, out', t, {}) {
      assert StepStored(j, out, t, {});
      forall k: nat | k < j.chans ensures Element(out', t * j.chans + k) == Pooled(j, t, k) {
        InTile(t, k, step, j.chans);
      }
    }
  }

  lemma StoreMoveInv(j: Job, s: State, i: nat)
    requires j.Valid() && Inv(j, s) && (s.dm.pc.Storing? || s.dm.pc.LastStoring?) && i in s.dm.pending
    ensures Inv(j, MoveElement(j, s, i))
  {
    var d, d' := s.dm, s.dm.(pending := s.dm.pending - {i});
    StoredValue(j, s.ofmap, AllProgress(j, s.cores, s.epoch), d, s.epoch, i);
    var v := Pooled(j, d.step - 1, i);
    StoreMove(j, s.out, d, i, v);
    var out := Put(s.out, d.prev * j.chans + i, v);
    StoreControl(j, d, s.epoch, i, s.ifmap);
    DmMoved(j, s, d', s.ifmap, out);
    assert MoveElement(j, s, i) == s.(out := out, dm := d');
  }

  lemma MoveInv(j: Job, s: State, i: nat)
    requires j.Valid() && Inv(j, s) && Enabled(j, s, Move(i))
    ensures Inv(j, Do(j, s, Move(i)))
  {
    if s.dm.pc.Loading? { LoadMoveInv(j, s, i); } else { StoreMoveInv(j, s, i); }
  }

  lemma StartStoreInv(j: Job, s: State)
    requires j.Valid() && Inv(j, s) && Enabled(j, s, StartStore)
    ensures Inv(j, Do(j, s, StartStore))
  {
  }

  lemma AfterStore(j: Job, d: Dm, d': Dm, e: nat, ifmap: seq<real>, out: seq<real>)
    requires j.Valid() && DmControl(j, d, e) && Input(j, ifmap, d, e) && (d.pc.Storing? || d.pc.LastStoring?)
    requires d.pending == {} && |out| == j.steps * j.chans && Stored(j, out, d.step)
    requires d' == if d.pc.LastStoring? then d.(pc := DmDone) else NextStep(j, d)
    ensures DmControl(j, d', e) && Input(j, ifmap, d', e) && Memory(j, out, d')
  {
  }

  lemma OneMoreStored(j: Job, out: seq<real>, step: nat, d: Dm)
    requires j.Valid() && Memory(j, out, d) && d.pending == {} && d.step == step <= j.steps
    requires d.pc.Storing? || d.pc.LastStoring?
    ensures Stored(j, out, step)
  {
  }

  lemma StoreDoneInv(j: Job, s: State)
    requires j.Valid() && Inv(j, s) && Enabled(j, s, StoreDone)
    ensures Inv(j, Do(j, s, StoreDone))
  {
    OneMoreStored(j, s.out, s.dm.step, s.dm);
    var d := if s.dm.pc.LastStoring? then s.dm.(pc := DmDone) else NextStep(j, s.dm);
    AfterStore(j, s.dm, d, s.epoch, s.ifmap, s.out);
    DmMoved(j, s, d, s.ifmap, s.out);
  }

  predicate NothingPooled(progress: seq<nat>) { forall c :: 0 <= c < |progress| ==> progress[c] == 0 }

  lemma CorePastBarrier(j: Job, k: Core, e: nat, k': Core)
    requires 0 < j.cores && 0 < j.chans && CoreControl(j, k, e) && (k.pc.Waiting? || k.pc.AtEnd?)
    requires k' == k.(pc := if k.pc.Waiting? then First(0) else CoreDone)
    ensures CoreControl(j, k', e + 1) && !k'.pc.Compare? && (e < j.steps ==> Progress(j, k', e + 1) == 0)
  {
  }

  lemma BarrierCores(j: Job, s: State)
    requires j.Valid() && CoresControl(j, s.cores, s.epoch) && DmControl(j, s.dm, s.epoch) && AllAtBarrier(s)
    ensures CoresControl(j, PastBarrier(s).cores, s.epoch + 1)
    ensures s.epoch < j.steps ==> NothingPooled(AllProgress(j, PastBarrier(s).cores, s.epoch + 1))
  {
    var cores := PastBarrier(s).cores;
    forall c | 0 <= c < j.cores
      ensures CoreControl(j, cores[c], s.epoch + 1) && Keeps(j, cores[c], c)
      ensures s.epoch < j.steps ==> Progress(j, cores[c], s.epoch + 1) == 0
    {
      CorePastBarrier(j, s.cores[c], s.epoch, cores[c]);
    }
  }

  lemma BarrierDm(j: Job, s: State)
    requires j.Valid() && DmControl(j, s.dm, s.epoch) && AllAtBarrier(s)
    requires Input(j, s.ifmap, s.dm, s.epoch) && Memory(j, s.out, s.dm)
    ensures DmControl(j, PastBarrier(s).dm, s.epoch + 1)
    ensures Input(j, s.ifmap, PastBarrier(s).dm, s.epoch + 1) && Memory(j, s.out, PastBarrier(s).dm)
  {
  }

  lemma BarrierOutput(j: Job, s: State)
    requires j.Valid() && |s.cores| == j.cores && DmControl(j, s.dm, s.epoch) && AllAtBarrier(s) && |s.ofmap| == 2 * j.chans
    requires 1 <= s.epoch <= j.steps ==> Complete(j, s.ofmap, s.epoch - 1)
    requires s.epoch < j.steps ==> NothingPooled(AllProgress(j, PastBarrier(s).cores, s.epoch + 1))
    ensures Output(j, s.ofmap, AllProgress(j, PastBarrier(s).cores, s.epoch + 1), s.epoch + 1)
  {
  }

  // At a barrier the cores have finished the tile they were working on.
  lemma AllChannelsDone(j: Job, s: State)
    requires j.Valid() && CoresControl(j, s.cores, s.epoch) && AllAtBarrier(s) && 1 <= s.epoch <= j.steps
    requires Partial(j, s.ofmap, s.epoch - 1, AllProgress(j, s.cores, s.epoch))
    ensures Complete(j, s.ofmap, s.epoch - 1)
  {
    assert forall c :: 0 <= c < j.cores ==> Progress(j, s.cores[c], s.epoch) == j.chans;
  }

  lemma BarrierInv(j: Job, s: State)
    requires j.Valid() && Inv(j, s) && Enabled(j, s, Barrier)
    ensures Inv(j, Do(j, s, Barrier))
  {
    BarrierCores(j, s);
    BarrierDm(j, s);
    if s.epoch > 0 {
      AllChannelsDone(j, s);
    }
    BarrierOutput(j, s);
  }

  lemma FirstInv(j: Job, s: State, c: nat)
    requires j.Valid() && Inv(j, s) && c < j.cores && s.cores[c].pc.First? && s.cores[c].pc.ci + j.cores <= j.chans
    ensures Inv(j, CoreStep(j, s, c))
  {
    var s', k := CoreStep(j, s, c), s.cores[c];
    assert CoreControl(j, k, s.epoch);
    assert Keeps(j, s'.cores[c], c);
    assert AllProgress(j, s'.cores, s.epoch) == AllProgress(j, s.cores, s.epoch);
  }

  lemma Compared(j: Job, s: State, c: nat)
    requires j.Valid() && CoresControl(j, s.cores, s.epoch) && Input(j, s.ifmap, s.dm, s.epoch)
    requires c < j.cores && s.cores[c].pc.Compare? && s.cores[c].pc.p < j.window && s.cores[c].pc.ci + j.cores <= j.chans
    ensures var cores := CoreStep(j, s, c).cores;
            CoresControl(j, cores, s.epoch) && AllProgress(j, cores, s.epoch) == AllProgress(j, s.cores, s.epoch)
            && CoreStep(j, s, c) == s.(cores := cores)
  {
    var k := s.cores[c];
    assert CoreControl(j, k, s.epoch);
    assert Keeps(j, CoreStep(j, s, c).cores[c], c) by {
      assert Keeps(j, k, c);
      InTile(k.pc.p, c + k.pc.ci, j.window, j.chans);
    }
  }

  lemma CoresMoved(j: Job, s: State, ofmap: seq<real>, cores: seq<Core>)
    requires j.Valid() && Inv(j, s) && CoresControl(j, cores, s.epoch)
    requires Output(j, ofmap, AllProgress(j, cores, s.epoch), s.epoch)
    ensures Inv(j, s.(ofmap := ofmap, cores := cores))
  {
  }

  lemma CompareInv(j: Job, s: State, c: nat)
    requires j.Valid() && Inv(j, s) && c < j.cores && s.cores[c].pc.Compare? && s.cores[c].pc.p < j.window
    requires s.cores[c].pc.ci + j.cores <= j.chans
    ensures Inv(j, CoreStep(j, s, c))
  {
    Compared(j, s, c);
    CoresMoved(j, s, s.ofmap, CoreStep(j, s, c).cores);
  }

  function CoresAfter(j: Job, cores: seq<Core>, c: nat): seq<Core>
    requires c < |cores| && cores[c].pc.Compare?
  {
    cores[c := AfterChannel(j, cores[c], cores[c].pc.ci)]
  }

  function OutputAfter(j: Job, ofmap: seq<real>, cores: seq<Core>, e: nat, c: nat): seq<real>
    requires j.Valid() && 1 <= e <= j.steps && c < |cores| && cores[c].pc.Compare?
  {
    Put(ofmap, Half(Buf(e - 1), j.chans) + c + cores[c].pc.ci, Pooled(j, e - 1, c + cores[c].pc.ci))
  }

  // A core at the end of a window, whose results so far are as they should be.
  ghost predicate AboutToWrite(j: Job, cores: seq<Core>, e: nat, c: nat)
    requires j.Valid()
  {
    && CoresControl(j, cores, e) && c < j.cores && cores[c].pc.Compare? && cores[c].pc.p == j.window
    && cores[c].pc.ci + j.cores <= j.chans
  }

  // What the step does, in terms of the epoch.
  lemma WriteStep(j: Job, s: State, c: nat)
    requires j.Valid() && AboutToWrite(j, s.cores, s.epoch, c)
    ensures 1 <= s.epoch <= j.steps
    ensures CoreStep(j, s, c)
         == s.(ofmap := OutputAfter(j, s.ofmap, s.cores, s.epoch, c), cores := CoresAfter(j, s.cores, c))
  {
    assert CoreControl(j, s.cores[c], s.epoch) && Keeps(j, s.cores[c], c);
  }

  lemma NextChannel(j: Job, k: Core, ci: nat, e: nat)
    requires 0 < j.cores && CoreControl(j, k, e) && k.pc.Compare? && ci == k.pc.ci && ci + j.cores <= j.chans
    requires j.chans % j.cores == 0
    ensures CoreControl(j, AfterChannel(j, k, ci), e) && !AfterChannel(j, k, ci).pc.Compare?
    ensures Progress(j, AfterChannel(j, k, ci), e) == ci + j.cores
  {
    if ci + j.cores < j.chans { StrideFits(ci, j.chans, j.cores); }
  }

  lemma WriteControl(j: Job, cores: seq<Core>, e: nat, c: nat)
    requires j.Valid() && AboutToWrite(j, cores, e, c)
    ensures CoresControl(j, CoresAfter(j, cores, c), e)
  {
    assert CoreControl(j, cores[c], e);
    NextChannel(j, cores[c], cores[c].pc.ci, e);
  }

  lemma ProgressAfter(j: Job, cores: seq<Core>, e: nat, c: nat)
    requires j.Valid() && AboutToWrite(j, cores, e, c)
    ensures cores[c].pc.ci % j.cores == 0
    ensures AllProgress(j, CoresAfter(j, cores, c), e) == AllProgress(j, cores, e)[c := cores[c].pc.ci + j.cores]
  {
    assert CoreControl(j, cores[c], e);
    NextChannel(j, cores[c], cores[c].pc.ci, e);
  }

  lemma PartialGrows(j: Job, ofmap: seq<real>, step: nat, progress: seq<nat>, c: nat, ci: nat, at: nat, v: real)
    requires 0 < j.cores && step < |j.tiles| && |progress| == j.cores && |ofmap| == 2 * j.chans
    requires c < j.cores && progress[c] == ci && ci % j.cores == 0 && ci + j.cores <= j.chans
    requires at == Half(Buf(step), j.chans) + c + ci && v == Pooled(j, step, c + ci)
    requires Partial(j, ofmap, step, progress)
    ensures Partial(j, Put(ofmap, at, v), step, progress[c := ci + j.cores])
  {
    OneOfStride(c, ci, j.cores);
  }

  // Writing for one step leaves what the step before it wrote.
  lemma OtherHalf(j: Job, ofmap: seq<real>, step: nat, i: nat, at: nat, v: real)
    requires step + 1 < |j.tiles| && |ofmap| == 2 * j.chans && i < j.chans && Complete(j, ofmap, step)
    requires at == Half(Buf(step + 1), j.chans) + i
    ensures Complete(j, Put(ofmap, at, v), step)
  {
  }

  lemma WriteGrows(j: Job, ofmap: seq<real>, e: nat, progress: seq<nat>, c: nat, ci: nat, at: nat, v: real,
                   ofmap': seq<real>, progress': seq<nat>)
    requires j.Valid() && 1 <= e <= j.steps && |progress| == j.cores
    requires c < j.cores && progress[c] == ci && ci % j.cores == 0 && ci + j.cores <= j.chans
    requires at == Half(Buf(e - 1), j.chans) + c + ci && v == Pooled(j, e - 1, c + ci)
    requires ofmap' == Put(ofmap, at, v) && progress' == progress[c := ci + j.cores]
    requires Output(j, ofmap, progress, e)
    ensures Output(j, ofmap', progress', e)
  {
    PartialGrows(j, ofmap, e - 1, progress, c, ci, at, v);
    if e >= 2 {
      OtherHalf(j, ofmap, e - 2, c + ci, at, v);
    }
  }

  lemma OutputGrows(j: Job, ofmap: seq<real>, cores: seq<Core>, e: nat, c: nat, progress: seq<nat>)
    requires j.Valid() && 1 <= e <= j.steps && |progress| == |cores| == j.cores && Output(j, ofmap, progress, e)
    requires c < j.cores && cores[c].pc.Compare? && progress[c] == cores[c].pc.ci
    requires cores[c].pc.ci % j.cores == 0 && cores[c].pc.ci + j.cores <= j.chans
    ensures Output(j, OutputAfter(j, ofmap, cores, e, c), progress[c := cores[c].pc.ci + j.cores], e)
  {
    var ci := cores[c].pc.ci;
    WriteGrows(j, ofmap, e, progress, c, ci, Half(Buf(e - 1), j.chans) + c + ci, Pooled(j, e - 1, c + ci),
               OutputAfter(j, ofmap, cores, e, c), progress[c := ci + j.cores]);
  }

  lemma WriteOutput(j: Job, ofmap: seq<real>, cores: seq<Core>, e: nat, c: nat)
    requires j.Valid() && AboutToWrite(j, cores, e, c) && 1 <= e <= j.steps && Output(j, ofmap, AllProgress(j, cores, e), e)
    ensures Output(j, OutputAfter(j, ofmap, cores, e, c), AllProgress(j, CoresAfter(j, cores, c), e), e)
  {
    ProgressAfter(j, cores, e, c);
    OutputGrows(j, ofmap, cores, e, c, AllProgress(j, cores, e));
  }

  lemma WriteInv(j: Job, s: State, c: nat)
    requires j.Valid() && Inv(j, s) && c < j.cores && s.cores[c].pc.Compare? && s.cores[c].pc.p == j.window
    requires s.cores[c].pc.ci + j.cores <= j.chans
    ensures Inv(j, CoreStep(j, s, c))
  {
    WriteStep(j, s, c);
    WriteControl(j, s.cores, s.epoch, c);
    WriteOutput(j, s.ofmap, s.cores, s.epoch, c);
    CoresMoved(j, s, OutputAfter(j, s.ofmap, s.cores, s.epoch, c), CoresAfter(j, s.cores, c));
  }

  lemma ComputeInv(j: Job, s: State, c: nat)
    requires j.Valid() && Inv(j, s) && Enabled(j, s, Compute(c))
    ensures Inv(j, Do(j, s, Compute(c)))
  {
    var k := s.cores[c];
    assert CoreControl(j, k, s.epoch);
    StrideFits(k.pc.ci, j.chans, j.cores);
    match k.pc
    case First(ci) => FirstInv(j, s, c);
    case Compare(ci, p, max) =>
      if p < j.window { CompareInv(j, s, c); } else { WriteInv(j, s, c); }
  }

  lemma DoInv(j: Job, s: State, a: Action)
    requires j.Valid() && Inv(j, s) && Enabled(j, s, a)
    ensures Inv(j, Do(j, s, a))
  {
    match a
    case StartRow => StartRowInv(j, s);
    case LoadsDone => LoadsDoneInv(j, s);
    case Move(i) => MoveInv(j, s, i);
    case StartStore => StartStoreInv(j, s);
    case StoreDone => StoreDoneInv(j, s);
    case Compute(c) => ComputeInv(j, s, c);
    case Barrier => BarrierInv(j, s);
  }

  lemma NextInv(j: Job, s: State, s': State)
    requires j.Valid() && Inv(j, s) && Next(j, s, s')
    ensures Inv(j, s')
  {
    var a :| Takes(j, s, a, s');
    DoInv(j, s, a);
  }

  lemma {:induction false} RunInvariant(j: Job, run: seq<State>, n: nat)
    requires j.Valid() && IsRun(j, run) && n < |run|
    ensures Inv(j, run[n])
  {
    if n == 0 {
      InitInv(j, run[0]);
    } else {
      RunInvariant(j, run, n - 1);
      NextInv(j, run[n - 1], run[n]);
    }
  }

  // ---------------------------------------------------------------- what follows for every run

  predicate Finished(s: State) {
    s.dm.pc.DmDone? && forall c :: 0 <= c < |s.cores| ==> s.cores[c].pc.CoreDone?
  }

  /** When the layer is finished, every channel of every tile has its pooled value in the output. */
  lemma FinishedMeansPooled(j: Job, run: seq<State>, n: nat, t: nat, k: nat)
    requires j.Valid() && IsRun(j, run) && n < |run| && run[n].dm.pc.DmDone?
    requires t < j.steps && k < j.chans
    ensures Element(run[n].out, t * j.chans + k) == Pooled(j, t, k)
  {
    RunInvariant(j, run, n);
    assert StepStored(j, run[n].out, t, {});
  }

  lemma SomeAction(j: Job, s: State) returns (a: Action)
    requires j.Valid() && DmControl(j, s.dm, s.epoch) && CoresControl(j, s.cores, s.epoch) && !Finished(s)
    ensures Enabled(j, s, a)
  {
    var d := s.dm;
    if d.pc.Loading? && d.pc.h < j.rows {
      a := StartRow;
    } else if d.pc.Released? || d.pc.LastReleased? {
      a := StartStore;
    } else if d.pc.Loading? || d.pc.Storing? || d.pc.LastStoring? {
      if d.pending == {} {
        a := if d.pc.Loading? then LoadsDone else StoreDone;
      } else {
        var i :| i in d.pending;
        a := Move(i);
      }
    } else if c :| 0 <= c < |s.cores| && (s.cores[c].pc.First? || s.cores[c].pc.Compare?) {
      a := Compute(c);
    } else {
      assert forall c :: 0 <= c < j.cores ==> CoreControl(j, s.cores[c], s.epoch);
      a := Barrier;
    }
  }

  /** Unless it is finished, the layer can always go on. */
  lemma NotStuck(j: Job, run: seq<State>, n: nat)
    requires j.Valid() && IsRun(j, run) && n < |run| && !Finished(run[n])
    ensures exists s' :: Next(j, run[n], s')
  {
    RunInvariant(j, run, n);
    var a := SomeAction(j, run[n]);
    assert Takes(j, run[n], a, Do(j, run[n], a));
    assert Next(j, run[n], Do(j, run[n], a));
  }

  // The input element compute core c reads next, and the output element it is working on.
  function InputAddress(j: Job, k: Core, c: nat): nat {
    match k.pc
    case First(ci) => Half(k.readBuf, j.size) + c + ci
    case Compare(ci, p, _) => Half(k.readBuf, j.size) + c + ci + p * j.chans
    case _ => 0
  }

  function OutputAddress(j: Job, k: Core, c: nat): nat {
    match k.pc
    case First(ci) => Half(k.writeBuf, j.chans) + c + ci
    case Compare(ci, _, _) => Half(k.writeBuf, j.chans) + c + ci
    case _ => 0
  }

  predicate Reading(j: Job, k: Core) { k.pc.First? || (k.pc.Compare? && k.pc.p < j.window) }

  // Where the DMA engine writes an element it loads, and reads an element it stores.
  function LoadAddress(j: Job, d: Dm, i: nat): nat { Half(d.writeBuf, j.size) + i }
  function StoreAddress(j: Job, d: Dm, i: nat): nat { Half(!d.readBuf, j.chans) + i }

  lemma LoadAndRead(j: Job, d: Dm, k: Core, e: nat, i: nat, c: nat)
    requires j.Valid() && DmControl(j, d, e) && CoreControl(j, k, e) && c < j.cores
    requires d.pc.Loading? && i in d.pending && Reading(j, k)
    ensures LoadAddress(j, d, i) < 2 * j.size && InputAddress(j, k, c) < 2 * j.size
    ensures LoadAddress(j, d, i) != InputAddress(j, k, c)
  {
    Arith.MulMono(j.row, d.pc.h, j.rows);
    StrideFits(k.pc.ci, j.chans, j.cores);
    if k.pc.Compare? { InTile(k.pc.p, c + k.pc.ci, j.window, j.chans); }
  }

  /** A load in flight and the input a core is reading are in different halves of the buffer. */
  lemma LoadsAreDisjoint(j: Job, run: seq<State>, n: nat, i: nat, c: nat)
    requires j.Valid() && IsRun(j, run) && n < |run| && c < |run[n].cores|
    requires run[n].dm.pc.Loading? && i in run[n].dm.pending && Reading(j, run[n].cores[c])
    ensures LoadAddress(j, run[n].dm, i) < 2 * j.size && InputAddress(j, run[n].cores[c], c) < 2 * j.size
    ensures LoadAddress(j, run[n].dm, i) != InputAddress(j, run[n].cores[c], c)
  {
    RunInvariant(j, run, n);
    LoadAndRead(j, run[n].dm, run[n].cores[c], run[n].epoch, i, c);
  }

  lemma StoreAndWrite(j: Job, d: Dm, k: Core, e: nat, i: nat, c: nat)
    requires j.Valid() && DmControl(j, d, e) && CoreControl(j, k, e) && c < j.cores
    requires (d.pc.Storing? || d.pc.LastStoring?) && i in d.pending && (k.pc.First? || k.pc.Compare?)
    ensures StoreAddress(j, d, i) < 2 * j.chans && OutputAddress(j, k, c) < 2 * j.chans
    ensures StoreAddress(j, d, i) != OutputAddress(j, k, c)
  {
    StrideFits(k.pc.ci, j.chans, j.cores);
  }

  /** A store in flight and the output a core is working on are in different halves of the buffer. */
  lemma StoresAreDisjoint(j: Job, run: seq<State>, n: nat, i: nat, c: nat)
    requires j.Valid() && IsRun(j, run) && n < |run| && c < |run[n].cores|
    requires (run[n].dm.pc.Storing? || run[n].dm.pc.LastStoring?) && i in run[n].dm.pending
    requires run[n].cores[c].pc.First? || run[n].cores[c].pc.Compare?
    ensures StoreAddress(j, run[n].dm, i) < 2 * j.chans && OutputAddress(j, run[n].cores[c], c) < 2 * j.chans
    ensures StoreAddress(j, run[n].dm, i) != OutputAddress(j, run[n].cores[c], c)
  {
    RunInvariant(j, run, n);
    StoreAndWrite(j, run[n].dm, run[n].cores[c], run[n].epoch, i, c);
  }

  lemma TwoCores(j: Job, kb: Core, kc: Core, e: nat, b: nat, c: nat)
    requires j.Valid() && CoreControl(j, kb, e) && CoreControl(j, kc, e) && b < c < j.cores
    requires (kb.pc.First? || kb.pc.Compare?) && (kc.pc.First? || kc.pc.Compare?)
    ensures OutputAddress(j, kb, b) != OutputAddress(j, kc, c)
  {
    ResidueOf(b, kb.pc.ci, j.cores);
    ResidueOf(c, kc.pc.ci, j.cores);
  }

  /** Two compute cores never work on the same output element. */
  lemma CoresAreDisjoint(j: Job, run: seq<State>, n: nat, b: nat, c: nat)
    requires j.Valid() && IsRun(j, run) && n < |run| && b < c < |run[n].cores|
    requires Reading(j, run[n].cores[b]) || run[n].cores[b].pc.Compare?
    requires Reading(j, run[n].cores[c]) || run[n].cores[c].pc.Compare?
    ensures OutputAddress(j, run[n].cores[b], b) != OutputAddress(j, run[n].cores[c], c)
  {
    RunInvariant(j, run, n);
    TwoCores(j, run[n].cores[b], run[n].cores[c], run[n].epoch, b, c);
  }
}
