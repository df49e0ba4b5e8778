// The data mover against the calls of its client: the transfers started are the copies asked for, and what holds once
// dm_start, dm_wait and dm_wait_ready have returned.
module DataMoverCalls {
  import opened DataMover
  import opened DataMoverEnds

  /** Who takes a step: the DM core, with what the DMA answers, or the client, with the call it makes if it is idle. */
  datatype Label = ByDm(poll: bool) | ByClient(op: Op)

  ghost predicate StepBy(s: State, l: Label, s': State) {
    RingShape(s.ring) &&
    match l
    case ByDm(poll) => DmCanStep(s) && s' == DmStep(s, poll)
    case ByClient(op) => ClientCanStep(s) && s' == ClientStep(s, op)
  }

  ghost predicate StepAt(run: seq<State>, labels: seq<Label>, k: nat)
    requires k < |labels| < |run|
  {
    StepBy(run[k], labels[k], run[k + 1])
  }

  ghost predicate IsLabelled(run: seq<State>, labels: seq<Label>) {
    |run| == |labels| + 1 && Init(run[0]) && forall k: nat :: k < |labels| ==> StepAt(run, labels, k)
  }

  lemma LabelledIsRun(run: seq<State>, labels: seq<Label>)
    requires IsLabelled(run, labels)
    ensures IsRun(run)
  {
    forall k | 0 <= k < |run| - 1 ensures Next(run[k], run[k + 1]) {
      assert StepAt(run, labels, k);
    }
  }

  lemma LabelledInv(run: seq<State>, labels: seq<Label>, k: nat)
    requires IsLabelled(run, labels) && k <= |labels|
    ensures Inv(run[k])
  {
    LabelledIsRun(run, labels);
    RunInvariant(run, k);
  }

  predicate Asks(s: State, l: Label) { s.client.pc.Idle? && l.ByClient? }

  /** The calls the client has made in the first k steps. */
  function Calls(run: seq<State>, labels: seq<Label>, k: nat): seq<Op>
    requires k <= |labels| < |run|
  {
    if k == 0 then [] else Calls(run, labels, k - 1) + if Asks(run[k - 1], labels[k - 1]) then [labels[k - 1].op] else []
  }

  /** The transfers its copies ask for. */
  function Copies(ops: seq<Op>): seq<Transfer> {
    if ops == [] then
      []
    else
      Copies(ops[..|ops| - 1]) + if ops[|ops| - 1].Memcpy? then [Asked(ops[|ops| - 1].copy)] else []
  }

  lemma CopiesNext(ops: seq<Op>, op: Op)
    ensures Copies(ops + [op]) == Copies(ops) + if op.Memcpy? then [Asked(op.copy)] else []
  {
    assert (ops + [op])[..|ops|] == ops;
  }

  // ---------------------------------------------------------------- a FIFO of the calls

  /** The copy that is being written into the ring. */
  function InHand(c: Client): seq<Transfer> {
    if c.pc.Poll? || Inserting(c.pc) then [Asked(c.want)] else []
  }

  // The copy a step asks for.
  function CopyAt(s: State, l: Label): seq<Transfer> { if Asks(s, l) && l.op.Memcpy? then [Asked(l.op.copy)] else [] }

  lemma CopiesStep(run: seq<State>, labels: seq<Label>, k: nat)
    requires k < |labels| < |run|
    ensures Copies(Calls(run, labels, k + 1)) == Copies(Calls(run, labels, k)) + CopyAt(run[k], labels[k])
  {
    if Asks(run[k], labels[k]) {
      CopiesNext(Calls(run, labels, k), labels[k].op);
    } else {
      assert Calls(run, labels, k + 1) == Calls(run, labels, k);
    }
  }

  lemma StepQueues(run: seq<State>, labels: seq<Label>, k: nat)
    requires IsLabelled(run, labels) && k < |labels|
    ensures run[k + 1].ring.queued + InHand(run[k + 1].client) == run[k].ring.queued + InHand(run[k].client) + CopyAt(run[k], labels[k])
  {
    assert StepAt(run, labels, k);
    if run[k].client.pc.IncFill? {
      assert run[k].ring.queued + [Asked(run[k].client.want)] + [] == run[k].ring.queued + [Asked(run[k].client.want)];
    }
  }

  ghost predicate QueuedIsCopied(run: seq<State>, labels: seq<Label>, k: nat)
    requires k <= |labels| < |run|
  {
    Copies(Calls(run, labels, k)) == run[k].ring.queued + InHand(run[k].client)
  }

  lemma StillCopied(run: seq<State>, labels: seq<Label>, k: nat)
    requires IsLabelled(run, labels) && k < |labels| && QueuedIsCopied(run, labels, k)
    ensures QueuedIsCopied(run, labels, k + 1)
  {
    StepQueues(run, labels, k);
    CopiesStep(run, labels, k);
  }

  lemma {:induction false} QueuedAreCopies(run: seq<State>, labels: seq<Label>, k: nat)
    requires IsLabelled(run, labels) && k <= |labels|
    ensures QueuedIsCopied(run, labels, k)
  {
    if k == 0 {
    } else {
      QueuedAreCopies(run, labels, k - 1);
      StillCopied(run, labels, k - 1);
    }
  }

  /**
   * The data mover is a FIFO of the client's copies, of both kinds: those asked for so far are those started, in order
   * and each once, followed by those the ring still holds and by the one being written, if there is one.
   */
  lemma CopiesInOrder(run: seq<State>, labels: seq<Label>, k: nat)
    requires IsLabelled(run, labels) && k <= |labels|
    ensures |run[k].ring.queue| == SIZE && |run[k].ring.started| <= |run[k].ring.queued|
    ensures var r := run[k].ring;
            Copies(Calls(run, labels, k)) == r.started + Contents(r.queue, |r.started|, |r.queued| - |r.started|) + InHand(run[k].client)
  {
    LabelledIsRun(run, labels);
    RingIsFifo(run, k);
    QueuedAreCopies(run, labels, k);
  }

  // ---------------------------------------------------------------- transfers wait for the DMA

  // The DMA says in step m that it would not block, and nothing has been started since.
  ghost predicate ReportsFree(run: seq<State>, labels: seq<Label>, m: nat, k: nat)
    requires m < |labels| < |run| && k < |run|
  {
    run[m].dm.PollBlock? && labels[m] == ByDm(false) && run[m].ring.started == run[k].ring.started
  }

  lemma OnlyAfterPoll(s: State, l: Label, s': State)
    requires StepBy(s, l, s') && (s'.dm.ReadKind? || s'.dm.StartTransfer?)
    ensures s'.ring.started == s.ring.started
    ensures s.dm.ReadKind? || s.dm.StartTransfer? || (s.dm.PollBlock? && l == ByDm(false))
  {
  }

  /** A transfer is started only when the DMA has said, since the one before it was started, that it would not block. */
  lemma {:induction false} NeverBlocks(run: seq<State>, labels: seq<Label>, k: nat)
    requires IsLabelled(run, labels) && k <= |labels| && (run[k].dm.ReadKind? || run[k].dm.StartTransfer?)
    ensures exists m: nat :: m < k && ReportsFree(run, labels, m, k)
  {
    if k == 0 {
    } else {
      assert StepAt(run, labels, k - 1);
      OnlyAfterPoll(run[k - 1], labels[k - 1], run[k]);
      if run[k - 1].dm.PollBlock? {
        assert ReportsFree(run, labels, k - 1, k);
      } else {
        NeverBlocks(run, labels, k - 1);
        var m: nat :| m < k - 1 && ReportsFree(run, labels, m, k - 1);
        assert ReportsFree(run, labels, m, k);
      }
    }
  }

  // ---------------------------------------------------------------- which call the client is in

  predicate InCall(c: Client, op: Op) {
    match op
    case Memcpy(copy) => (c.pc.Poll? || Inserting(c.pc) || c.pc.BumpFront? || c.pc.Unlock?) && c.want == copy
    case Start => c.pc == WakeSpin(Return) || c.pc == WakeSet(Return)
    case Wait => InWait(c)
    case WaitReady => (Preparing(c.pc) || Asking(c.pc) || c.pc.UnlockStat?) && c.request == Ready
  }

  lemma CallBegins(c: Client, op: Op)
    requires c.pc.Idle?
    ensures InCall(ClientGoes(c, op), op)
  {
  }

  lemma CallGoesOn(c: Client, op: Op, next: Op)
    requires InCall(c, op)
    ensures InCall(ClientGoes(c, next), op) || ClientGoes(c, next).pc.Idle?
  {
  }

  /** The call made in step i has not returned by state k. */
  ghost predicate Within(run: seq<State>, labels: seq<Label>, i: nat, k: nat) {
    i < k <= |labels| < |run| && Asks(run[i], labels[i]) && forall m :: i < m <= k ==> !run[m].client.pc.Idle?
  }

  /** It returns in state j. */
  ghost predicate Returns(run: seq<State>, labels: seq<Label>, i: nat, j: nat) {
    && i + 1 < j <= |labels| < |run| && Within(run, labels, i, j - 1) && run[j].client.pc.Idle?
  }

  lemma StepInCall(run: seq<State>, labels: seq<Label>, k: nat, op: Op)
    requires IsLabelled(run, labels) && k < |labels|
    ensures Asks(run[k], labels[k]) ==> InCall(run[k + 1].client, labels[k].op)
    ensures InCall(run[k].client, op) ==> InCall(run[k + 1].client, op) || run[k + 1].client.pc.Idle?
  {
    assert StepAt(run, labels, k);
    if labels[k].ByClient? {
      if Asks(run[k], labels[k]) { CallBegins(run[k].client, labels[k].op); }
      if InCall(run[k].client, op) { CallGoesOn(run[k].client, op, labels[k].op); }
    }
  }

  /** Until a call returns, the client is in it and in no other. */
  lemma {:induction false} CallIs(run: seq<State>, labels: seq<Label>, i: nat, k: nat)
    requires IsLabelled(run, labels) && Within(run, labels, i, k)
    ensures InCall(run[k].client, labels[i].op)
    decreases k
  {
    if k == i + 1 {
      StepInCall(run, labels, i, labels[i].op);
    } else {
      CallIs(run, labels, i, k - 1);
      StepInCall(run, labels, k - 1, labels[i].op);
    }
  }

  // ---------------------------------------------------------------- dm_start

  // The DM core is not on its way to sleep, or an interrupt will stop it.
  predicate Awake(s: State) { !GoingToSleep(s.irq, s.dm) && (s.dm.SleepStat? ==> s.irq.pending) }

  // Transfers are left in the ring that had been queued when there were n.
  predicate Behind(s: State, n: nat) { |s.ring.started| < n <= |s.ring.queued| }

  lemma DmStaysAwake(s: State, poll: bool, n: nat)
    requires Inv(s) && DmCanStep(s) && Awake(s) && Behind(s, n)
    ensures Awake(DmStep(s, poll)) && n <= |DmStep(s, poll).ring.queued|
  {
  }

  lemma ClientKeepsAwake(s: State, op: Op, n: nat)
    requires Inv(s) && ClientCanStep(s) && Awake(s) && Behind(s, n)
    ensures Awake(ClientStep(s, op)) && n <= |ClientStep(s, op).ring.queued|
  {
  }

  // Steps of the DM core before it starts the next transfer, were each of them to get on; a transfer is worth 20.
  function LapToStart(dm: DmPc): nat {
    match dm
    case BumpBack => 19
    case DecFill => 18
    case _ => ToDecFill(dm)
  }

  function LeftToStart(s: State, n: nat): nat { (if |s.ring.started| < n then 20 * (n - |s.ring.started|) else 0) + LapToStart(s.dm) }

  // The DMA answers that it would block.
  predicate Blocks(s: State, l: Label) { s.dm.PollBlock? && l == ByDm(true) }

  /** The steps of the DM core from state j to state k, but for those in which the DMA would block. */
  function DmSteps(run: seq<State>, labels: seq<Label>, j: nat, k: nat): (n: nat)
    requires j <= k <= |labels| < |run|
    ensures n <= k - j
    decreases k
  {
    if j == k then 0
    else DmSteps(run, labels, j, k - 1) + if labels[k - 1].ByDm? && !Blocks(run[k - 1], labels[k - 1]) then 1 else 0
  }

  lemma DmGetsOn(s: State, poll: bool, n: nat)
    requires Inv(s) && DmCanStep(s) && Behind(s, n)
    ensures LeftToStart(DmStep(s, poll), n) + (if Blocks(s, ByDm(poll)) then 0 else 1) <= LeftToStart(s, n)
  {
  }

  lemma StepGetsOn(run: seq<State>, labels: seq<Label>, k: nat, n: nat)
    requires IsLabelled(run, labels) && k < |labels| && Behind(run[k], n) && Awake(run[k])
    ensures Awake(run[k + 1]) && n <= |run[k + 1].ring.queued| && |run[k].ring.started| <= |run[k + 1].ring.started|
    ensures LeftToStart(run[k + 1], n) + (if labels[k].ByDm? && !Blocks(run[k], labels[k]) then 1 else 0) <= LeftToStart(run[k], n)
  {
    assert StepAt(run, labels, k);
    LabelledInv(run, labels, k);
    match labels[k]
    case ByDm(poll) =>
      DmStaysAwake(run[k], poll, n);
      DmGetsOn(run[k], poll, n);
    case ByClient(op) => ClientKeepsAwake(run[k], op, n);
  }

  lemma StartedGrows(run: seq<State>, labels: seq<Label>, k: nat)
    requires IsLabelled(run, labels) && k < |labels|
    ensures run[k].ring.started <= run[k + 1].ring.started && run[k].ring.queued <= run[k + 1].ring.queued
  {
    assert StepAt(run, labels, k);
  }

  lemma {:induction false} GetsOn(run: seq<State>, labels: seq<Label>, j: nat, k: nat, n: nat)
    requires IsLabelled(run, labels) && j <= k <= |labels| && Awake(run[j]) && n <= |run[j].ring.queued|
    ensures n <= |run[k].ring.queued|
    ensures n <= |run[k].ring.started| || (Awake(run[k]) && DmSteps(run, labels, j, k) + LeftToStart(run[k], n) <= LeftToStart(run[j], n))
    decreases k
  {
    if j == k {
    } else {
      GetsOn(run, labels, j, k - 1, n);
      StartedGrows(run, labels, k - 1);
      if |run[k - 1].ring.started| < n { StepGetsOn(run, labels, k - 1, n); }
    }
  }

  // The last step of dm_start sets the interrupt.
  lemma StartWakes(run: seq<State>, labels: seq<Label>, i: nat, j: nat)
    requires IsLabelled(run, labels) && Returns(run, labels, i, j) && labels[i].op.Start?
    ensures Awake(run[j])
  {
    CallIs(run, labels, i, j - 1);
    assert StepAt(run, labels, j - 1);
  }

  lemma IdleMeansQueued(run: seq<State>, labels: seq<Label>, i: nat)
    requires IsLabelled(run, labels) && i <= |labels| && run[i].client.pc.Idle?
    ensures Copies(Calls(run, labels, i)) == run[i].ring.queued
  {
    QueuedAreCopies(run, labels, i);
  }

  lemma {:induction false} QueueGrows(run: seq<State>, labels: seq<Label>, i: nat, k: nat)
    requires IsLabelled(run, labels) && i <= k <= |labels|
    ensures run[i].ring.queued <= run[k].ring.queued
    decreases k
  {
    if i == k {
    } else {
      QueueGrows(run, labels, i, k - 1);
      StartedGrows(run, labels, k - 1);
    }
  }

  /**
   * Once dm_start has returned, whatever the client does then, every copy asked for before it has been started, or the
   * DM core can go on and has taken less than a hundred steps since, not counting those in which the DMA would block.
   */
  lemma StartIsHonoured(run: seq<State>, labels: seq<Label>, i: nat, j: nat, k: nat)
    requires IsLabelled(run, labels) && Returns(run, labels, i, j) && labels[i].op.Start? && j <= k <= |labels|
    ensures Copies(Calls(run, labels, i)) <= run[k].ring.started || (DmCanStep(run[k]) && DmSteps(run, labels, j, k) < 100)
  {
    var n := |run[i].ring.queued|;
    StartWakes(run, labels, i, j);
    IdleMeansQueued(run, labels, i);
    QueueGrows(run, labels, i, j);
    QueueGrows(run, labels, i, k);
    GetsOn(run, labels, j, k, n);
    LabelledInv(run, labels, j);
    LabelledInv(run, labels, k);
  }

  // ---------------------------------------------------------------- dm_wait and dm_wait_ready

  // The DMA reports in step m that it is idle, and nothing has been started since.
  ghost predicate ReportsIdle(run: seq<State>, labels: seq<Label>, m: nat, k: nat)
    requires m < |labels| < |run| && k < |run|
  {
    run[m].dm.PollBusy? && labels[m] == ByDm(false) && run[m].ring.started == run[k].ring.started
  }

  predicate HasAnswer(s: State) { s.dm.SetValid? || ((Asking(s.client.pc) || s.client.pc.UnlockStat?) && s.stat.pvalid) }

  ghost predicate AnsweredSince(run: seq<State>, labels: seq<Label>, i: nat, k: nat)
    requires k <= |labels| < |run|
  {
    HasAnswer(run[k]) ==> exists m: nat :: i < m < k && ReportsIdle(run, labels, m, k)
  }

  // Within dm_wait, the answer there is was given in the step before or was there before it, and nothing is started meanwhile.
  lemma WaitStep(s: State, l: Label, s': State)
    requires Inv(s) && StepBy(s, l, s') && InWait(s.client) && InWait(s'.client) && HasAnswer(s')
    ensures s'.ring.started == s.ring.started
    ensures HasAnswer(s) || (s.dm.PollBusy? && l == ByDm(false))
  {
  }

  lemma {:induction false} WaitIsAnswered(run: seq<State>, labels: seq<Label>, i: nat, k: nat)
    requires IsLabelled(run, labels) && Within(run, labels, i, k) && labels[i].op.Wait?
    ensures AnsweredSince(run, labels, i, k)
    decreases k
  {
    CallIs(run, labels, i, k);
    if k == i + 1 {
      assert StepAt(run, labels, i);
      LabelledInv(run, labels, k);
    } else if HasAnswer(run[k]) {
      WaitIsAnswered(run, labels, i, k - 1);
      CallIs(run, labels, i, k - 1);
      LabelledInv(run, labels, k - 1);
      assert StepAt(run, labels, k - 1);
      WaitStep(run[k - 1], labels[k - 1], run[k]);
      if HasAnswer(run[k - 1]) {
        var m: nat :| i < m < k - 1 && ReportsIdle(run, labels, m, k - 1);
        assert ReportsIdle(run, labels, m, k);
      } else {
        assert ReportsIdle(run, labels, k - 1, k);
      }
    }
  }

  lemma WaitReturnsFrom(run: seq<State>, labels: seq<Label>, i: nat, j: nat)
    requires IsLabelled(run, labels) && Returns(run, labels, i, j) && !labels[i].op.Memcpy? && !labels[i].op.Start?
    ensures run[j - 1].client.pc.UnlockStat? && run[j - 1].stat.pvalid && run[j - 1].client.request == (if labels[i].op.Wait? then WaitIdle else Ready)
    ensures run[j].ring == run[j - 1].ring
  {
    CallIs(run, labels, i, j - 1);
    assert StepAt(run, labels, j - 1);
    LabelledInv(run, labels, j - 1);
  }

  // Within a call other than a copy, nothing is queued.
  lemma NothingQueued(run: seq<State>, labels: seq<Label>, i: nat, k: nat)
    requires IsLabelled(run, labels) && Within(run, labels, i, k) && !labels[i].op.Memcpy?
    ensures run[k].ring.queued == run[i].ring.queued
    decreases k
  {
    assert StepAt(run, labels, k - 1);
    if k == i + 1 {
    } else {
      NothingQueued(run, labels, i, k - 1);
      CallIs(run, labels, i, k - 1);
    }
  }

  lemma WaitStarted(run: seq<State>, labels: seq<Label>, i: nat, j: nat)
    requires IsLabelled(run, labels) && Returns(run, labels, i, j) && labels[i].op.Wait?
    ensures run[j].ring.started == Copies(Calls(run, labels, i))
  {
    WaitReturnsFrom(run, labels, i, j);
    LabelledIsRun(run, labels);
    WaitIsComplete(run, j - 1);
    NothingQueued(run, labels, i, j - 1);
    IdleMeansQueued(run, labels, i);
  }

  lemma WaitSawIdle(run: seq<State>, labels: seq<Label>, i: nat, j: nat) returns (m: nat)
    requires IsLabelled(run, labels) && Returns(run, labels, i, j) && labels[i].op.Wait?
    ensures i < m < j && ReportsIdle(run, labels, m, j)
  {
    WaitReturnsFrom(run, labels, i, j);
    WaitIsAnswered(run, labels, i, j - 1);
    m :| i < m < j - 1 && ReportsIdle(run, labels, m, j - 1);
  }

  /**
   * When dm_wait returns, exactly the copies asked for before it have been started, and the DMA has answered since the
   * last of them that it is idle.
   */
  lemma WaitIsOver(run: seq<State>, labels: seq<Label>, i: nat, j: nat)
    requires IsLabelled(run, labels) && Returns(run, labels, i, j) && labels[i].op.Wait?
    ensures run[j].ring.started == Copies(Calls(run, labels, i))
    ensures exists m: nat :: i < m < j && ReportsIdle(run, labels, m, j)
  {
    WaitStarted(run, labels, i, j);
    var m := WaitSawIdle(run, labels, i, j);
  }

  // ---------------------------------------------------------------- calls return

  /**
   * A call that has not returned can go on, or the DM core can, but for the two ways to get stuck: a copy finds the ring
   * full while nothing has told the DM core to start, and dm_wait_ready has lost its request.
   */
  lemma OnlyTwoGetStuck(run: seq<State>, labels: seq<Label>, i: nat, k: nat)
    requires IsLabelled(run, labels) && Within(run, labels, i, k) && Settled(run[k])
    ensures Asleep(run[k])
    ensures (labels[i].op.Memcpy? && PollsFull(run[k])) || (labels[i].op.WaitReady? && RequestLost(run[k]))
  {
    CallIs(run, labels, i, k);
    LabelledIsRun(run, labels);
    LabelledInv(run, labels, k);
    StuckExactlyWhen(run, k);
  }
}
