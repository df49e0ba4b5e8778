// The calls of the data mover's client end: between two answers of the DMA that it is not ready, the two cores can only
// take a bounded number of steps, and when they can take none the call has returned or is one of the two that never do.
module DataMoverEnds {
  import opened DataMover

  // ---------------------------------------------------------------- the work left

  // Accesses left to the call the client is in.
  function CallLeft(c: Client): (n: nat)
    ensures n <= 13
  {
    match c.pc
    case Idle => 0
    case Poll => 5 + Fields(c.want)
    case Lock => 4 + Fields(c.want)
    case Fill(k) => 3 + if k < Fields(c.want) then Fields(c.want) - k else 0
    case IncFill => 3
    case BumpFront => 2
    case Unlock => 1
    case WakeSpin(next) => (match next case Return => 2 case Drain => 11 case Answer => 4)
    case WakeSet(next) => (match next case Return => 1 case Drain => 10 case Answer => 3)
    case AwaitEmpty => 9
    case AwaitStat => 8
    case LockStat => 7
    case ClearValid => 6
    case PutRequest => 5
    case AwaitValid => 2
    case UnlockStat => 1
  }

  // The DM core has a transfer to start: it goes round to DecFill.
  function ToDecFill(dm: DmPc): nat {
    match dm
    case TestStat => 17
    case Switch => 16
    case PollBusy => 15
    case SetValid => 14
    case ClearStat => 13
    case SleepFill => 12
    case SleepStat => 11
    case IncWfi => 10
    case Wfi => 9
    case ClearIrq => 8
    case DecWfi => 7
    case TestFill => 6
    case PollBlock => 5
    case ReadKind => 4
    case StartTransfer => 3
    case BumpBack => 2
    case DecFill => 1
  }

  // It has a request to answer: it goes round to ClearStat.
  function ToClearStat(dm: DmPc): nat {
    match dm
    case SleepFill => 12
    case SleepStat => 11
    case IncWfi => 10
    case Wfi => 9
    case ClearIrq => 8
    case DecWfi => 7
    case TestFill => 6
    case TestStat => 5
    case Switch => 4
    case PollBusy => 3
    case SetValid => 2
    case _ => 1
  }

  // It has nothing to do: it goes to sleep, or clears an interrupt that has woken it.
  function ToClearIrq(dm: DmPc): nat {
    match dm
    case DecWfi => 8
    case TestFill => 7
    case TestStat => 6
    case SleepFill => 5
    case SleepStat => 4
    case IncWfi => 3
    case Wfi => 2
    case _ => 1
  }

  function LapLeft(dm: DmPc, fill: int, statQ: Request): (n: nat)
    ensures n <= 17
  {
    if fill != 0 then ToDecFill(dm) else if statQ != None then ToClearStat(dm) else ToClearIrq(dm)
  }

  // Transfers, a request and an interrupt still to be taken care of, each worth more than a lap of the DM core.
  function Pending(s: State): int { s.ring.fill + Lag(s.stat.statQ != None) + Lag(s.irq.pending) }

  function Work(s: State): int { 60 * CallLeft(s.client) + 20 * Pending(s) + LapLeft(s.dm, s.ring.fill, s.stat.statQ) }

  lemma WorkIsBounded(s: State)
    requires Inv(s)
    ensures 0 <= Work(s) <= 917
  {
  }

  // ---------------------------------------------------------------- every step uses some up

  // The DMA answers that it would block, or that it is busy.
  predicate Unready(s: State, s': State) {
    s'.client == s.client && ((s.dm.PollBlock? && s'.dm.PollBlock?) || (s.dm.PollBusy? && s'.dm.SleepFill?))
  }

  predicate Begins(s: State, s': State) { s.client.pc.Idle? && !s'.client.pc.Idle? }

  // The accesses that take care of something.
  predicate TakesCare(dm: DmPc) { dm.DecFill? || dm.ClearStat? || dm.ClearIrq? }

  lemma OneLessPending(s: State, poll: bool)
    requires Inv(s) && DmCanStep(s)
    ensures Pending(DmStep(s, poll)) == Pending(s) - Lag(TakesCare(s.dm))
  {
  }

  lemma LapShortens(s: State, poll: bool)
    requires Inv(s) && DmCanStep(s) && !TakesCare(s.dm)
    ensures var s' := DmStep(s, poll);
            LapLeft(s'.dm, s'.ring.fill, s'.stat.statQ) <= LapLeft(s.dm, s.ring.fill, s.stat.statQ) + if Unready(s, s') then 9 else -1
  {
  }

  lemma DmUses(s: State, poll: bool)
    requires Inv(s) && DmCanStep(s)
    ensures Work(DmStep(s, poll)) <= Work(s) + if Unready(s, DmStep(s, poll)) then 9 else -1
  {
    OneLessPending(s, poll);
    if !TakesCare(s.dm) { LapShortens(s, poll); }
  }

  lemma CallShortens(c: Client, op: Op)
    requires !c.pc.Idle? && (c.pc.Fill? ==> c.pc.k < Fields(c.want))
    ensures CallLeft(ClientGoes(c, op)) < CallLeft(c)
  {
  }

  lemma OneMorePending(s: State, op: Op)
    requires Inv(s) && ClientCanStep(s)
    ensures Pending(ClientStep(s, op)) <= Pending(s) + 1
  {
  }

  lemma ClientUses(s: State, op: Op)
    requires Inv(s) && ClientCanStep(s) && !s.client.pc.Idle?
    ensures Work(ClientStep(s, op)) <= Work(s) - 1
  {
    CallShortens(s.client, op);
    OneMorePending(s, op);
  }

  lemma NextUses(s: State, s': State)
    requires Inv(s) && Next(s, s') && !Begins(s, s')
    ensures Work(s') <= Work(s) + if Unready(s, s') then 9 else -1
  {
    if DmCanStep(s) && exists poll: bool :: s' == DmStep(s, poll) {
      var poll: bool :| s' == DmStep(s, poll);
      DmUses(s, poll);
    } else {
      var op :| s' == ClientStep(s, op);
      ClientUses(s, op);
    }
  }

  // ---------------------------------------------------------------- calls end

  /** How often the DMA is not ready between states i and j. */
  function Waits(run: seq<State>, i: nat, j: nat): (n: nat)
    requires i <= j < |run|
    ensures n <= j - i
    decreases j - i
  {
    if i == j then 0 else Waits(run, i, j - 1) + if Unready(run[j - 1], run[j]) then 1 else 0
  }

  /** The client begins no call between states i and j. */
  ghost predicate BeginsNone(run: seq<State>, i: nat, j: nat)
    requires i <= j < |run|
  {
    forall k: nat :: i <= k < j ==> !Begins(run[k], run[k + 1])
  }

  lemma StepUses(run: seq<State>, k: nat)
    requires IsRun(run) && k + 1 < |run| && !Begins(run[k], run[k + 1])
    ensures Work(run[k + 1]) <= Work(run[k]) + if Unready(run[k], run[k + 1]) then 9 else -1
  {
    RunInvariant(run, k);
    NextUses(run[k], run[k + 1]);
  }

  lemma OneMoreStep(run: seq<State>, i: nat, k: nat)
    requires i <= k && k + 1 < |run|
    ensures Waits(run, i, k + 1) == Waits(run, i, k) + if Unready(run[k], run[k + 1]) then 1 else 0
    ensures BeginsNone(run, i, k + 1) ==> BeginsNone(run, i, k) && !Begins(run[k], run[k + 1])
  {
  }

  lemma {:induction false} WorkIsUsed(run: seq<State>, i: nat, j: nat)
    requires IsRun(run) && i <= j < |run| && BeginsNone(run, i, j)
    ensures Work(run[j]) + (j - i) <= Work(run[i]) + 10 * Waits(run, i, j)
    decreases j
  {
    if i == j {
    } else {
      var k := j - 1;
      OneMoreStep(run, i, k);
      WorkIsUsed(run, i, k);
      StepUses(run, k);
    }
  }

  /**
   * From any reachable state, until the client begins another call, both cores together take at most 917 steps and ten
   * for every answer of the DMA that it is not ready.
   */
  lemma StepsAreBounded(run: seq<State>, i: nat, j: nat)
    requires IsRun(run) && i <= j < |run| && BeginsNone(run, i, j)
    ensures j - i <= 917 + 10 * Waits(run, i, j)
  {
    RunInvariant(run, i);
    RunInvariant(run, j);
    WorkIsBounded(run[i]);
    WorkIsBounded(run[j]);
    WorkIsUsed(run, i, j);
  }

  // Nothing more happens unless the client begins a call.
  predicate Settled(s: State) { !DmCanStep(s) && (s.client.pc.Idle? || !ClientCanStep(s)) }

  predicate InWait(c: Client) { (Draining(c.pc) || Drained(c.pc)) && c.request == WaitIdle }
}
