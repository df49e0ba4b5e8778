// The event unit against the program that runs on the master: which hart has run what after so many of its calls, and
// that every call ends.
module ForkJoin {
  import opened Arith
  import opened EventUnit

  /** Who takes a step. The operation is the next one of the program; it matters when the master is idle. */
  datatype Label = ByWorker(i: nat) | ByMaster(op: Op)

  ghost predicate StepBy(s: State, l: Label, s': State) {
    match l
    case ByWorker(i) => i < |s.workers| && CanStep(s.workers[i]) && s' == WorkerStep(s, i)
    case ByMaster(op) => MasterCanStep(s) && s' == MasterStep(s, op)
  }

  ghost predicate StepAt(run: seq<State>, labels: seq<Label>, k: nat)
    requires k < |labels| < |run|
  {
    StepBy(run[k], labels[k], run[k + 1])
  }

  ghost predicate IsLabelled(run: seq<State>, labels: seq<Label>) {
    |run| == |labels| + 1 && Init(run[0]) && forall k: nat :: k < |labels| ==> StepAt(run, labels, k)
  }

  predicate Asks(s: State, l: Label) { s.master.pc.Idle? && l.ByMaster? }

  /** The calls the program has made in the first k steps. */
  function Calls(run: seq<State>, labels: seq<Label>, k: nat): seq<Op>
    requires k <= |labels| < |run|
  {
    if k == 0 then [] else Calls(run, labels, k - 1) + if Asks(run[k - 1], labels[k - 1]) then [labels[k - 1].op] else []
  }

  /** The run is one of this program, as far as it has come. */
  ghost predicate Runs(program: seq<Op>, run: seq<State>, labels: seq<Label>) {
    IsLabelled(run, labels) && Calls(run, labels, |labels|) <= program
  }

  /** The regions among the calls. */
  function Regions(ops: seq<Op>): seq<Region> {
    if ops == [] then
      []
    else
      Regions(ops[..|ops| - 1]) + if ops[|ops| - 1].Fork? then [ops[|ops| - 1].region] else []
  }

  lemma RegionsNext(ops: seq<Op>, op: Op)
    ensures Regions(ops + [op]) == Regions(ops) + if op.Fork? then [op.region] else []
  {
    assert (ops + [op])[..|ops|] == ops;
  }

  lemma {:induction false} CallsGrow(run: seq<State>, labels: seq<Label>, j: nat, k: nat)
    requires j <= k <= |labels| < |run|
    ensures Calls(run, labels, j) <= Calls(run, labels, k)
    decreases k
  {
    if j == k {
    } else {
      CallsGrow(run, labels, j, k - 1);
    }
  }

  lemma LabelledIsRun(run: seq<State>, labels: seq<Label>)
    requires IsLabelled(run, labels)
    ensures IsRun(run)
  {
    forall k | 0 <= k < |run| - 1 ensures Next(run[k], run[k + 1]) {
      assert StepAt(run, labels, k);
    }
  }

  lemma LabelledInv(run: seq<State>, labels: seq<Label>, k: nat)
    requires IsLabelled(run, labels) && k <= |labels|
    ensures Inv(run[k])
  {
    LabelledIsRun(run, labels);
    RunInvariant(run, k);
  }

  // ---------------------------------------------------------------- the program's regions are those forked

  lemma MasterForks(s: State, op: Op)
    requires MasterCanStep(s)
    ensures MasterStep(s, op).forked == if s.master.pc.Idle? && op.Fork? then s.forked + [op.region] else s.forked
  {
  }

  lemma RegionsStep(run: seq<State>, labels: seq<Label>, k: nat)
    requires k < |labels| < |run|
    ensures Regions(Calls(run, labels, k + 1)) ==
      if Asks(run[k], labels[k]) && labels[k].op.Fork? then Regions(Calls(run, labels, k)) + [labels[k].op.region] else Regions(Calls(run, labels, k))
  {
    if Asks(run[k], labels[k]) {
      RegionsNext(Calls(run, labels, k), labels[k].op);
    } else {
      assert Calls(run, labels, k + 1) == Calls(run, labels, k);
    }
  }

  lemma StepForks(run: seq<State>, labels: seq<Label>, k: nat)
    requires IsLabelled(run, labels) && k < |labels|
    ensures run[k + 1].forked ==
      if Asks(run[k], labels[k]) && labels[k].op.Fork? then run[k].forked + [labels[k].op.region] else run[k].forked
  {
    assert StepAt(run, labels, k);
    if labels[k].ByMaster? { MasterForks(run[k], labels[k].op); }
  }

  ghost predicate ForkedIsCalled(run: seq<State>, labels: seq<Label>, k: nat)
    requires k <= |labels| < |run|
  {
    run[k].forked == Regions(Calls(run, labels, k))
  }

  lemma StillCalled(run: seq<State>, labels: seq<Label>, k: nat)
    requires IsLabelled(run, labels) && k < |labels| && ForkedIsCalled(run, labels, k)
    ensures ForkedIsCalled(run, labels, k + 1)
  {
    StepForks(run, labels, k);
    RegionsStep(run, labels, k);
  }

  lemma {:induction false} ForkedAreCalled(run: seq<State>, labels: seq<Label>, k: nat)
    requires IsLabelled(run, labels) && k <= |labels|
    ensures ForkedIsCalled(run, labels, k)
  {
    if k == 0 {
    } else {
      ForkedAreCalled(run, labels, k - 1);
      StillCalled(run, labels, k - 1);
    }
  }

  lemma MidwayRegion(s: State)
    requires Inv(s) && Midway(s.master.pc)
    ensures s.forked == Settled(s) + [s.master.want]
  {
  }

  /** The tasks hart h owes for the first n calls of the program. */
  function Owed(program: seq<Op>, n: nat, h: nat): seq<Task>
    requires n <= |program|
  {
    Duty(Regions(program[..n]), h)
  }

  /**
   * Fork-join, for every program: after n of its calls and with no region under way, each hart has run the tasks of
   * exactly those regions among the n whose team includes it, each once and in order. While a region is under way it may
   * or may not have run that one's task.
   */
  lemma ProgramIsRun(program: seq<Op>, run: seq<State>, labels: seq<Label>, k: nat, h: nat)
    requires Runs(program, run, labels) && k <= |labels| && h <= |run[k].workers|
    ensures |Calls(run, labels, k)| <= |program|
    ensures var owed := Owed(program, |Calls(run, labels, k)|, h);
            RanBy(run[k], h) == owed || (Midway(run[k].master.pc) && RanBy(run[k], h) + Share(run[k].master.want, h) == owed)
  {
    var s, calls := run[k], Calls(run, labels, k);
    CallsGrow(run, labels, k, |labels|);
    assert program[..|calls|] == calls;
    LabelledInv(run, labels, k);
    LabelledIsRun(run, labels);
    ForkedAreCalled(run, labels, k);
    ExactlyOnce(run, k, h);
    if Midway(s.master.pc) {
      MidwayRegion(s);
      DutyNext(Settled(s), s.master.want, h);
    }
  }

  // ---------------------------------------------------------------- exit

  predicate Exiting(pc: MasterPc) {
    pc.ExitCheck? || pc.ExitRun? || pc.ExitLoad? || pc.ExitSpin? || pc.ExitSet? || pc.LeaveLoad? || pc.LeaveSpin? || pc.LeaveSet? || pc.Done?
  }

  // Exit is the last call, and the master is in it from then on.
  ghost predicate ExitIsLast(calls: seq<Op>, pc: MasterPc) {
    && (forall i :: 0 <= i < |calls| - 1 ==> calls[i].Fork?)
    && (Exiting(pc) <==> calls != [] && calls[|calls| - 1].Exit?)
  }

  lemma MasterExits(s: State, op: Op)
    requires MasterOk(s) && MasterCanStep(s)
    ensures Exiting(MasterStep(s, op).master.pc) <==> Exiting(s.master.pc) || (s.master.pc.Idle? && op.Exit?)
  {
  }

  lemma StepExits(run: seq<State>, labels: seq<Label>, k: nat)
    requires IsLabelled(run, labels) && k < |labels|
    ensures Exiting(run[k + 1].master.pc) <==> Exiting(run[k].master.pc) || (Asks(run[k], labels[k]) && labels[k].op.Exit?)
  {
    assert StepAt(run, labels, k);
    LabelledInv(run, labels, k);
    if labels[k].ByMaster? { MasterExits(run[k], labels[k].op); }
  }

  /** After eu_exit the program makes no call, and the master comes back from nothing but eu_exit. */
  lemma {:induction false} ExitIsFinal(run: seq<State>, labels: seq<Label>, k: nat)
    requires IsLabelled(run, labels) && k <= |labels|
    ensures ExitIsLast(Calls(run, labels, k), run[k].master.pc)
  {
    if k == 0 {
    } else {
      ExitIsFinal(run, labels, k - 1);
      StepExits(run, labels, k - 1);
    }
  }

  // ---------------------------------------------------------------- every call ends

  // Steps of the master before it is idle again or done, and what its interrupts will cost the workers.
  function MasterLeft(pc: MasterPc, n: nat): nat {
    match pc
    case Boot => 1
    case Idle => 0
    case PushLoad => 14 * n + 16
    case PushSpin => 14 * n + 15
    case WriteFn => 14 * n + 14
    case WriteData => 14 * n + 13
    case WriteArgc => 14 * n + 12
    case WriteThreads => 14 * n + 11
    case RunLoad => 14 * n + 10
    case ResetFini => 14 * n + 9
    case WakeLoad => 14 * n + 8
    case WakeSpin => 14 * n + 7
    case WakeSet => 14 * n + 6
    case CheckSelf => 5
    case CallSelf => 4
    case JoinLoad => 3
    case JoinSpin => 2
    case ResetThreads => 1
    case ExitCheck => 14 * n + 8
    case ExitRun => 14 * n + 7
    case ExitLoad => 14 * n + 6
    case ExitSpin => 14 * n + 5
    case ExitSet => 14 * n + 4
    case LeaveLoad => 14 * n + 3
    case LeaveSpin => 14 * n + 2
    case LeaveSet => 14 * n + 1
    case Done => 0
  }

  /** The steps left before the program has to make its next call. */
  function Work(s: State): nat { MasterLeft(s.master.pc, |s.workers|) + TotalRank(s.workers) }

  // What a call adds to them, and the step that makes it.
  function PerCall(n: nat): nat { 14 * n + 17 }

  /** What so many calls can cost, and the start before the first one. */
  function Budget(n: nat, calls: nat): nat { 12 * n + 1 + calls * PerCall(n) }

  lemma BudgetNext(n: nat, calls: nat)
    ensures Budget(n, calls + 1) == Budget(n, calls) + PerCall(n)
  {
    Distribute(calls, 1, PerCall(n));
  }

  lemma {:induction false} RankIsBounded(ws: seq<Worker>)
    ensures TotalRank(ws) <= 14 * |ws|
  {
    if ws == [] {
    } else {
      RankIsBounded(ws[1..]);
    }
  }

  lemma {:induction false} InitialRank(ws: seq<Worker>)
    requires forall i :: 0 <= i < |ws| ==> ws[i].pc.Enter?
    ensures TotalRank(ws) == 12 * |ws|
  {
    if ws == [] {
    } else {
      InitialRank(ws[1..]);
    }
  }

  lemma MasterUses(s: State, op: Op)
    requires MasterOk(s) && MasterCanStep(s) && !s.master.pc.WakeSet? && !s.master.pc.LeaveSet?
    ensures MasterStep(s, op).workers == s.workers
    ensures MasterLeft(MasterStep(s, op).master.pc, |s.workers|) + 1
      <= MasterLeft(s.master.pc, |s.workers|) + if s.master.pc.Idle? then PerCall(|s.workers|) else 0
  {
  }

  lemma WakingMoves(s: State, op: Op)
    requires s.master.pc.WakeSet? || s.master.pc.LeaveSet?
    ensures MasterStep(s, op).workers == SetAll(s.workers)
    ensures MasterLeft(MasterStep(s, op).master.pc, |s.workers|) + 14 * |s.workers| + 1 <= MasterLeft(s.master.pc, |s.workers|)
  {
  }

  lemma MasterWakes(s: State, op: Op)
    requires s.master.pc.WakeSet? || s.master.pc.LeaveSet?
    ensures |MasterStep(s, op).workers| == |s.workers| && Work(MasterStep(s, op)) + 1 <= Work(s)
  {
    WakingMoves(s, op);
    RankIsBounded(SetAll(s.workers));
  }

  lemma StepUses(run: seq<State>, labels: seq<Label>, k: nat)
    requires IsLabelled(run, labels) && k < |labels|
    ensures |run[k + 1].workers| == |run[k].workers|
    ensures Work(run[k + 1]) + 1 <= Work(run[k]) + if Asks(run[k], labels[k]) then PerCall(|run[k].workers|) else 0
  {
    assert StepAt(run, labels, k);
    LabelledInv(run, labels, k);
    var s := run[k];
    match labels[k]
    case ByWorker(i) => RankDrops(s, i);
    case ByMaster(op) =>
      if s.master.pc.WakeSet? || s.master.pc.LeaveSet? {
        MasterWakes(s, op);
      } else {
        MasterUses(s, op);
      }
  }

  /** In any run the steps taken, by master and workers together, are bounded by the calls made. */
  lemma {:induction false} StepsAreBounded(run: seq<State>, labels: seq<Label>, k: nat)
    requires IsLabelled(run, labels) && k <= |labels|
    ensures |run[k].workers| == |run[0].workers|
    ensures k + Work(run[k]) <= Budget(|run[0].workers|, |Calls(run, labels, k)|)
  {
    var n := |run[0].workers|;
    if k == 0 {
      InitialRank(run[0].workers);
    } else {
      StepsAreBounded(run, labels, k - 1);
      StepUses(run, labels, k - 1);
      if Asks(run[k - 1], labels[k - 1]) { BudgetNext(n, |Calls(run, labels, k - 1)|); }
    }
  }

  lemma {:induction false} WorkIsUsed(run: seq<State>, labels: seq<Label>, i: nat, j: nat)
    requires IsLabelled(run, labels) && i <= j <= |labels| && Calls(run, labels, j) == Calls(run, labels, i)
    ensures j - i + Work(run[j]) <= Work(run[i])
    decreases j
  {
    if i == j {
    } else {
      CallsGrow(run, labels, i, j - 1);
      WorkIsUsed(run, labels, i, j - 1);
      StepUses(run, labels, j - 1);
    }
  }

  /** Nothing more happens unless the program makes a call. */
  predicate AtRest(s: State) { Stuck(s) && (s.master.pc.Idle? || !MasterCanStep(s)) }

  lemma RestMeansReturned(run: seq<State>, labels: seq<Label>, j: nat)
    requires IsLabelled(run, labels) && j <= |labels| && AtRest(run[j])
    ensures run[j].master.pc.Idle? || run[j].master.pc.Done?
    ensures run[j].master.pc.Done? ==> forall w :: 0 <= w < |run[j].workers| ==> run[j].workers[w].pc.Left?
  {
    LabelledInv(run, labels, j);
    StuckMeansReleased(run[j]);
  }

  /**
   * A call ends: without another one, the harts together take at most 28 steps for each worker and 16 more, and when they
   * can take none, parallelRegion has returned, or eu_exit has, and then every worker has left the loop.
   */
  lemma CallEnds(run: seq<State>, labels: seq<Label>, i: nat, j: nat)
    requires IsLabelled(run, labels) && i <= j <= |labels| && Calls(run, labels, j) == Calls(run, labels, i)
    ensures j - i <= 28 * |run[i].workers| + 16
    ensures AtRest(run[j]) ==> run[j].master.pc.Idle? || run[j].master.pc.Done?
    ensures AtRest(run[j]) && run[j].master.pc.Done? ==> forall w :: 0 <= w < |run[j].workers| ==> run[j].workers[w].pc.Left?
  {
    WorkIsUsed(run, labels, i, j);
    RankIsBounded(run[i].workers);
    if AtRest(run[j]) { RestMeansReturned(run, labels, j); }
  }
}
