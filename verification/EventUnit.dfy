// The fork-join event unit of eu.h (cluster-local interrupt variant), driven as omp.h and
// omp.c drive it: a state machine whose steps are the single accesses to shared memory of
// hart 0 (the master) and of any number of workers, interleaved in any order.
module EventUnit {

  datatype Task = Task(fn: int, data: int, argc: int)

  /** One parallel region: the task, and how many harts (0 .. nt-1) are to run it. */
  datatype Region = Region(task: Task, nt: nat)

  // Where a worker is in eu_event_loop and worker_wfi; each name is the access it does next.
  datatype WorkerPc =
    | Enter        // workers_in_loop += 1
    | CheckExit    // read exit_flag
    | CheckTeam    // read e.nthreads: is this hart part of the team?
    | CopyThreads  // read e.nthreads again, into a local
    | FetchFn      // read e.fn
    | FetchData    // read e.data
    | FetchArgc    // read e.argc
    | Call         // run the task
    | Fini         // e.fini_count += 1
    | Doze         // workers_wfi += 1
    | Asleep       // WFI: continue once the interrupt is pending
    | ClearIrq     // clear the pending bit
    | Undoze       // workers_wfi -= 1
    | Left         // returned from the loop

  // A worker hart: its pending-interrupt bit, its locals, and the tasks it has run so far.
  datatype Worker = Worker(pc: WorkerPc, pending: bool, fn: int, data: int, argc: int, ran: seq<Task>)

  // Where the master is in snrt_omp_bootstrap, parallelRegion and eu_exit.
  datatype MasterPc =
    | Boot         // spin until workers_wfi == number of workers
    | Idle         // between parallel regions
    | PushLoad | PushSpin                              // eu_dispatch_push: wait_worker_wfi
    | WriteFn | WriteData | WriteArgc | WriteThreads   // eu_dispatch_push: fill the event
    | RunLoad | ResetFini                              // eu_run_empty
    | WakeLoad | WakeSpin | WakeSet                    // wake_workers
    | CheckSelf | CallSelf
    | JoinLoad | JoinSpin                              // wait for fini_count
    | ResetThreads
    | ExitCheck | ExitRun                              // eu_exit: is there a team, and eu_run_empty if there is none
    | ExitLoad | ExitSpin | ExitSet                    // eu_exit: wait_worker_wfi, then the flag
    | LeaveLoad | LeaveSpin | LeaveSet                 // eu_exit: wake_workers
    | Done

  datatype Master = Master(pc: MasterPc, scratch: nat, expected: nat, want: Region, ran: seq<Task>)

  // eu_t, the harts, and (history variables) the regions the program has forked and those completed so far.
  datatype State = State(
    inLoop: nat, wfi: int, exitFlag: bool,
    fn: int, data: int, argc: int, nthreads: nat, fini: int,
    workers: seq<Worker>, master: Master, forked: seq<Region>, completed: seq<Region>)

  // What the program running on the master does between two regions.
  datatype Op = Fork(region: Region) | Exit

  ghost predicate Init(s: State) {
    && s.inLoop == 0 && s.wfi == 0 && !s.exitFlag && s.nthreads == 0 && s.fini == 0
    && s.master.pc == Boot && s.master.ran == [] && s.forked == [] && s.completed == []
    && forall i :: 0 <= i < |s.workers| ==> s.workers[i].pc == Enter && !s.workers[i].pending && s.workers[i].ran == []
  }

  // ---------------------------------------------------------------- steps

  /** A worker is stuck only in WFI with no interrupt pending, or after it has left. */
  predicate CanStep(w: Worker) {
    w.pc != Left && (w.pc == Asleep ==> w.pending)
  }

  // What the next access of hart h does to its own registers and to its pending bit.
  function Advance(w: Worker, h: nat, s: State): Worker
    requires CanStep(w)
  {
    match w.pc
    case Enter => w.(pc := CheckExit)
    case CheckExit => w.(pc := if s.exitFlag then Left else CheckTeam)
    case CheckTeam => w.(pc := if h < s.nthreads then CopyThreads else Fini)
    case CopyThreads => w.(pc := FetchFn)
    case FetchFn => w.(pc := FetchData, fn := s.fn)
    case FetchData => w.(pc := FetchArgc, data := s.data)
    case FetchArgc => w.(pc := Call, argc := s.argc)
    case Call => w.(pc := Fini, ran := w.ran + [Task(w.fn, w.data, w.argc)])
    case Fini => w.(pc := Doze)
    case Doze => w.(pc := Asleep)
    case Asleep => w.(pc := ClearIrq)
    case ClearIrq => w.(pc := Undoze, pending := false)
    case Undoze => w.(pc := CheckExit)
  }

  function Bit(b: bool): int { if b then 1 else 0 }

  /** The next access of worker i, which is hart i+1: its own part, and the atomic additions. */
  function WorkerStep(s: State, i: nat): State
    requires i < |s.workers| && CanStep(s.workers[i])
  {
    var w := s.workers[i];
    s.(inLoop := s.inLoop + Bit(w.pc.Enter?),
       wfi := s.wfi + Bit(w.pc.Doze?) - Bit(w.pc.Undoze?),
       fini := s.fini + Bit(w.pc.Fini?),
       workers := s.workers[i := Advance(w, i + 1, s)])
  }

  predicate Spinning(pc: MasterPc) {
    (pc.Boot? || pc.PushSpin? || pc.WakeSpin? || pc.JoinSpin? || pc.ExitSpin? || pc.LeaveSpin?)
  }

  /** The condition the master spins on. */
  predicate SpinOver(s: State) {
    match s.master.pc
    case Boot => s.wfi == |s.workers|
    case JoinSpin => s.fini == s.master.expected
    case _ => s.wfi == s.master.expected
  }

  predicate MasterCanStep(s: State) {
    s.master.pc != Done && (Spinning(s.master.pc) ==> SpinOver(s))
  }

  // snrt_int_cluster_set with the mask of all compute cores but hart 0.
  function SetAll(ws: seq<Worker>): (r: seq<Worker>)
    ensures |r| == |ws|
    ensures forall i :: 0 <= i < |ws| ==> r[i] == ws[i].(pending := true)
  {
    if ws == [] then [] else [ws[0].(pending := true)] + SetAll(ws[1..])
  }

  function AfterCall(m: Master): MasterPc {
    if m.scratch > 1 then JoinLoad else ResetThreads
  }

  /** The next access of the master; `op` matters only when it is idle. */
  function MasterStep(s: State, op: Op): State
    requires MasterCanStep(s)
  {
    var m := s.master;
    match m.pc
    case Boot => s.(master := m.(pc := Idle))
    case Idle =>
      (match op
       case Fork(region) => s.(master := m.(pc := PushLoad, want := region), forked := s.forked + [region])
       case Exit => s.(master := m.(pc := ExitCheck)))
    // eu_dispatch_push
    case PushLoad => s.(master := m.(pc := PushSpin, expected := s.inLoop))
    case PushSpin => s.(master := m.(pc := WriteFn))
    case WriteFn => s.(fn := m.want.task.fn, master := m.(pc := WriteData))
    case WriteData => s.(data := m.want.task.data, master := m.(pc := WriteArgc))
    case WriteArgc => s.(argc := m.want.task.argc, master := m.(pc := WriteThreads))
    case WriteThreads => s.(nthreads := m.want.nt, master := m.(pc := RunLoad))
    // eu_run_empty
    case RunLoad =>
      if s.nthreads == 0 then
        s.(master := m.(pc := Idle, scratch := 0), completed := s.completed + [m.want])
      else
        s.(master := m.(pc := ResetFini, scratch := s.nthreads))
    case ResetFini => s.(fini := 0, master := m.(pc := if m.scratch > 1 then WakeLoad else CheckSelf))
    case WakeLoad => s.(master := m.(pc := WakeSpin, expected := s.inLoop))
    case WakeSpin => s.(master := m.(pc := WakeSet))
    case WakeSet => s.(workers := SetAll(s.workers), master := m.(pc := CheckSelf))
    case CheckSelf =>
      if 0 < s.nthreads then s.(master := m.(pc := CallSelf)) else s.(master := m.(pc := AfterCall(m)))
    case CallSelf => s.(master := m.(pc := AfterCall(m), ran := m.ran + [Task(s.fn, s.data, s.argc)]))
    case JoinLoad => s.(master := m.(pc := JoinSpin, expected := s.inLoop))
    case JoinSpin => s.(master := m.(pc := ResetThreads))
    case ResetThreads => s.(nthreads := 0, master := m.(pc := Idle), completed := s.completed + [m.want])
    // eu_exit; with a team its call of eu_run_empty would go on as above (see ExitFindsNoTeam)
    case ExitCheck => s.(master := m.(pc := if s.nthreads == 0 then ExitRun else ExitLoad))
    case ExitRun =>
      if s.nthreads == 0 then
        s.(master := m.(pc := ExitLoad, scratch := 0))
      else
        s.(master := m.(pc := ResetFini, scratch := s.nthreads))
    case ExitLoad => s.(master := m.(pc := ExitSpin, expected := s.inLoop))
    case ExitSpin => s.(master := m.(pc := ExitSet))
    case ExitSet => s.(exitFlag := true, master := m.(pc := LeaveLoad))
    case LeaveLoad => s.(master := m.(pc := LeaveSpin, expected := s.inLoop))
    case LeaveSpin => s.(master := m.(pc := LeaveSet))
    case LeaveSet => s.(workers := SetAll(s.workers), master := m.(pc := Done))
  }

  /** One step of any hart. */
  ghost predicate Next(s: State, s': State) {
    || (exists i: nat :: i < |s.workers| && CanStep(s.workers[i]) && s' == WorkerStep(s, i))
    || (MasterCanStep(s) && exists op :: s' == MasterStep(s, op))
  }

  ghost predicate IsRun(run: seq<State>) {
    && 0 < |run| && Init(run[0])
    && forall k :: 0 <= k < |run| - 1 ==> Next(run[k], run[k + 1])
  }

  // ---------------------------------------------------------------- counting harts

  function Count(ws: seq<Worker>, p: Worker -> bool): (c: nat)
    ensures c <= |ws|
  {
    if ws == [] then 0 else Bit(p(ws[0])) + Count(ws[1..], p)
  }

  lemma {:induction false} CountUpdate(ws: seq<Worker>, i: nat, w: Worker, p: Worker -> bool)
    requires i < |ws|
    ensures Count(ws[i := w], p) == Count(ws, p) - Bit(p(ws[i])) + Bit(p(w))
  {
    if i == 0 {
      assert ws[i := w][1..] == ws[1..];
    } else {
      assert ws[i := w][1..] == ws[1..][i - 1 := w];
      CountUpdate(ws[1..], i - 1, w, p);
    }
  }

  lemma {:induction false} CountAll(ws: seq<Worker>, p: Worker -> bool)
    ensures Count(ws, p) == |ws| <==> forall i :: 0 <= i < |ws| ==> p(ws[i])
  {
    if ws == [] {
    } else {
      CountAll(ws[1..], p);
      if forall i :: 0 <= i < |ws| ==> p(ws[i]) {
        assert forall i :: 0 <= i < |ws[1..]| ==> p(ws[1..][i]);
      } else {
        var i :| 0 <= i < |ws| && !p(ws[i]);
        if i > 0 { assert !p(ws[1..][i - 1]); }
      }
    }
  }

  lemma {:induction false} CountNone(ws: seq<Worker>, p: Worker -> bool)
    requires forall i :: 0 <= i < |ws| ==> !p(ws[i])
    ensures Count(ws, p) == 0
  {
    if ws == [] {
    } else {
      CountNone(ws[1..], p);
    }
  }

  lemma {:induction false} CountSame(ws: seq<Worker>, ws': seq<Worker>, p: Worker -> bool)
    requires |ws| == |ws'| && forall i :: 0 <= i < |ws| ==> p(ws[i]) == p(ws'[i])
    ensures Count(ws, p) == Count(ws', p)
  {
    if ws == [] {
    } else {
      assert ws[0] == ws[0] && p(ws[0]) == p(ws'[0]);
      CountSame(ws[1..], ws'[1..], p);
    }
  }

  predicate Entered(w: Worker) { w.pc != Enter }
  predicate Dozing(w: Worker) { (w.pc.Asleep? || w.pc.ClearIrq? || w.pc.Undoze?) }
  predicate Finished(w: Worker) { w.pc == Doze || (w.pc == Asleep && !w.pending) }

  // ---------------------------------------------------------------- the invariant

  function Share(r: Region, h: nat): seq<Task> {
    if h < r.nt then [r.task] else []
  }

  /** The tasks hart h owes for a sequence of regions: one for each region whose team includes it, in order. */
  function Duty(regions: seq<Region>, h: nat): seq<Task> {
    if regions == [] then
      []
    else
      Duty(regions[..|regions| - 1], h) + Share(regions[|regions| - 1], h)
  }

  lemma DutyNext(regions: seq<Region>, r: Region, h: nat)
    ensures Duty(regions + [r], h) == Duty(regions, h) + Share(r, h)
  {
    assert (regions + [r])[..|regions|] == regions;
  }

  // What the workers are up to, as seen from where the master is.
  datatype Mode = Booting | Resting | Still | Round | Leaving

  function ModeOf(m: Master): Mode {
    match m.pc
    case Boot => Booting
    case Idle | PushLoad | PushSpin | ExitCheck | ExitRun | ExitLoad | ExitSpin | ResetThreads => Resting
    case CheckSelf | CallSelf => if m.scratch > 1 then Round else Still
    case JoinLoad | JoinSpin => Round
    case Done => Leaving
    case _ => Still
  }

  predicate WorkerOk(w: Worker, h: nat, mode: Mode, before: seq<Task>, want: Region) {
    match mode
    case Booting =>
      !w.pending && (w.pc.Enter? || w.pc.CheckExit? || w.pc.CheckTeam? || w.pc.Fini? || w.pc.Doze? || w.pc.Asleep?) && w.ran == before
    case Resting => !w.pending && (w.pc.Doze? || w.pc.Asleep?) && w.ran == before
    case Still => !w.pending && w.pc == Asleep && w.ran == before
    case Round =>
      && !(w.pc.Enter? || w.pc.Left?)
      && (w.pending ==> (w.pc.Asleep? || w.pc.ClearIrq?)) && (w.pc == ClearIrq ==> w.pending)
      && w.ran == before + (if w.pc == Fini || Finished(w) then Share(want, h) else [])
      && ((w.pc.CopyThreads? || w.pc.FetchFn? || w.pc.FetchData? || w.pc.FetchArgc? || w.pc.Call?) ==> h < want.nt)
      && ((w.pc.FetchData? || w.pc.FetchArgc? || w.pc.Call?) ==> w.fn == want.task.fn)
      && ((w.pc.FetchArgc? || w.pc.Call?) ==> w.data == want.task.data)
      && (w.pc == Call ==> w.argc == want.task.argc)
    case Leaving =>
      && (w.pc.Asleep? || w.pc.ClearIrq? || w.pc.Undoze? || w.pc.CheckExit? || w.pc.Left?)
      && (w.pending <==> (w.pc.Asleep? || w.pc.ClearIrq?))
      && w.ran == before
  }

  // The regions whose tasks have all been run: the current one counts from the join on.
  function Settled(s: State): seq<Region> {
    if s.master.pc == ResetThreads then s.completed + [s.master.want] else s.completed
  }

  ghost predicate WorkersOk(s: State) {
    forall i :: 0 <= i < |s.workers| ==>
      WorkerOk(s.workers[i], i + 1, ModeOf(s.master), Duty(Settled(s), i + 1), s.master.want)
  }

  ghost predicate CountersOk(s: State) {
    && s.inLoop == Count(s.workers, Entered)
    && s.wfi == Count(s.workers, Dozing)
    && (ModeOf(s.master) == Round ==> s.fini == Count(s.workers, Finished))
  }

  // No region is under way: nthreads stops the workers from running anything.
  predicate NoTeam(s: State) { !s.exitFlag && s.nthreads == 0 }

  predicate Published(s: State) {
    && !s.exitFlag && s.nthreads == s.master.want.nt
    && s.fn == s.master.want.task.fn && s.data == s.master.want.task.data && s.argc == s.master.want.task.argc
  }

  predicate Running(s: State) { Published(s) && 0 < s.master.scratch == s.nthreads }

  predicate Ending(s: State) { s.exitFlag && s.nthreads == 0 }

  // The event record, the flag and the master's own locals, access by access.
  predicate MasterOk(s: State) {
    var m, t := s.master, s.master.want.task;
    match m.pc
    case Boot => NoTeam(s) && s.completed == []
    case Idle | PushLoad | WriteFn | ExitCheck | ExitRun | ExitLoad | ExitSet => NoTeam(s)
    case PushSpin | ExitSpin => NoTeam(s) && m.expected == |s.workers|
    case WriteData => NoTeam(s) && s.fn == t.fn
    case WriteArgc => NoTeam(s) && s.fn == t.fn && s.data == t.data
    case WriteThreads => NoTeam(s) && s.fn == t.fn && s.data == t.data && s.argc == t.argc
    case RunLoad => Published(s)
    case ResetFini | CheckSelf | CallSelf | ResetThreads => Running(s)
    case WakeLoad | WakeSet => Running(s) && 1 < m.scratch && s.fini == 0
    case WakeSpin => Running(s) && 1 < m.scratch && s.fini == 0 && m.expected == |s.workers|
    case JoinLoad => Running(s) && 1 < m.scratch
    case JoinSpin => Running(s) && 1 < m.scratch && m.expected == |s.workers|
    case LeaveLoad | LeaveSet | Done => Ending(s)
    case LeaveSpin => Ending(s) && m.expected == |s.workers|
  }

  // A region is under way from the fork until it is settled.
  predicate Midway(pc: MasterPc) {
    match pc
    case Boot | Idle | ResetThreads | ExitCheck | ExitRun | ExitLoad | ExitSpin | ExitSet
      | LeaveLoad | LeaveSpin | LeaveSet | Done => false
    case _ => true
  }

  predicate ForksOk(s: State) {
    s.forked == Settled(s) + (if Midway(s.master.pc) then [s.master.want] else [])
  }

  // The master runs its own share between CallSelf and the end of the region.
  predicate MasterRan(s: State) {
    s.master.ran == Duty(Settled(s), 0) + (if s.master.pc.JoinLoad? || s.master.pc.JoinSpin? then [s.master.want.task] else [])
  }

  predicate HistoryOk(s: State) { MasterOk(s) && MasterRan(s) && ForksOk(s) }

  ghost predicate Inv(s: State) { WorkersOk(s) && CountersOk(s) && HistoryOk(s) }

  lemma InitInv(s: State)
    requires Init(s)
    ensures Inv(s)
  {
    CountNone(s.workers, Entered);
    CountNone(s.workers, Dozing);
  }

  // A worker's step keeps it where the master expects it.
  lemma AdvanceOk(w: Worker, h: nat, s: State, before: seq<Task>)
    requires CanStep(w) && MasterOk(s) && WorkerOk(w, h, ModeOf(s.master), before, s.master.want)
    ensures WorkerOk(Advance(w, h, s), h, ModeOf(s.master), before, s.master.want)
  {
    match ModeOf(s.master)
    case Booting =>
    case Resting =>
    case Still =>
    case Leaving =>
    case Round => assert Running(s);
  }

  lemma AdvanceCounts(w: Worker, h: nat, s: State)
    requires CanStep(w)
    ensures Bit(Entered(Advance(w, h, s))) == Bit(Entered(w)) + Bit(w.pc.Enter?)
    ensures Bit(Dozing(Advance(w, h, s))) == Bit(Dozing(w)) + Bit(w.pc.Doze?) - Bit(w.pc.Undoze?)
    ensures (w.pending ==> w.pc.Asleep? || w.pc.ClearIrq?) ==>
            Bit(Finished(Advance(w, h, s))) == Bit(Finished(w)) + Bit(w.pc.Fini?)
  {
  }

  lemma WorkerStepWorkers(s: State, i: nat)
    requires Inv(s) && i < |s.workers| && CanStep(s.workers[i])
    ensures WorkersOk(WorkerStep(s, i))
  {
    var s' := WorkerStep(s, i);
    assert s'.master == s.master && s'.completed == s.completed;
    forall k | 0 <= k < |s'.workers|
      ensures WorkerOk(s'.workers[k], k + 1, ModeOf(s'.master), Duty(Settled(s'), k + 1), s'.master.want)
    {
      assert WorkerOk(s.workers[k], k + 1, ModeOf(s.master), Duty(Settled(s), k + 1), s.master.want);
      if k == i { AdvanceOk(s.workers[i], i + 1, s, Duty(Settled(s), i + 1)); }
    }
  }

  lemma WorkerStepCounters(s: State, i: nat)
    requires Inv(s) && i < |s.workers| && CanStep(s.workers[i])
    ensures CountersOk(WorkerStep(s, i))
  {
    var w := s.workers[i];
    var w' := Advance(w, i + 1, s);
    assert WorkerOk(w, i + 1, ModeOf(s.master), Duty(Settled(s), i + 1), s.master.want);
    AdvanceCounts(w, i + 1, s);
    CountUpdate(s.workers, i, w', Entered);
    CountUpdate(s.workers, i, w', Dozing);
    CountUpdate(s.workers, i, w', Finished);
  }

  lemma WorkerStepInv(s: State, i: nat)
    requires Inv(s) && i < |s.workers| && CanStep(s.workers[i])
    ensures Inv(WorkerStep(s, i))
  {
    WorkerStepWorkers(s, i);
    WorkerStepCounters(s, i);
  }

  // Once every worker is counted in workers_wfi, none of those that may only doze is left out.
  lemma AllAsleep(s: State)
    requires Inv(s) && (ModeOf(s.master).Booting? || ModeOf(s.master).Resting?) && s.wfi == |s.workers|
    ensures forall i :: 0 <= i < |s.workers| ==> s.workers[i].pc == Asleep
  {
    CountAll(s.workers, Dozing);
    forall i | 0 <= i < |s.workers| ensures s.workers[i].pc == Asleep {
      assert Dozing(s.workers[i]);
      assert WorkerOk(s.workers[i], i + 1, ModeOf(s.master), Duty(Settled(s), i + 1), s.master.want);
    }
  }

  lemma EveryoneEntered(s: State)
    requires Inv(s) && s.master.pc != Boot
    ensures s.inLoop == |s.workers|
  {
    forall i | 0 <= i < |s.workers| ensures Entered(s.workers[i]) {
      assert WorkerOk(s.workers[i], i + 1, ModeOf(s.master), Duty(Settled(s), i + 1), s.master.want);
    }
    CountAll(s.workers, Entered);
  }

  predicate Sleeping(w: Worker) { w.pc.Asleep? && !w.pending }

  // A step that leaves the workers alone: only the mode they are judged by may change.
  lemma WorkersKept(s: State, s': State)
    requires WorkersOk(s) && CountersOk(s)
    requires s'.workers == s.workers && s'.inLoop == s.inLoop && s'.wfi == s.wfi
    requires Settled(s') == Settled(s)
    requires ModeOf(s'.master) == ModeOf(s.master)
      || (ModeOf(s'.master) == Resting && ModeOf(s.master) == Still)
      || (ModeOf(s'.master) != Round && forall k :: 0 <= k < |s.workers| ==> Sleeping(s.workers[k]) && s.workers[k].ran == Duty(Settled(s), k + 1))
    requires ModeOf(s'.master) == Round ==> s'.fini == s.fini && s'.master.want == s.master.want
    requires ModeOf(s'.master) != Leaving
    ensures WorkersOk(s') && CountersOk(s')
  {
    forall k | 0 <= k < |s'.workers|
      ensures WorkerOk(s'.workers[k], k + 1, ModeOf(s'.master), Duty(Settled(s'), k + 1), s'.master.want)
    {
      assert WorkerOk(s.workers[k], k + 1, ModeOf(s.master), Duty(Settled(s), k + 1), s.master.want);
    }
  }

  lemma IdleInv(s: State, op: Op)
    requires Inv(s) && MasterCanStep(s) && (s.master.pc.Boot? || s.master.pc.Idle?)
    ensures Inv(MasterStep(s, op))
  {
    if s.master.pc.Boot? {
      AllAsleep(s);
    }
    WorkersKept(s, MasterStep(s, op));
  }

  lemma PushInv(s: State, op: Op)
    requires Inv(s) && MasterCanStep(s) && (s.master.pc.PushLoad? || s.master.pc.PushSpin?)
    ensures Inv(MasterStep(s, op))
  {
    EveryoneEntered(s);
    if s.master.pc.PushSpin? {
      AllAsleep(s);
    }
    WorkersKept(s, MasterStep(s, op));
  }

  lemma WriteInv(s: State, op: Op)
    requires Inv(s) && MasterCanStep(s)
    requires s.master.pc.WriteFn? || s.master.pc.WriteData? || s.master.pc.WriteArgc? || s.master.pc.WriteThreads?
    ensures Inv(MasterStep(s, op))
  {
    WorkersKept(s, MasterStep(s, op));
  }

  lemma ResetInv(s: State, op: Op)
    requires Inv(s) && MasterCanStep(s)
    requires s.master.pc.ResetFini? || s.master.pc.WakeLoad? || s.master.pc.WakeSpin?
    ensures Inv(MasterStep(s, op))
  {
    EveryoneEntered(s);
    WorkersKept(s, MasterStep(s, op));
  }

  // A step that changes nothing but where the master is, within the same phase of its program.
  predicate Moves(s: State, s': State) {
    && s' == s.(master := s'.master) && s'.master.want == s.master.want && Settled(s') == Settled(s)
    && ModeOf(s.master) == ModeOf(s'.master) != Leaving
  }

  lemma ExitHistory(s: State, op: Op)
    requires HistoryOk(s) && s.inLoop == |s.workers|
    requires s.master.pc.ExitCheck? || s.master.pc.ExitRun? || s.master.pc.ExitLoad?
    ensures HistoryOk(MasterStep(s, op)) && Moves(s, MasterStep(s, op))
  {
  }

  lemma MasterMoves(s: State, s': State)
    requires WorkersOk(s) && CountersOk(s) && Moves(s, s')
    ensures WorkersOk(s') && CountersOk(s')
  {
    WorkersKept(s, s');
  }

  lemma ExitInv(s: State, op: Op)
    requires Inv(s) && (s.master.pc.ExitCheck? || s.master.pc.ExitRun? || s.master.pc.ExitLoad?)
    ensures Inv(MasterStep(s, op))
  {
    EveryoneEntered(s);
    ExitHistory(s, op);
    MasterMoves(s, MasterStep(s, op));
  }

  lemma ExitSpinInv(s: State, op: Op)
    requires Inv(s) && s.master.pc.ExitSpin? && SpinOver(s)
    ensures Inv(MasterStep(s, op))
  {
    AllAsleep(s);
    WorkersKept(s, MasterStep(s, op));
  }

  lemma ExitSetInv(s: State, op: Op)
    requires Inv(s) && s.master.pc.ExitSet?
    ensures Inv(MasterStep(s, op))
  {
    WorkersKept(s, MasterStep(s, op));
  }

  lemma LeaveHistory(s: State, op: Op)
    requires HistoryOk(s) && MasterCanStep(s) && s.inLoop == |s.workers| && (s.master.pc.LeaveLoad? || s.master.pc.LeaveSpin?)
    ensures HistoryOk(MasterStep(s, op)) && Moves(s, MasterStep(s, op))
  {
  }

  lemma LeaveInv(s: State, op: Op)
    requires Inv(s) && MasterCanStep(s) && (s.master.pc.LeaveLoad? || s.master.pc.LeaveSpin?)
    ensures Inv(MasterStep(s, op))
  {
    EveryoneEntered(s);
    LeaveHistory(s, op);
    MasterMoves(s, MasterStep(s, op));
  }

  lemma WakeCounts(ws: seq<Worker>)
    requires forall k :: 0 <= k < |ws| ==> Sleeping(ws[k])
    ensures Count(SetAll(ws), Entered) == Count(ws, Entered)
    ensures Count(SetAll(ws), Dozing) == Count(ws, Dozing)
    ensures Count(SetAll(ws), Finished) == 0
  {
    CountSame(ws, SetAll(ws), Entered);
    CountSame(ws, SetAll(ws), Dozing);
    CountNone(SetAll(ws), Finished);
  }

  // The one write that sets every worker's pending bit finds them all asleep with it clear.
  lemma WokenWorkers(s: State, s': State)
    requires WorkersOk(s) && CountersOk(s) && ModeOf(s.master) == Still
    requires s'.workers == SetAll(s.workers) && s'.inLoop == s.inLoop && s'.wfi == s.wfi
    requires Settled(s') == Settled(s) && s'.master.want == s.master.want
    requires (ModeOf(s'.master) == Round && s'.fini == 0) || ModeOf(s'.master) == Leaving
    ensures WorkersOk(s') && CountersOk(s')
  {
    forall k | 0 <= k < |s'.workers|
      ensures WorkerOk(s'.workers[k], k + 1, ModeOf(s'.master), Duty(Settled(s'), k + 1), s'.master.want)
      ensures Sleeping(s.workers[k])
    {
      assert WorkerOk(s.workers[k], k + 1, Still, Duty(Settled(s), k + 1), s.master.want);
    }
    WakeCounts(s.workers);
  }

  lemma WakeInv(s: State, op: Op)
    requires Inv(s) && s.master.pc.WakeSet?
    ensures Inv(MasterStep(s, op))
  {
    WokenWorkers(s, MasterStep(s, op));
  }

  lemma LeaveSetHistory(s: State, op: Op)
    requires HistoryOk(s) && s.master.pc.LeaveSet?
    ensures var s' := MasterStep(s, op);
            HistoryOk(s') && s' == s.(workers := SetAll(s.workers), master := s'.master)
            && s'.master == s.master.(pc := Done) && Settled(s') == Settled(s)
  {
  }

  lemma LeaveSetInv(s: State, op: Op)
    requires Inv(s) && s.master.pc.LeaveSet?
    ensures Inv(MasterStep(s, op))
  {
    LeaveSetHistory(s, op);
    WokenWorkers(s, MasterStep(s, op));
  }

  // The end of a region: what was run in it becomes part of the settled history.
  lemma RegionOver(s: State, s': State)
    requires WorkersOk(s) && CountersOk(s)
    requires s'.workers == s.workers && s'.inLoop == s.inLoop && s'.wfi == s.wfi
    requires Settled(s') == Settled(s) + [s.master.want]
    requires ModeOf(s'.master) == Resting
    requires (ModeOf(s.master) == Still && s.master.want.nt <= 1)
      || (ModeOf(s.master) == Round && forall k :: 0 <= k < |s.workers| ==> Finished(s.workers[k]))
    ensures WorkersOk(s') && CountersOk(s')
  {
    forall k | 0 <= k < |s'.workers|
      ensures WorkerOk(s'.workers[k], k + 1, Resting, Duty(Settled(s'), k + 1), s'.master.want)
    {
      DutyNext(Settled(s), s.master.want, k + 1);
      assert WorkerOk(s.workers[k], k + 1, ModeOf(s.master), Duty(Settled(s), k + 1), s.master.want);
    }
  }

  lemma RunInv(s: State, op: Op)
    requires Inv(s) && s.master.pc.RunLoad?
    ensures Inv(MasterStep(s, op))
  {
    if s.nthreads == 0 {
      RegionOver(s, MasterStep(s, op));
      DutyNext(s.completed, s.master.want, 0);
    } else {
      WorkersKept(s, MasterStep(s, op));
    }
  }

  lemma CheckSelfInv(s: State, op: Op)
    requires Inv(s) && s.master.pc.CheckSelf?
    ensures Inv(MasterStep(s, op))
  {
    WorkersKept(s, MasterStep(s, op));
  }

  lemma CallInTeam(s: State, s': State)
    requires Inv(s) && s.master.pc.CallSelf? && s.master.scratch > 1
    requires s' == s.(master := s.master.(pc := JoinLoad, ran := s.master.ran + [s.master.want.task]))
    ensures Inv(s')
  {
    WorkersKept(s, s');
  }

  lemma CallAloneHistory(s: State, s': State)
    requires HistoryOk(s) && s.master.pc.CallSelf? && s.master.scratch == 1
    requires s' == s.(master := s.master.(pc := ResetThreads, ran := s.master.ran + [s.master.want.task]))
    ensures HistoryOk(s') && s.master.want.nt == 1 && Settled(s') == Settled(s) + [s.master.want]
  {
    DutyNext(s.completed, s.master.want, 0);
  }

  lemma CallAlone(s: State, s': State)
    requires Inv(s) && s.master.pc.CallSelf? && s.master.scratch == 1
    requires s' == s.(master := s.master.(pc := ResetThreads, ran := s.master.ran + [s.master.want.task]))
    ensures Inv(s')
  {
    CallAloneHistory(s, s');
    RegionOver(s, s');
  }

  lemma CallSelfInv(s: State, op: Op)
    requires Inv(s) && s.master.pc.CallSelf?
    ensures Inv(MasterStep(s, op))
  {
    if s.master.scratch > 1 {
      CallInTeam(s, MasterStep(s, op));
    } else {
      CallAlone(s, MasterStep(s, op));
    }
  }

  lemma JoinLoadInv(s: State, op: Op)
    requires Inv(s) && s.master.pc.JoinLoad?
    ensures Inv(MasterStep(s, op))
  {
    EveryoneEntered(s);
    WorkersKept(s, MasterStep(s, op));
  }

  lemma JoinSpinInv(s: State, op: Op)
    requires Inv(s) && s.master.pc.JoinSpin? && SpinOver(s)
    ensures Inv(MasterStep(s, op))
  {
    CountAll(s.workers, Finished);
    DutyNext(s.completed, s.master.want, 0);
    RegionOver(s, MasterStep(s, op));
  }

  lemma ResetThreadsInv(s: State, op: Op)
    requires Inv(s) && s.master.pc.ResetThreads?
    ensures Inv(MasterStep(s, op))
  {
    WorkersKept(s, MasterStep(s, op));
  }

  lemma MasterStepInv(s: State, op: Op)
    requires Inv(s) && MasterCanStep(s)
    ensures Inv(MasterStep(s, op))
  {
    match s.master.pc
    case Boot | Idle => IdleInv(s, op);
    case PushLoad | PushSpin => PushInv(s, op);
    case WriteFn | WriteData | WriteArgc | WriteThreads => WriteInv(s, op);
    case RunLoad => RunInv(s, op);
    case ResetFini | WakeLoad | WakeSpin => ResetInv(s, op);
    case WakeSet => WakeInv(s, op);
    case CheckSelf => CheckSelfInv(s, op);
    case CallSelf => CallSelfInv(s, op);
    case JoinLoad => JoinLoadInv(s, op);
    case JoinSpin => JoinSpinInv(s, op);
    case ResetThreads => ResetThreadsInv(s, op);
    case ExitCheck | ExitRun | ExitLoad => ExitInv(s, op);
    case ExitSpin => ExitSpinInv(s, op);
    case ExitSet => ExitSetInv(s, op);
    case LeaveLoad | LeaveSpin => LeaveInv(s, op);
    case LeaveSet => LeaveSetInv(s, op);
  }

  // ---------------------------------------------------------------- what every run satisfies

  lemma NextInv(s: State, s': State)
    requires Inv(s) && Next(s, s')
    ensures Inv(s')
  {
    if i: nat :| i < |s.workers| && CanStep(s.workers[i]) && s' == WorkerStep(s, i) {
      WorkerStepInv(s, i);
    } else {
      var op :| s' == MasterStep(s, op);
      MasterStepInv(s, op);
    }
  }

  lemma {:induction false} RunInvariant(run: seq<State>, k: nat)
    requires IsRun(run) && k < |run|
    ensures Inv(run[k])
  {
    if k == 0 {
      InitInv(run[0]);
    } else {
      RunInvariant(run, k - 1);
      NextInv(run[k - 1], run[k]);
    }
  }

  /** The tasks hart h has run; hart 0 is the master. */
  function RanBy(s: State, h: nat): seq<Task>
    requires h <= |s.workers|
  {
    if h == 0 then s.master.ran else s.workers[h - 1].ran
  }

  /**
   * Fork-join: whenever the master is between regions, every forked region is complete, and each hart has run
   * the tasks of exactly the regions whose team includes it, each once and in the order of the forks.
   */
  lemma ExactlyOnce(run: seq<State>, k: nat, h: nat)
    requires IsRun(run) && k < |run| && h <= |run[k].workers|
    ensures !Midway(run[k].master.pc) ==> RanBy(run[k], h) == Duty(run[k].forked, h)
    ensures var s := run[k]; RanBy(s, h) == Duty(Settled(s), h) || RanBy(s, h) == Duty(Settled(s), h) + Share(s.master.want, h)
  {
    RunInvariant(run, k);
    var s := run[k];
    assert !Midway(s.master.pc) ==> s.forked == Settled(s);
    if h == 0 {
      assert MasterRan(s) && MasterOk(s);
      if s.master.pc.JoinLoad? || s.master.pc.JoinSpin? {
        assert Running(s);
        assert Share(s.master.want, 0) == [s.master.want.task];
      } else {
        assert s.master.ran == Duty(Settled(s), 0) + [];
      }
    } else {
      assert WorkerOk(s.workers[h - 1], h, ModeOf(s.master), Duty(Settled(s), h), s.master.want);
    }
  }

  // The accesses with which a worker looks at the event record, and the call that uses what it saw.
  predicate Reading(w: Worker) {
    w.pc.CheckTeam? || w.pc.CopyThreads? || w.pc.FetchFn? || w.pc.FetchData? || w.pc.FetchArgc? || w.pc.Call?
  }

  predicate Writing(pc: MasterPc) {
    pc.WriteFn? || pc.WriteData? || pc.WriteArgc? || pc.WriteThreads? || pc.ResetFini? || pc.ResetThreads?
  }

  /** The event record is never written while a worker may still read it. */
  lemma NoTornEvent(run: seq<State>, k: nat, i: nat)
    requires IsRun(run) && k < |run| && i < |run[k].workers|
    ensures Writing(run[k].master.pc) ==> !Reading(run[k].workers[i])
    ensures run[k].workers[i].pc.Call? ==>
      Task(run[k].workers[i].fn, run[k].workers[i].data, run[k].workers[i].argc) == run[k].master.want.task
  {
    RunInvariant(run, k);
    var s := run[k];
    assert WorkerOk(s.workers[i], i + 1, ModeOf(s.master), Duty(Settled(s), i + 1), s.master.want);
  }

  /**
   * No wakeup is lost: the interrupts are set only while every worker sits in WFI with its bit clear, so no bit is
   * set twice before it is seen and none is set between a worker's WFI and its clear.
   */
  lemma NoLostWakeup(run: seq<State>, k: nat, i: nat)
    requires IsRun(run) && k < |run| && i < |run[k].workers|
    ensures run[k].master.pc.WakeSet? || run[k].master.pc.LeaveSet? ==> Sleeping(run[k].workers[i])
    ensures run[k].workers[i].pc.ClearIrq? ==> run[k].workers[i].pending
    ensures run[k].workers[i].pending ==> run[k].workers[i].pc.Asleep? || run[k].workers[i].pc.ClearIrq?
  {
    RunInvariant(run, k);
    var s := run[k];
    assert WorkerOk(s.workers[i], i + 1, ModeOf(s.master), Duty(Settled(s), i + 1), s.master.want);
  }

  /**
   * eu_exit never finds a team: its call of eu_run_empty, made only when there is none, returns at once, and its test
   * never skips the call.
   */
  lemma ExitFindsNoTeam(run: seq<State>, k: nat, op: Op)
    requires IsRun(run) && k < |run|
    ensures run[k].master.pc.ExitCheck? ==> MasterStep(run[k], op).master.pc == ExitRun
    ensures run[k].master.pc.ExitRun? ==> MasterStep(run[k], op).master.pc == ExitLoad
  {
    RunInvariant(run, k);
  }

  /** After eu_exit has woken the workers they can only leave: none of them runs anything any more. */
  lemma OnlyLeaving(run: seq<State>, k: nat, i: nat)
    requires IsRun(run) && k < |run| && i < |run[k].workers| && run[k].master.pc.Done?
    ensures var w := run[k].workers[i];
      (CanStep(w) <==> !w.pc.Left?) && !Reading(w) && (w.pc.CheckExit? ==> run[k].exitFlag)
  {
    RunInvariant(run, k);
    var s := run[k];
    assert WorkerOk(s.workers[i], i + 1, ModeOf(s.master), Duty(Settled(s), i + 1), s.master.want);
  }

  // ---------------------------------------------------------------- progress

  // How many steps a worker can take before it is asleep, or gone.
  function Rank(w: Worker): nat {
    match w.pc
    case Enter => 12
    case CheckExit => 11
    case CheckTeam => 10
    case CopyThreads => 9
    case FetchFn => 8
    case FetchData => 7
    case FetchArgc => 6
    case Call => 5
    case Fini => 4
    case Doze => 3
    case Asleep => if w.pending then 14 else 0
    case ClearIrq => 13
    case Undoze => 12
    case Left => 0
  }

  function TotalRank(ws: seq<Worker>): nat {
    if ws == [] then 0 else Rank(ws[0]) + TotalRank(ws[1..])
  }

  lemma {:induction false} TotalRankUpdate(ws: seq<Worker>, i: nat, w: Worker)
    requires i < |ws|
    ensures TotalRank(ws[i := w]) == TotalRank(ws) - Rank(ws[i]) + Rank(w)
  {
    if i == 0 {
      assert ws[i := w][1..] == ws[1..];
    } else {
      assert ws[i := w][1..] == ws[1..][i - 1 := w];
      TotalRankUpdate(ws[1..], i - 1, w);
    }
  }

  /** s' is reached from s by letting the workers named in the schedule step, in that order. */
  ghost predicate Executes(s: State, schedule: seq<nat>, s': State)
    decreases schedule
  {
    if schedule == [] then
      s == s'
    else
      schedule[0] < |s.workers| && CanStep(s.workers[schedule[0]]) && Executes(WorkerStep(s, schedule[0]), schedule[1..], s')
  }

  predicate Stuck(s: State) {
    forall i :: 0 <= i < |s.workers| ==> !CanStep(s.workers[i])
  }

  lemma AdvanceRank(w: Worker, h: nat, s: State)
    requires CanStep(w) && (w.pending ==> w.pc.Asleep? || w.pc.ClearIrq?)
    ensures Rank(Advance(w, h, s)) < Rank(w)
  {
  }

  lemma RankDrops(s: State, i: nat)
    requires Inv(s) && i < |s.workers| && CanStep(s.workers[i])
    ensures TotalRank(WorkerStep(s, i).workers) < TotalRank(s.workers)
  {
    var w := s.workers[i];
    assert WorkerOk(w, i + 1, ModeOf(s.master), Duty(Settled(s), i + 1), s.master.want);
    AdvanceRank(w, i + 1, s);
    TotalRankUpdate(s.workers, i, Advance(w, i + 1, s));
  }

  // A worker that cannot step has left, or sleeps and is counted as asleep and as finished.
  lemma StuckWorker(s: State, i: nat)
    requires Inv(s) && i < |s.workers| && !CanStep(s.workers[i])
    ensures ModeOf(s.master) == Leaving ==> s.workers[i].pc.Left?
    ensures ModeOf(s.master) != Leaving ==> Dozing(s.workers[i]) && Finished(s.workers[i])
  {
    assert WorkerOk(s.workers[i], i + 1, ModeOf(s.master), Duty(Settled(s), i + 1), s.master.want);
  }

  lemma AllCounted(s: State)
    requires Inv(s) && Stuck(s) && ModeOf(s.master) != Leaving
    ensures s.wfi == |s.workers| && (ModeOf(s.master) == Round ==> s.fini == |s.workers|)
  {
    forall i | 0 <= i < |s.workers| ensures Dozing(s.workers[i]) && Finished(s.workers[i]) {
      StuckWorker(s, i);
    }
    CountAll(s.workers, Dozing);
    CountAll(s.workers, Finished);
  }

  /** When no worker can step, whatever the master is waiting for has happened. */
  lemma StuckMeansReleased(s: State)
    requires Inv(s) && Stuck(s)
    ensures MasterCanStep(s) || s.master.pc.Done?
    ensures s.master.pc.Done? ==> forall i :: 0 <= i < |s.workers| ==> s.workers[i].pc.Left?
  {
    if s.master.pc.Done? {
      forall i | 0 <= i < |s.workers| ensures s.workers[i].pc.Left? {
        StuckWorker(s, i);
      }
    } else {
      AllCounted(s);
    }
  }

  lemma {:induction false} ScheduleEnds(s: State, schedule: seq<nat>, s': State)
    requires Inv(s) && Executes(s, schedule, s')
    ensures Inv(s') && |schedule| + TotalRank(s'.workers) <= TotalRank(s.workers)
    decreases schedule
  {
    if schedule == [] {
    } else {
      WorkerStepInv(s, schedule[0]);
      RankDrops(s, schedule[0]);
      ScheduleEnds(WorkerStep(s, schedule[0]), schedule[1..], s');
    }
  }

  /**
   * No deadlock and no endless wait. From any reachable state, in whatever order the workers are scheduled while the
   * master spins, they take at most TotalRank steps; once none of them can step, the master's wait is over, and
   * if the master has exited, every worker has left the loop.
   */
  lemma {:induction false} WaitsEnd(run: seq<State>, k: nat, schedule: seq<nat>, s': State)
    requires IsRun(run) && k < |run| && Executes(run[k], schedule, s')
    ensures |schedule| <= TotalRank(run[k].workers)
    ensures Stuck(s') ==> MasterCanStep(s') || s'.master.pc.Done?
    ensures Stuck(s') && s'.master.pc.Done? ==> forall i :: 0 <= i < |s'.workers| ==> s'.workers[i].pc.Left?
  {
    RunInvariant(run, k);
    ScheduleEnds(run[k], schedule, s');
    if Stuck(s') {
      StuckMeansReleased(s');
    }
  }
}
