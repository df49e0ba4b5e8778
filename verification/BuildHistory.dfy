// What becomes of every job: the actions of a run, counted for each job. Unless the batch is aborted, a cached job ends
// with one run of the model, a job whose build failed with nothing more, and any other with one simulation.
module BuildHistory {
  import opened BuildScheduler

  /** A run with the actions taken in it. */
  ghost predicate ActsAt(jobs: seq<Job>, run: seq<State>, acts: seq<Action>, n: nat)
    requires n < |acts| < |run|
  {
    Takes(jobs, run[n], acts[n], run[n + 1])
  }

  ghost predicate IsRunOf(jobs: seq<Job>, maxParallel: nat, run: seq<State>, acts: seq<Action>) {
    |run| == |acts| + 1 && Init(jobs, maxParallel, run[0]) && forall n: nat :: n < |acts| ==> ActsAt(jobs, run, acts, n)
  }

  lemma RunOfIsRun(jobs: seq<Job>, maxParallel: nat, run: seq<State>, acts: seq<Action>)
    requires IsRunOf(jobs, maxParallel, run, acts)
    ensures IsRun(jobs, maxParallel, run)
  {
    forall n | 0 <= n < |run| - 1 ensures Next(jobs, run[n], run[n + 1]) {
      assert ActsAt(jobs, run, acts, n);
    }
  }

  /** How often a job has been run on the model, built with success and without, and simulated: started and ended. */
  datatype History = History(modelled: nat, built: nat, failed: nat, started: nat, ended: nat)

  const NOTHING := History(0, 0, 0, 0, 0)

  function Bit(b: bool): nat { if b then 1 else 0 }

  predicate Works(s: State, w: nat, job: nat) {
    w < |s.workers| && !s.workers[w].Idle? && !s.workers[w].Left? && s.workers[w].job == job
  }

  // What an action adds to the history of a job.
  function Adds(h: History, s: State, a: Action, job: nat): History {
    match a
    case RunMemsim(w) => h.(modelled := h.modelled + Bit(Works(s, w, job)))
    case FinishBuild(w, ok) =>
      if ok then h.(built := h.built + Bit(Works(s, w, job))) else h.(failed := h.failed + Bit(Works(s, w, job)))
    case Acquire(j) => h.(started := h.started + Bit(j == job))
    case Release(j) => h.(ended := h.ended + Bit(j == job))
    case _ => h
  }

  function HistoryOf(run: seq<State>, acts: seq<Action>, job: nat, n: nat): History
    requires n <= |acts| < |run|
  {
    if n == 0 then NOTHING else Adds(HistoryOf(run, acts, job, n - 1), run[n - 1], acts[n - 1], job)
  }

  // ---------------------------------------------------------------- the history of a job follows from where it is

  function AtWorker(k: Worker): History {
    match k
    case Built(_) => NOTHING.(built := 1)
    case Staged(_) => NOTHING.(built := 1)
    case Starting(_) => NOTHING.(built := 1)
    case Failed(_) => NOTHING.(failed := 1)
    case _ => NOTHING
  }

  function AtSim(sim: Sim): History {
    match sim
    case Waiting => NOTHING.(built := 1)
    case Running => NOTHING.(built := 1, started := 1)
    case Ended => NOTHING.(built := 1, started := 1, ended := 1)
  }

  // A job that is through without a simulation.
  predicate Through(k: Kind, h: History) {
    h == if k.Cached? then NOTHING.(modelled := 1) else NOTHING.(failed := 1)
  }

  ghost predicate Nobody(s: State, job: nat) { forall w: nat :: w < |s.workers| ==> !Works(s, w, job) }

  ghost predicate JobOk(jobs: seq<Job>, s: State, job: nat, h: History)
    requires job < |jobs|
  {
    && (job !in s.taken ==> h == NOTHING)
    && (forall w: nat :: w < |s.workers| && Works(s, w, job) ==>
          h == AtWorker(s.workers[w]) && (jobs[job].kind.Cached? ==> s.workers[w].Has?))
    && (job in s.sims ==> h == AtSim(s.sims[job]) && !jobs[job].kind.Cached?)
    && (job in s.taken && job !in s.sims && Nobody(s, job) ==> Through(jobs[job].kind, h))
  }

  // Whoever works on a job is the only one, and there is no simulation of it yet.
  lemma OnlyWorker(jobs: seq<Job>, maxParallel: nat, s: State, w: nat, x: nat, job: nat)
    requires Inv(jobs, maxParallel, s) && Works(s, w, job) && Works(s, x, job)
    ensures w == x && job < |jobs| && job in s.taken && job !in s.sims
  {
    assert WorkerOk(jobs, s, w);
    assert w != x ==> Apart(jobs, s.workers[if x < w then x else w], s.workers[if x < w then w else x]);
  }

  // A transition that has nothing to do with the job.
  ghost predicate Elsewhere(s: State, s': State, job: nat) {
    && |s'.workers| == |s.workers| && (job in s'.taken <==> job in s.taken)
    && (forall w: nat :: w < |s.workers| ==> Works(s', w, job) == Works(s, w, job))
    && (forall w: nat :: w < |s.workers| && Works(s, w, job) ==> s'.workers[w] == s.workers[w])
    && (job in s'.sims <==> job in s.sims) && (job in s.sims ==> s'.sims[job] == s.sims[job])
  }

  lemma OkElsewhere(jobs: seq<Job>, s: State, s': State, job: nat, h: History)
    requires job < |jobs| && JobOk(jobs, s, job, h) && Elsewhere(s, s', job)
    ensures JobOk(jobs, s', job, h)
  {
    if Nobody(s', job) { assert Nobody(s, job); }
  }

  predicate Moves(a: Action) { !a.Abort? && !a.Acquire? && !a.Skip? && !a.Release? }

  lemma OtherMoves(jobs: seq<Job>, s: State, a: Action, job: nat)
    requires Enabled(jobs, s, a) && Moves(a) && !Works(s, a.w, job) && !Works(Do(jobs, s, a), a.w, job)
    ensures Elsewhere(s, Do(jobs, s, a), job)
  {
    assert forall w: nat :: w < |s.workers| && w != a.w ==> Do(jobs, s, a).workers[w] == s.workers[w];
  }

  lemma OtherAdds(jobs: seq<Job>, s: State, a: Action, job: nat, h: History)
    requires Moves(a) && !Works(s, a.w, job)
    ensures Adds(h, s, a, job) == h
  {
  }

  // The job's own worker goes on with it, hands it to a simulation, or is through with it.
  lemma OwnMove(jobs: seq<Job>, s: State, a: Action, job: nat, h: History)
    requires job < |jobs| && Enabled(jobs, s, a) && Moves(a) && Works(s, a.w, job) && JobOk(jobs, s, job, h)
    requires !s.aborted && job !in s.sims
    ensures var s', h' := Do(jobs, s, a), Adds(h, s, a, job); var k := s'.workers[a.w];
            && s'.taken == s.taken && s'.workers == s.workers[a.w := k]
            && (Works(s', a.w, job) ==> h' == AtWorker(k) && (jobs[job].kind.Cached? ==> k.Has?) && job !in s'.sims)
            && (job in s'.sims ==> h' == AtSim(s'.sims[job]) && !jobs[job].kind.Cached?)
            && (!Works(s', a.w, job) && job !in s'.sims ==> Through(jobs[job].kind, h'))
  {
  }

  lemma OwnMoveOk(jobs: seq<Job>, maxParallel: nat, s: State, a: Action, job: nat, h: History)
    requires Inv(jobs, maxParallel, s) && job < |jobs| && Enabled(jobs, s, a) && Moves(a) && Works(s, a.w, job)
    requires JobOk(jobs, s, job, h) && !s.aborted
    ensures JobOk(jobs, Do(jobs, s, a), job, Adds(h, s, a, job))
  {
    OnlyWorker(jobs, maxParallel, s, a.w, a.w, job);
    OwnMove(jobs, s, a, job, h);
    var s' := Do(jobs, s, a);
    forall x: nat | x < |s.workers| && x != a.w ensures !Works(s', x, job) {
      if Works(s, x, job) { OnlyWorker(jobs, maxParallel, s, a.w, x, job); }
    }
  }

  // Taken by a worker, for the first time.
  lemma TakeOk(jobs: seq<Job>, maxParallel: nat, s: State, w: nat, job: nat, h: History)
    requires Inv(jobs, maxParallel, s) && job < |jobs| && Enabled(jobs, s, Take(w)) && JobOk(jobs, s, job, h)
    requires Works(Do(jobs, s, Take(w)), w, job)
    ensures JobOk(jobs, Do(jobs, s, Take(w)), job, h)
  {
    var s' := Do(jobs, s, Take(w));
    NotTaken(jobs, s, w);
    forall x: nat | x < |s.workers| && x != w ensures !Works(s', x, job) {
      assert WorkerOk(jobs, s, x);
    }
  }

  lemma WorkerMoveOk(jobs: seq<Job>, maxParallel: nat, s: State, a: Action, job: nat, h: History)
    requires Inv(jobs, maxParallel, s) && job < |jobs| && Enabled(jobs, s, a) && Moves(a) && !s.aborted
    requires JobOk(jobs, s, job, h)
    ensures JobOk(jobs, Do(jobs, s, a), job, Adds(h, s, a, job))
  {
    if Works(s, a.w, job) {
      OwnMoveOk(jobs, maxParallel, s, a, job, h);
    } else {
      OtherAdds(jobs, s, a, job, h);
      if Works(Do(jobs, s, a), a.w, job) {
        TakeOk(jobs, maxParallel, s, a.w, job, h);
      } else {
        OtherMoves(jobs, s, a, job);
        OkElsewhere(jobs, s, Do(jobs, s, a), job, h);
      }
    }
  }

  lemma SimMoveOk(jobs: seq<Job>, maxParallel: nat, s: State, a: Action, job: nat, h: History)
    requires Inv(jobs, maxParallel, s) && job < |jobs| && Enabled(jobs, s, a) && !Moves(a) && !Do(jobs, s, a).aborted
    requires JobOk(jobs, s, job, h)
    ensures JobOk(jobs, Do(jobs, s, a), job, Adds(h, s, a, job))
  {
    var s' := Do(jobs, s, a);
    if a.job == job {
      forall w: nat | w < |s.workers| ensures !Works(s, w, job) {
        if Works(s, w, job) { OnlyWorker(jobs, maxParallel, s, w, w, job); }
      }
      assert forall w: nat :: w < |s.workers| ==> Works(s', w, job) == Works(s, w, job);
    } else {
      OkElsewhere(jobs, s, s', job, h);
    }
  }

  lemma ActionOk(jobs: seq<Job>, maxParallel: nat, s: State, a: Action, job: nat, h: History)
    requires Inv(jobs, maxParallel, s) && job < |jobs| && Enabled(jobs, s, a) && !Do(jobs, s, a).aborted
    requires JobOk(jobs, s, job, h)
    ensures JobOk(jobs, Do(jobs, s, a), job, Adds(h, s, a, job))
  {
    if Moves(a) {
      WorkerMoveOk(jobs, maxParallel, s, a, job, h);
    } else {
      SimMoveOk(jobs, maxParallel, s, a, job, h);
    }
  }

  lemma StepOk(jobs: seq<Job>, maxParallel: nat, run: seq<State>, acts: seq<Action>, n: nat, job: nat, h: History)
    requires IsRunOf(jobs, maxParallel, run, acts) && n < |acts| && job < |jobs| && !run[n + 1].aborted
    ensures !run[n].aborted
    ensures JobOk(jobs, run[n], job, h) ==> JobOk(jobs, run[n + 1], job, Adds(h, run[n], acts[n], job))
  {
    assert ActsAt(jobs, run, acts, n);
    RunOfIsRun(jobs, maxParallel, run, acts);
    RunInvariant(jobs, maxParallel, run, n);
    if JobOk(jobs, run[n], job, h) { ActionOk(jobs, maxParallel, run[n], acts[n], job, h); }
  }

  lemma {:induction false} JobIsOk(jobs: seq<Job>, maxParallel: nat, run: seq<State>, acts: seq<Action>, job: nat, n: nat)
    requires IsRunOf(jobs, maxParallel, run, acts) && n <= |acts| && job < |jobs| && !run[n].aborted
    ensures JobOk(jobs, run[n], job, HistoryOf(run, acts, job, n))
  {
    if n == 0 {
    } else {
      StepOk(jobs, maxParallel, run, acts, n - 1, job, HistoryOf(run, acts, job, n - 1));
      JobIsOk(jobs, maxParallel, run, acts, job, n - 1);
    }
  }

  // ---------------------------------------------------------------- what has happened in the end

  /** Run on the model; or built once without success; or built once with success and simulated once. */
  predicate Completed(k: Kind, h: History) {
    if k.Cached? then h == NOTHING.(modelled := 1)
    else h == NOTHING.(failed := 1) || h == NOTHING.(built := 1, started := 1, ended := 1)
  }

  /**
   * When everything is finished and the batch was not aborted, every cached job has been run on the model once and nothing
   * else; every other job has been built once, and then, unless the build failed, simulated once from start to end.
   */
  lemma EveryJobIsDone(jobs: seq<Job>, maxParallel: nat, run: seq<State>, acts: seq<Action>, job: nat)
    requires IsRunOf(jobs, maxParallel, run, acts) && job < |jobs|
    requires Finished(run[|acts|]) && !run[|acts|].aborted
    ensures Completed(jobs[job].kind, HistoryOf(run, acts, job, |acts|))
  {
    var s := run[|acts|];
    JobIsOk(jobs, maxParallel, run, acts, job, |acts|);
    RunOfIsRun(jobs, maxParallel, run, acts);
    TakenExactlyOnce(jobs, maxParallel, run, |acts|, job);
    OccursIn(s.taken, job);
    assert Nobody(s, job);
  }

  // ---------------------------------------------------------------- in the order of the lanes

  /** The jobs of one lane among those taken. */
  function OfLane(jobs: seq<Job>, taken: seq<nat>, datagen: bool): seq<nat> {
    if taken == [] then []
    else
      var job := taken[|taken| - 1];
      OfLane(jobs, taken[..|taken| - 1], datagen) + if (job < |jobs| && jobs[job].kind.NeedsDatagen?) == datagen then [job] else []
  }

  lemma OneMoreTaken(jobs: seq<Job>, taken: seq<nat>, job: nat, datagen: bool)
    ensures OfLane(jobs, taken + [job], datagen) ==
      OfLane(jobs, taken, datagen) + if (job < |jobs| && jobs[job].kind.NeedsDatagen?) == datagen then [job] else []
  {
    assert (taken + [job])[..|taken|] == taken;
  }

  ghost predicate LanesInOrder(jobs: seq<Job>, s: State) {
    && OfLane(jobs, s.taken, true) + s.datagen == Select(jobs, NeedsDatagen, |jobs|)
    && OfLane(jobs, s.taken, false) + s.pool == Select(jobs, Cached, |jobs|) + Select(jobs, Ready, |jobs|)
  }

  // The head of a lane's queue is the next of its jobs to be taken.
  lemma HeadIsTaken(jobs: seq<Job>, taken: seq<nat>, q: seq<nat>, datagen: bool)
    requires q != [] && (q[0] < |jobs| && jobs[q[0]].kind.NeedsDatagen?) == datagen
    ensures OfLane(jobs, taken + [q[0]], datagen) + q[1..] == OfLane(jobs, taken, datagen) + q
    ensures OfLane(jobs, taken + [q[0]], !datagen) == OfLane(jobs, taken, !datagen)
  {
    OneMoreTaken(jobs, taken, q[0], datagen);
    OneMoreTaken(jobs, taken, q[0], !datagen);
    assert q == [q[0]] + q[1..];
  }

  lemma HeadIsOfLane(jobs: seq<Job>, s: State, w: nat)
    requires Conserved(jobs, s) && Enabled(jobs, s, Take(w))
    ensures Queue(s, w) != [] && (Queue(s, w)[0] < |jobs| && jobs[Queue(s, w)[0]].kind.NeedsDatagen?) == (w == 0)
  {
    assert Queue(s, w)[0] in Queue(s, w);
  }

  lemma TakeInOrder(jobs: seq<Job>, s: State, w: nat)
    requires Conserved(jobs, s) && Enabled(jobs, s, Take(w)) && LanesInOrder(jobs, s)
    ensures LanesInOrder(jobs, Do(jobs, s, Take(w)))
  {
    HeadIsOfLane(jobs, s, w);
    HeadIsTaken(jobs, s.taken, Queue(s, w), w == 0);
  }

  lemma OthersKeepLanes(jobs: seq<Job>, s: State, a: Action)
    requires Enabled(jobs, s, a) && !a.Take?
    ensures var s' := Do(jobs, s, a); s'.taken == s.taken && s'.pool == s.pool && s'.datagen == s.datagen
  {
  }

  /** Each lane's jobs are taken in its order: first the cached ones, then the ready ones; the datagen lane as it comes. */
  lemma {:induction false} TakenInOrder(jobs: seq<Job>, maxParallel: nat, run: seq<State>, n: nat)
    requires IsRun(jobs, maxParallel, run) && n < |run|
    ensures LanesInOrder(jobs, run[n])
  {
    if n == 0 {
    } else {
      TakenInOrder(jobs, maxParallel, run, n - 1);
      RunInvariant(jobs, maxParallel, run, n - 1);
      assert Next(jobs, run[n - 1], run[n]);
      var a :| Takes(jobs, run[n - 1], a, run[n]);
      if a.Take? { TakeInOrder(jobs, run[n - 1], a.w); } else { OthersKeepLanes(jobs, run[n - 1], a); }
    }
  }

  // ---------------------------------------------------------------- nothing is left behind

  predicate HasStaged(s: State, w: nat, job: nat) { Works(s, w, job) && (s.workers[w].Staged? || s.workers[w].Starting?) }

  // The copy of an elf is there for the worker that made it or for the simulation that runs it.
  ghost predicate StagedIsUsed(s: State, job: nat) {
    job in s.staged ==> (job in s.sims && !s.sims[job].Ended?) || exists w: nat :: HasStaged(s, w, job)
  }

  lemma StaysUsed(jobs: seq<Job>, s: State, a: Action, job: nat)
    requires Enabled(jobs, s, a) && StagedIsUsed(s, job)
    ensures StagedIsUsed(Do(jobs, s, a), job)
  {
    var s' := Do(jobs, s, a);
    if job in s'.staged && !(job in s'.sims && !s'.sims[job].Ended?) {
      if a.Stage? && s.workers[a.w].job == job {
        assert HasStaged(s', a.w, job);
      } else {
        var w: nat :| HasStaged(s, w, job);
        assert HasStaged(s', w, job);
      }
    }
  }

  lemma {:induction false} StagedAreUsed(jobs: seq<Job>, maxParallel: nat, run: seq<State>, n: nat, job: nat)
    requires IsRun(jobs, maxParallel, run) && n < |run|
    ensures StagedIsUsed(run[n], job)
  {
    if n == 0 {
    } else {
      StagedAreUsed(jobs, maxParallel, run, n - 1, job);
      assert Next(jobs, run[n - 1], run[n]);
      var a :| Takes(jobs, run[n - 1], a, run[n]);
      StaysUsed(jobs, run[n - 1], a, job);
    }
  }

  /** When everything is finished, aborted or not, every copy of an elf has been deleted. */
  lemma NothingLeftStaged(jobs: seq<Job>, maxParallel: nat, run: seq<State>, n: nat)
    requires IsRun(jobs, maxParallel, run) && n < |run| && Finished(run[n])
    ensures run[n].staged == map[]
  {
    forall job | job in run[n].staged ensures false {
      StagedAreUsed(jobs, maxParallel, run, n, job);
    }
    assert run[n].staged.Keys == {};
  }
}
