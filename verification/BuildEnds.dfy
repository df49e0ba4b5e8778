// Every run of the build scheduler ends: the work there is to do bounds the number of its transitions.
module BuildEnds {
  import opened BuildScheduler

  /** How far a worker is from leaving, were there no further jobs. */
  function WorkerRank(k: Worker): nat {
    match k
    case Left => 0
    case Idle => 1
    case Failed(_) => 2
    case Starting(_) => 4
    case Staged(_) => 5
    case Built(_) => 6
    case Building(_) => 7
    case Holding(_) => 8
    case Has(_) => 9
  }

  function WorkersRank(ws: seq<Worker>): nat {
    if ws == [] then 0 else WorkerRank(ws[0]) + WorkersRank(ws[1..])
  }

  function WaitingSims(s: State): set<nat> {
    set job | job in s.sims && s.sims[job].Waiting?
  }

  function SimsRank(s: State): nat { 2 * |WaitingSims(s)| + |RunningSims(s)| }

  /** The transitions a state can still see. */
  function Rank(s: State): nat {
    9 * (|s.pool| + |s.datagen|) + WorkersRank(s.workers) + SimsRank(s) + if s.aborted then 0 else 1
  }

  lemma {:induction false} WorkersRankUpdate(ws: seq<Worker>, w: nat, k: Worker)
    requires w < |ws|
    ensures WorkersRank(ws[w := k]) == WorkersRank(ws) - WorkerRank(ws[w]) + WorkerRank(k)
  {
    if w == 0 {
      assert ws[w := k][1..] == ws[1..];
    } else {
      assert ws[w := k][1..] == ws[1..][w - 1 := k];
      WorkersRankUpdate(ws[1..], w - 1, k);
    }
  }

  lemma {:induction false} AllIdle(ws: seq<Worker>)
    requires forall w :: 0 <= w < |ws| ==> ws[w].Idle?
    ensures WorkersRank(ws) == |ws|
  {
    if ws == [] {
    } else {
      AllIdle(ws[1..]);
    }
  }

  // The transitions that move a worker.
  predicate OfWorker(a: Action) { !a.Abort? && !a.Acquire? && !a.Skip? && !a.Release? }

  lemma WorkerMoves(jobs: seq<Job>, s: State, a: Action)
    requires Enabled(jobs, s, a) && OfWorker(a)
    ensures a.w < |s.workers| && Do(jobs, s, a).workers == s.workers[a.w := Do(jobs, s, a).workers[a.w]]
  {
  }

  lemma SameSims(s: State, s': State)
    requires s'.sims == s.sims
    ensures SimsRank(s') == SimsRank(s)
  {
    assert WaitingSims(s') == WaitingSims(s) && RunningSims(s') == RunningSims(s);
  }

  lemma NewSim(s: State, s': State, job: nat)
    requires job !in s.sims && s'.sims == s.sims[job := Waiting]
    ensures SimsRank(s') == SimsRank(s) + 2
  {
    assert WaitingSims(s') == WaitingSims(s) + {job} && RunningSims(s') == RunningSims(s);
  }

  lemma SimStarts(s: State, s': State, job: nat)
    requires job in s.sims && s.sims[job].Waiting? && s'.sims == s.sims[job := Running]
    ensures SimsRank(s') == SimsRank(s) - 1
  {
    assert WaitingSims(s') == WaitingSims(s) - {job} && RunningSims(s') == RunningSims(s) + {job};
  }

  lemma SimSkipped(s: State, s': State, job: nat)
    requires job in s.sims && s.sims[job].Waiting? && s'.sims == s.sims[job := Ended]
    ensures SimsRank(s') == SimsRank(s) - 2
  {
    assert WaitingSims(s') == WaitingSims(s) - {job} && RunningSims(s') == RunningSims(s);
  }

  lemma SimEnds(s: State, s': State, job: nat)
    requires job in s.sims && s.sims[job].Running? && s'.sims == s.sims[job := Ended]
    ensures SimsRank(s') == SimsRank(s) - 1
  {
    assert WaitingSims(s') == WaitingSims(s) && RunningSims(s') == RunningSims(s) - {job};
  }

  // What the worker that moves gives up makes up for the simulation it adds.
  lemma OwnWorkDrops(jobs: seq<Job>, s: State, a: Action)
    requires Enabled(jobs, s, a) && OfWorker(a)
    ensures var s' := Do(jobs, s, a);
            9 * (|s'.pool| + |s'.datagen|) + WorkerRank(s'.workers[a.w]) + (if a.StartSim? then 2 else 0)
            < 9 * (|s.pool| + |s.datagen|) + WorkerRank(s.workers[a.w])
  {
  }

  lemma OwnSims(jobs: seq<Job>, maxParallel: nat, s: State, a: Action)
    requires Inv(jobs, maxParallel, s) && Enabled(jobs, s, a) && OfWorker(a)
    ensures SimsRank(Do(jobs, s, a)) == SimsRank(s) + if a.StartSim? then 2 else 0
  {
    if a.StartSim? {
      assert WorkerOk(jobs, s, a.w);
      NewSim(s, Do(jobs, s, a), s.workers[a.w].job);
    } else {
      SameSims(s, Do(jobs, s, a));
    }
  }

  /** Every transition uses up work. */
  lemma RankDrops(jobs: seq<Job>, maxParallel: nat, s: State, s': State)
    requires Inv(jobs, maxParallel, s) && Next(jobs, s, s')
    ensures Rank(s') < Rank(s)
  {
    var a :| Takes(jobs, s, a, s');
    if OfWorker(a) {
      WorkerMoves(jobs, s, a);
      WorkersRankUpdate(s.workers, a.w, s'.workers[a.w]);
      OwnWorkDrops(jobs, s, a);
      OwnSims(jobs, maxParallel, s, a);
    } else if a.Abort? {
      SameSims(s, s');
    } else if a.Acquire? {
      SimStarts(s, s', a.job);
    } else if a.Skip? {
      SimSkipped(s, s', a.job);
    } else {
      SimEnds(s, s', a.job);
    }
  }

  // Every job is in exactly one lane.
  lemma {:induction false} LanesHoldAll(jobs: seq<Job>, n: nat)
    requires n <= |jobs|
    ensures |Select(jobs, Cached, n)| + |Select(jobs, Ready, n)| + |Select(jobs, NeedsDatagen, n)| == n
  {
    if n == 0 {
    } else {
      LanesHoldAll(jobs, n - 1);
    }
  }

  lemma InitialRank(jobs: seq<Job>, maxParallel: nat, s: State)
    requires Init(jobs, maxParallel, s)
    ensures Rank(s) == 9 * |jobs| + |s.workers| + 1
  {
    LanesHoldAll(jobs, |jobs|);
    AllIdle(s.workers);
    assert WaitingSims(s) == {} && RunningSims(s) == {};
  }

  /**
   * However builds and simulations interleave, a run has at most nine transitions for each job, one for each worker and
   * one for an abort, so together with NotStuck every run comes to where all workers have left and all simulations have ended.
   */
  lemma {:induction false} SchedulerEnds(jobs: seq<Job>, maxParallel: nat, run: seq<State>, n: nat)
    requires IsRun(jobs, maxParallel, run) && n < |run|
    ensures n + Rank(run[n]) <= 9 * |jobs| + |run[0].workers| + 1
  {
    if n == 0 {
      InitialRank(jobs, maxParallel, run[0]);
    } else {
      SchedulerEnds(jobs, maxParallel, run, n - 1);
      RunInvariant(jobs, maxParallel, run, n - 1);
      RankDrops(jobs, maxParallel, run[n - 1], run[n]);
    }
  }

  /** A run that cannot be continued has finished everything. */
  lemma LastIsFinished(jobs: seq<Job>, maxParallel: nat, run: seq<State>, last: State)
    requires IsRun(jobs, maxParallel, run) && 0 < maxParallel && last == run[|run| - 1]
    requires forall s' :: !Next(jobs, last, s')
    ensures Finished(last) && |run| <= 9 * |jobs| + |run[0].workers| + 2
  {
    SchedulerEnds(jobs, maxParallel, run, |run| - 1);
    if !Finished(last) { NotStuck(jobs, maxParallel, run, |run| - 1); }
  }
}
