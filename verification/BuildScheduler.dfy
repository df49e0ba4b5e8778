// The two-lane build scheduler of batch_run.py: worker threads take jobs from two queues, build each under its app's
// lock, stage the elf, and start a simulation gated by a semaphore. Every access to shared state is a transition.
module BuildScheduler {

  datatype Kind = Cached | Ready | NeedsDatagen

  datatype Job = Job(app: nat, kind: Kind)

  // Worker threads; worker 0 is the datagen lane. A build leaves its elf in a place shared by all jobs of its app.
  datatype Worker =
    | Idle
    | Has(job: nat)
    | Holding(job: nat)       // holds the lock of the app from here
    | Building(job: nat)
    | Built(job: nat)
    | Failed(job: nat)
    | Staged(job: nat)        // to here
    | Starting(job: nat)
    | Left

  datatype Sim = Waiting | Running | Ended

  /** `elf` holds, per app, the job whose build made the file; `staged` the same for the copy of each job. */
  datatype State = State(
    pool: seq<nat>, datagen: seq<nat>, workers: seq<Worker>, locked: set<nat>,
    elf: map<nat, nat>, staged: map<nat, nat>, sims: map<nat, Sim>, permits: nat, aborted: bool, taken: seq<nat>)

  // ---------------------------------------------------------------- sorting the jobs into lanes

  function Select(jobs: seq<Job>, kind: Kind, n: nat): seq<nat>
    requires n <= |jobs|
  {
    if n == 0 then [] else
      Select(jobs, kind, n - 1) + if jobs[n - 1].kind == kind then [n - 1] else []
  }

  method Classify(jobs: seq<Job>) returns (pool: seq<nat>, needs: seq<nat>)
    ensures pool == Select(jobs, Cached, |jobs|) + Select(jobs, Ready, |jobs|)
    ensures needs == Select(jobs, NeedsDatagen, |jobs|)
  {
    var cached, ready := [], [];
    needs := [];
    var i := 0;
    while i < |jobs|
      invariant 0 <= i <= |jobs|
      invariant cached == Select(jobs, Cached, i) && ready == Select(jobs, Ready, i) && needs == Select(jobs, NeedsDatagen, i)
    {
      match jobs[i].kind {
        case Cached => cached := cached + [i];
        case Ready => ready := ready + [i];
        case NeedsDatagen => needs := needs + [i];
      }
      i := i + 1;
    }
    pool := cached + ready;
  }

  /** How often a job occurs in a list. */
  function Occurs(s: seq<nat>, job: nat): nat {
    if s == [] then 0 else (if s[0] == job then 1 else 0) + Occurs(s[1..], job)
  }

  lemma {:induction false} OccursConcat(a: seq<nat>, b: seq<nat>, job: nat)
    ensures Occurs(a + b, job) == Occurs(a, job) + Occurs(b, job)
  {
    if a == [] {
      assert a + b == b;
    } else {
      OccursConcat(a[1..], b, job);
      assert (a + b)[1..] == a[1..] + b;
    }
  }

  lemma OccursAppended(s: seq<nat>, x: nat, job: nat)
    ensures Occurs(s + [x], job) == Occurs(s, job) + if x == job then 1 else 0
  {
    OccursConcat(s, [x], job);
    assert [x][1..] == [];
  }

  lemma {:induction false} OccursIn(s: seq<nat>, job: nat)
    ensures job in s <==> Occurs(s, job) > 0
  {
    if s == [] {
    } else {
      OccursIn(s[1..], job);
    }
  }

  lemma {:induction false} SelectedOnce(jobs: seq<Job>, kind: Kind, n: nat, i: nat)
    requires n <= |jobs|
    ensures Occurs(Select(jobs, kind, n), i) == if i < n && jobs[i].kind == kind then 1 else 0
  {
    if n == 0 {
    } else {
      SelectedOnce(jobs, kind, n - 1, i);
      OccursConcat(Select(jobs, kind, n - 1), if jobs[n - 1].kind == kind then [n - 1] else [], i);
    }
  }

  // ---------------------------------------------------------------- transitions

  datatype Action =
    | Abort
    | Take(w: nat)
    | Leave(w: nat)
    | Drop(w: nat)
    | RunMemsim(w: nat)
    | Lock(w: nat)
    | GiveUp(w: nat)
    | StartBuild(w: nat)
    | FinishBuild(w: nat, ok: bool)
    | Stage(w: nat)
    | Unlock(w: nat)
    | StartSim(w: nat)
    | Acquire(job: nat)
    | Skip(job: nat)
    | Release(job: nat)

  function Queue(s: State, w: nat): seq<nat> { if w == 0 then s.datagen else s.pool }

  predicate HoldsLock(k: Worker) { k.Holding? || k.Building? || k.Built? || k.Failed? || k.Staged? }

  predicate Enabled(jobs: seq<Job>, s: State, a: Action) {
    match a
    case Abort => !s.aborted
    case Take(w) => w < |s.workers| && s.workers[w].Idle? && Queue(s, w) != [] && !s.aborted
    case Leave(w) => w < |s.workers| && s.workers[w].Idle? && (Queue(s, w) == [] || s.aborted)
    case Drop(w) => w < |s.workers| && s.workers[w].Has? && s.aborted
    case RunMemsim(w) => w < |s.workers| && s.workers[w].Has? && s.workers[w].job < |jobs| && jobs[s.workers[w].job].kind.Cached?
    case Lock(w) =>
      w < |s.workers| && s.workers[w].Has? && s.workers[w].job < |jobs| && !jobs[s.workers[w].job].kind.Cached?
      && jobs[s.workers[w].job].app !in s.locked
    case GiveUp(w) => w < |s.workers| && s.workers[w].Holding? && s.aborted
    case StartBuild(w) => w < |s.workers| && s.workers[w].Holding? && s.workers[w].job < |jobs| && !s.aborted
    case FinishBuild(w, _) => w < |s.workers| && s.workers[w].Building? && s.workers[w].job < |jobs|
    case Stage(w) =>
      w < |s.workers| && s.workers[w].Built? && s.workers[w].job < |jobs| && jobs[s.workers[w].job].app in s.elf
    case Unlock(w) => w < |s.workers| && (s.workers[w].Staged? || s.workers[w].Failed?) && s.workers[w].job < |jobs|
    case StartSim(w) => w < |s.workers| && s.workers[w].Starting?
    case Acquire(job) => job in s.sims && s.sims[job].Waiting? && s.permits > 0 && !s.aborted
    case Skip(job) => job in s.sims && s.sims[job].Waiting? && s.permits > 0 && s.aborted
    case Release(job) => job in s.sims && s.sims[job].Running?
  }

  function Do(jobs: seq<Job>, s: State, a: Action): State
    requires Enabled(jobs, s, a)
  {
    match a
    case Abort => s.(aborted := true)
    case Take(w) =>
      var job := Queue(s, w)[0];
      var s' := s.(workers := s.workers[w := Has(job)], taken := s.taken + [job]);
      if w == 0 then s'.(datagen := s.datagen[1..]) else s'.(pool := s.pool[1..])
    case Leave(w) => s.(workers := s.workers[w := Left])
    case Drop(w) => s.(workers := s.workers[w := Idle])
    case RunMemsim(w) => s.(workers := s.workers[w := Idle])
    case Lock(w) =>
      var job := s.workers[w].job;
      s.(workers := s.workers[w := Holding(job)], locked := s.locked + {jobs[job].app})
    case GiveUp(w) => s.(workers := s.workers[w := Failed(s.workers[w].job)])
    case StartBuild(w) =>
      // The build starts with a clean, so whatever elf there was is gone.
      var job := s.workers[w].job;
      s.(workers := s.workers[w := Building(job)], elf := s.elf - {jobs[job].app})
    case FinishBuild(w, ok) =>
      var job := s.workers[w].job;
      if ok then s.(workers := s.workers[w := Built(job)], elf := s.elf[jobs[job].app := job])
      else s.(workers := s.workers[w := Failed(job)])
    case Stage(w) =>
      var job := s.workers[w].job;
      s.(workers := s.workers[w := Staged(job)], staged := s.staged[job := s.elf[jobs[job].app]])
    case Unlock(w) =>
      var k := s.workers[w];
      s.(workers := s.workers[w := if k.Staged? then Starting(k.job) else Idle], locked := s.locked - {jobs[k.job].app})
    case StartSim(w) => s.(workers := s.workers[w := Idle], sims := s.sims[s.workers[w].job := Waiting])
    case Acquire(job) => s.(sims := s.sims[job := Running], permits := s.permits - 1)
    case Skip(job) => s.(sims := s.sims[job := Ended], staged := s.staged - {job})
    case Release(job) => s.(sims := s.sims[job := Ended], permits := s.permits + 1, staged := s.staged - {job})
  }

  ghost predicate Init(jobs: seq<Job>, maxParallel: nat, s: State) {
    && s.pool == Select(jobs, Cached, |jobs|) + Select(jobs, Ready, |jobs|)
    && s.datagen == Select(jobs, NeedsDatagen, |jobs|)
    && |s.workers| >= 2 && (forall w :: 0 <= w < |s.workers| ==> s.workers[w].Idle?)
    && s.locked == {} && s.elf == map[] && s.staged == map[] && s.sims == map[]
    && s.permits == maxParallel && !s.aborted && s.taken == []
  }

  ghost predicate Takes(jobs: seq<Job>, s: State, a: Action, s': State) {
    Enabled(jobs, s, a) && s' == Do(jobs, s, a)
  }

  ghost predicate Next(jobs: seq<Job>, s: State, s': State) {
    exists a :: Takes(jobs, s, a, s')
  }

  ghost predicate IsRun(jobs: seq<Job>, maxParallel: nat, run: seq<State>) {
    && run != [] && Init(jobs, maxParallel, run[0])
    && forall i :: 0 <= i < |run| - 1 ==> Next(jobs, run[i], run[i + 1])
  }

  // ---------------------------------------------------------------- the invariant

  function RunningSims(s: State): set<nat> {
    set job | job in s.sims && s.sims[job].Running?
  }

  // Nothing is lost from the queues and nothing is added.
  ghost predicate Conserved(jobs: seq<Job>, s: State) {
    && (forall i: nat :: Occurs(s.taken, i) + Occurs(s.pool, i) + Occurs(s.datagen, i) == if i < |jobs| then 1 else 0)
    && (forall i :: i in s.datagen ==> i < |jobs| && jobs[i].kind.NeedsDatagen?)
    && (forall i :: i in s.pool ==> i < |jobs| && !jobs[i].kind.NeedsDatagen?)
  }

  ghost predicate WorkerOk(jobs: seq<Job>, s: State, w: nat)
    requires w < |s.workers|
  {
    var k := s.workers[w];
    && (k.Left? ==> Queue(s, w) == [] || s.aborted)
    && (!k.Idle? && !k.Left? ==>
          && k.job < |jobs| && k.job in s.taken && (jobs[k.job].kind.NeedsDatagen? <==> w == 0)
          && k.job !in s.sims
          && (HoldsLock(k) ==> jobs[k.job].app in s.locked)
          && (k.Building? ==> jobs[k.job].app !in s.elf)
          && (k.Built? ==> jobs[k.job].app in s.elf && s.elf[jobs[k.job].app] == k.job)
          && (k.Staged? || k.Starting? ==> k.job in s.staged))
  }

  // Workers work on different jobs, and lock holders on different apps.
  ghost predicate Apart(jobs: seq<Job>, k: Worker, k': Worker) {
    (!k.Idle? && !k.Left? && !k'.Idle? && !k'.Left? ==> k.job != k'.job)
    && (HoldsLock(k) && HoldsLock(k') && k.job < |jobs| && k'.job < |jobs| ==> jobs[k.job].app != jobs[k'.job].app)
  }

  ghost predicate LockHasHolder(jobs: seq<Job>, s: State, app: nat) {
    exists w :: 0 <= w < |s.workers| && HoldsLock(s.workers[w]) && s.workers[w].job < |jobs| && jobs[s.workers[w].job].app == app
  }

  ghost predicate SimsOk(s: State, maxParallel: nat) {
    && |RunningSims(s)| + s.permits == maxParallel
    && (forall job :: job in s.sims ==> job in s.taken)
    && (forall job :: job in s.sims && !s.sims[job].Ended? ==> job in s.staged)
    && (forall job :: job in s.staged ==> s.staged[job] == job)
  }

  ghost predicate Inv(jobs: seq<Job>, maxParallel: nat, s: State) {
    && |s.workers| >= 2
    && Conserved(jobs, s)
    && (forall w :: 0 <= w < |s.workers| ==> WorkerOk(jobs, s, w))
    && (forall w, w' :: 0 <= w < w' < |s.workers| ==> Apart(jobs, s.workers[w], s.workers[w']))
    && (forall app :: app in s.locked ==> LockHasHolder(jobs, s, app))
    && SimsOk(s, maxParallel)
  }

  lemma InitInv(jobs: seq<Job>, maxParallel: nat, s: State)
    requires Init(jobs, maxParallel, s)
    ensures Inv(jobs, maxParallel, s)
  {
    forall i: nat
      ensures Occurs(s.pool, i) + Occurs(s.datagen, i) == if i < |jobs| then 1 else 0
      ensures i in s.datagen ==> i < |jobs| && jobs[i].kind.NeedsDatagen?
      ensures i in s.pool ==> i < |jobs| && !jobs[i].kind.NeedsDatagen?
    {
      SelectedOnce(jobs, Cached, |jobs|, i);
      SelectedOnce(jobs, Ready, |jobs|, i);
      SelectedOnce(jobs, NeedsDatagen, |jobs|, i);
      OccursConcat(Select(jobs, Cached, |jobs|), Select(jobs, Ready, |jobs|), i);
      OccursIn(s.pool, i);
      OccursIn(s.datagen, i);
    }
    assert RunningSims(s) == {};
  }

  // ---------------------------------------------------------------- one worker moves

  // What the invariant says of the workers.
  ghost predicate WorkersOk(jobs: seq<Job>, s: State) {
    && |s.workers| >= 2
    && (forall w :: 0 <= w < |s.workers| ==> WorkerOk(jobs, s, w))
    && (forall w, w' :: 0 <= w < w' < |s.workers| ==> Apart(jobs, s.workers[w], s.workers[w']))
    && (forall app :: app in s.locked ==> LockHasHolder(jobs, s, app))
  }

  // Worker w moves from one state to another; the shared state changes in nothing the other workers rely on.
  lemma OneMoves(jobs: seq<Job>, s: State, s': State, w: nat)
    requires WorkersOk(jobs, s) && w < |s.workers| == |s'.workers| && s'.workers == s.workers[w := s'.workers[w]]
    requires WorkerOk(jobs, s', w)
    requires forall x :: 0 <= x < |s.workers| && x != w ==> WorkerOk(jobs, s', x)
    requires forall x :: 0 <= x < |s.workers| && x != w ==> Apart(jobs, s'.workers[w], s.workers[x])
    requires forall app :: app in s'.locked ==> LockHasHolder(jobs, s', app)
    ensures WorkersOk(jobs, s')
  {
    forall x, y | 0 <= x < y < |s'.workers| ensures Apart(jobs, s'.workers[x], s'.workers[y]) {
      if x == w { assert Apart(jobs, s'.workers[w], s.workers[y]); }
      if y == w { assert Apart(jobs, s'.workers[w], s.workers[x]); }
    }
  }

  // A lock keeps its holder when a worker moves on without letting go of it.
  lemma HoldersStay(jobs: seq<Job>, s: State, s': State, w: nat)
    requires WorkersOk(jobs, s) && w < |s.workers| == |s'.workers| && s'.workers == s.workers[w := s'.workers[w]]
    requires s'.locked == s.locked
    requires HoldsLock(s.workers[w]) ==> HoldsLock(s'.workers[w]) && s'.workers[w].job == s.workers[w].job
    ensures forall app :: app in s'.locked ==> LockHasHolder(jobs, s', app)
  {
    forall app | app in s'.locked ensures LockHasHolder(jobs, s', app) {
      var x :| 0 <= x < |s.workers| && HoldsLock(s.workers[x]) && s.workers[x].job < |jobs| && jobs[s.workers[x].job].app == app;
      assert HoldsLock(s'.workers[x]) && s'.workers[x].job == s.workers[x].job;
    }
  }

  // The job at the head of a queue has not been taken, so no worker and no simulation has it.
  lemma NotTaken(jobs: seq<Job>, s: State, w: nat)
    requires Conserved(jobs, s) && Queue(s, w) != []
    ensures Queue(s, w)[0] !in s.taken
  {
    var job := Queue(s, w)[0];
    OccursIn(s.taken, job);
    OccursIn(s.pool, job);
    OccursIn(s.datagen, job);
  }

  lemma TakeConserves(jobs: seq<Job>, s: State, w: nat)
    requires Conserved(jobs, s) && Enabled(jobs, s, Take(w))
    ensures Conserved(jobs, Do(jobs, s, Take(w)))
  {
    var s', q := Do(jobs, s, Take(w)), Queue(s, w);
    forall i: nat
      ensures Occurs(s'.taken, i) + Occurs(s'.pool, i) + Occurs(s'.datagen, i) == if i < |jobs| then 1 else 0
    {
      OccursAppended(s.taken, q[0], i);
      assert Occurs(q, i) == (if q[0] == i then 1 else 0) + Occurs(q[1..], i);
    }
    assert forall i :: i in q[1..] ==> i in q;
    if w == 0 {
      assert s'.pool == s.pool && s'.datagen == q[1..];
    } else {
      assert s'.pool == q[1..] && s'.datagen == s.datagen;
    }
  }

  lemma TakeInv(jobs: seq<Job>, maxParallel: nat, s: State, w: nat)
    requires Inv(jobs, maxParallel, s) && Enabled(jobs, s, Take(w))
    ensures Inv(jobs, maxParallel, Do(jobs, s, Take(w)))
  {
    var s', job := Do(jobs, s, Take(w)), Queue(s, w)[0];
    TakeConserves(jobs, s, w);
    NotTaken(jobs, s, w);
    HoldersStay(jobs, s, s', w);
    assert job in Queue(s, w) && s'.taken[|s.taken|] == job;
    assert WorkerOk(jobs, s', w);
    forall x | 0 <= x < |s.workers| && x != w ensures WorkerOk(jobs, s', x) && Apart(jobs, s'.workers[w], s.workers[x]) {
      assert WorkerOk(jobs, s, x);
    }
    OneMoves(jobs, s, s', w);
    assert RunningSims(s') == RunningSims(s);
  }

  // ---------------------------------------------------------------- the other transitions

  // Transitions of one worker that leave queues and locks alone.
  predicate LocksAlone(a: Action, w: nat) {
    || a == Leave(w) || a == Drop(w) || a == RunMemsim(w) || a == GiveUp(w) || a == StartBuild(w)
    || a == FinishBuild(w, true) || a == FinishBuild(w, false) || a == Stage(w) || a == StartSim(w)
  }

  predicate MovesOn(k: Worker, k': Worker) {
    && (k'.Idle? || k'.Left? || (!k.Idle? && !k.Left? && k'.job == k.job))
    && (HoldsLock(k) <==> HoldsLock(k'))
  }

  // The worker keeps its job and its lock, or has neither afterwards and had no lock before.
  lemma LocksAloneOwn(jobs: seq<Job>, s: State, a: Action, w: nat)
    requires WorkersOk(jobs, s) && Enabled(jobs, s, a) && LocksAlone(a, w)
    ensures WorkerOk(jobs, Do(jobs, s, a), w)
    ensures MovesOn(s.workers[w], Do(jobs, s, a).workers[w])
  {
    assert WorkerOk(jobs, s, w);
  }

  // Nothing changes that other workers rely on: simulations and staged copies of their jobs, elfs of their apps.
  ghost predicate KeepsOthers(jobs: seq<Job>, s: State, s': State, w: nat)
    requires w < |s.workers|
  {
    var k := s.workers[w];
    && |s'.workers| == |s.workers| && (forall x :: 0 <= x < |s.workers| && x != w ==> s'.workers[x] == s.workers[x])
    && s'.pool == s.pool && s'.datagen == s.datagen && s'.taken == s.taken && s'.aborted == s.aborted && s'.locked == s.locked
    && (forall job :: job in s.staged ==> job in s'.staged)
    && (s'.sims == s.sims || (!k.Idle? && !k.Left? && forall job :: job in s'.sims <==> job in s.sims || job == k.job))
    && (s'.elf == s.elf
        || (HoldsLock(k) && k.job < |jobs|
            && forall app :: app != jobs[k.job].app ==> (app in s'.elf <==> app in s.elf) && (app in s.elf ==> s'.elf[app] == s.elf[app])))
  }

  lemma LocksAloneKeeps(jobs: seq<Job>, s: State, a: Action, w: nat)
    requires Enabled(jobs, s, a) && LocksAlone(a, w)
    ensures KeepsOthers(jobs, s, Do(jobs, s, a), w)
  {
  }

  lemma LocksAloneOther(jobs: seq<Job>, s: State, s': State, w: nat, x: nat)
    requires WorkersOk(jobs, s) && w < |s.workers| && x < |s.workers| && x != w
    requires KeepsOthers(jobs, s, s', w) && MovesOn(s.workers[w], s'.workers[w])
    ensures WorkerOk(jobs, s', x) && Apart(jobs, s'.workers[w], s.workers[x])
  {
    assert WorkerOk(jobs, s, w) && WorkerOk(jobs, s, x);
    assert Apart(jobs, s.workers[if x < w then x else w], s.workers[if x < w then w else x]);
  }

  lemma LocksAloneWorkers(jobs: seq<Job>, s: State, a: Action, w: nat)
    requires WorkersOk(jobs, s) && Enabled(jobs, s, a) && LocksAlone(a, w)
    ensures WorkersOk(jobs, Do(jobs, s, a))
  {
    var s' := Do(jobs, s, a);
    LocksAloneOwn(jobs, s, a, w);
    HoldersStay(jobs, s, s', w);
    LocksAloneKeeps(jobs, s, a, w);
    forall x | 0 <= x < |s.workers| && x != w ensures WorkerOk(jobs, s', x) && Apart(jobs, s'.workers[w], s.workers[x]) {
      LocksAloneOther(jobs, s, s', w, x);
    }
    OneMoves(jobs, s, s', w);
  }

  lemma LocksAloneInv(jobs: seq<Job>, maxParallel: nat, s: State, a: Action, w: nat)
    requires Inv(jobs, maxParallel, s) && Enabled(jobs, s, a) && LocksAlone(a, w)
    ensures Inv(jobs, maxParallel, Do(jobs, s, a))
  {
    LocksAloneWorkers(jobs, s, a, w);
    assert WorkerOk(jobs, s, w);
    assert RunningSims(Do(jobs, s, a)) == RunningSims(s);
  }

  lemma LockInv(jobs: seq<Job>, maxParallel: nat, s: State, w: nat)
    requires Inv(jobs, maxParallel, s) && Enabled(jobs, s, Lock(w))
    ensures Inv(jobs, maxParallel, Do(jobs, s, Lock(w)))
  {
    var s', k := Do(jobs, s, Lock(w)), s.workers[w];
    assert WorkerOk(jobs, s, w);
    forall app | app in s'.locked ensures LockHasHolder(jobs, s', app) {
      if app in s.locked {
        var x :| 0 <= x < |s.workers| && HoldsLock(s.workers[x]) && s.workers[x].job < |jobs| && jobs[s.workers[x].job].app == app;
        assert HoldsLock(s'.workers[x]) && s'.workers[x].job == s.workers[x].job;
      } else {
        assert HoldsLock(s'.workers[w]);
      }
    }
    forall x | 0 <= x < |s.workers| && x != w ensures WorkerOk(jobs, s', x) && Apart(jobs, s'.workers[w], s.workers[x]) {
      assert WorkerOk(jobs, s, x);
      assert Apart(jobs, s.workers[if x < w then x else w], s.workers[if x < w then w else x]);
    }
    OneMoves(jobs, s, s', w);
    assert RunningSims(s') == RunningSims(s);
  }

  lemma UnlockOther(jobs: seq<Job>, s: State, w: nat, x: nat)
    requires WorkersOk(jobs, s) && Enabled(jobs, s, Unlock(w)) && x < |s.workers| && x != w
    ensures var s' := Do(jobs, s, Unlock(w)); WorkerOk(jobs, s', x) && Apart(jobs, s'.workers[w], s.workers[x])
  {
    assert WorkerOk(jobs, s, w) && WorkerOk(jobs, s, x);
    assert Apart(jobs, s.workers[if x < w then x else w], s.workers[if x < w then w else x]);
  }

  lemma UnlockWorkers(jobs: seq<Job>, s: State, w: nat)
    requires WorkersOk(jobs, s) && Enabled(jobs, s, Unlock(w))
    ensures WorkersOk(jobs, Do(jobs, s, Unlock(w)))
  {
    var s' := Do(jobs, s, Unlock(w));
    assert WorkerOk(jobs, s, w);
    forall app | app in s'.locked ensures LockHasHolder(jobs, s', app) {
      var x :| 0 <= x < |s.workers| && HoldsLock(s.workers[x]) && s.workers[x].job < |jobs| && jobs[s.workers[x].job].app == app;
      assert HoldsLock(s'.workers[x]) && s'.workers[x].job == s.workers[x].job;
    }
    forall x | 0 <= x < |s.workers| && x != w ensures WorkerOk(jobs, s', x) && Apart(jobs, s'.workers[w], s.workers[x]) {
      UnlockOther(jobs, s, w, x);
    }
    OneMoves(jobs, s, s', w);
  }

  lemma UnlockInv(jobs: seq<Job>, maxParallel: nat, s: State, w: nat)
    requires Inv(jobs, maxParallel, s) && Enabled(jobs, s, Unlock(w))
    ensures Inv(jobs, maxParallel, Do(jobs, s, Unlock(w)))
  {
    UnlockWorkers(jobs, s, w);
    assert RunningSims(Do(jobs, s, Unlock(w))) == RunningSims(s);
  }

  // The workers do not rely on anything a simulation changes.
  lemma SimMoves(jobs: seq<Job>, s: State, s': State)
    requires WorkersOk(jobs, s)
    requires s' == s.(sims := s'.sims, permits := s'.permits, staged := s'.staged)
    requires s'.sims.Keys == s.sims.Keys && forall job :: job in s.staged && job !in s.sims ==> job in s'.staged
    ensures WorkersOk(jobs, s')
  {
    forall x | 0 <= x < |s.workers| ensures WorkerOk(jobs, s', x) {
      assert WorkerOk(jobs, s, x);
    }
    forall app | app in s'.locked ensures LockHasHolder(jobs, s', app) {
      assert LockHasHolder(jobs, s, app);
    }
  }

  lemma AcquireInv(jobs: seq<Job>, maxParallel: nat, s: State, job: nat)
    requires Inv(jobs, maxParallel, s) && Enabled(jobs, s, Acquire(job))
    ensures Inv(jobs, maxParallel, Do(jobs, s, Acquire(job)))
  {
    var s' := Do(jobs, s, Acquire(job));
    assert RunningSims(s') == RunningSims(s) + {job};
    SimMoves(jobs, s, s');
  }

  lemma SkipInv(jobs: seq<Job>, maxParallel: nat, s: State, job: nat)
    requires Inv(jobs, maxParallel, s) && Enabled(jobs, s, Skip(job))
    ensures Inv(jobs, maxParallel, Do(jobs, s, Skip(job)))
  {
    var s' := Do(jobs, s, Skip(job));
    assert RunningSims(s') == RunningSims(s);
    SimMoves(jobs, s, s');
  }

  // The flag lets workers leave earlier; nothing else depends on it.
  lemma AbortInv(jobs: seq<Job>, maxParallel: nat, s: State)
    requires Inv(jobs, maxParallel, s)
    ensures Inv(jobs, maxParallel, s.(aborted := true))
  {
    var s' := s.(aborted := true);
    forall x | 0 <= x < |s.workers| ensures WorkerOk(jobs, s', x) {
      assert WorkerOk(jobs, s, x);
    }
    forall app | app in s'.locked ensures LockHasHolder(jobs, s', app) {
      assert LockHasHolder(jobs, s, app);
    }
    assert RunningSims(s') == RunningSims(s);
  }

  lemma ReleaseInv(jobs: seq<Job>, maxParallel: nat, s: State, job: nat)
    requires Inv(jobs, maxParallel, s) && Enabled(jobs, s, Release(job))
    ensures Inv(jobs, maxParallel, Do(jobs, s, Release(job)))
  {
    var s' := Do(jobs, s, Release(job));
    assert RunningSims(s') == RunningSims(s) - {job};
    SimMoves(jobs, s, s');
  }

  lemma NextInv(jobs: seq<Job>, maxParallel: nat, s: State, s': State)
    requires Inv(jobs, maxParallel, s) && Next(jobs, s, s')
    ensures Inv(jobs, maxParallel, s')
  {
    var a :| Takes(jobs, s, a, s');
    match a
    case Abort => AbortInv(jobs, maxParallel, s);
    case Take(w) => TakeInv(jobs, maxParallel, s, w);
    case Leave(w) => LocksAloneInv(jobs, maxParallel, s, a, w);
    case Drop(w) => LocksAloneInv(jobs, maxParallel, s, a, w);
    case RunMemsim(w) => LocksAloneInv(jobs, maxParallel, s, a, w);
    case GiveUp(w) => LocksAloneInv(jobs, maxParallel, s, a, w);
    case StartBuild(w) => LocksAloneInv(jobs, maxParallel, s, a, w);
    case Lock(w) => LockInv(jobs, maxParallel, s, w);
    case FinishBuild(w, _) => LocksAloneInv(jobs, maxParallel, s, a, w);
    case Stage(w) => LocksAloneInv(jobs, maxParallel, s, a, w);
    case Unlock(w) => UnlockInv(jobs, maxParallel, s, w);
    case StartSim(w) => LocksAloneInv(jobs, maxParallel, s, a, w);
    case Acquire(job) => AcquireInv(jobs, maxParallel, s, job);
    case Skip(job) => SkipInv(jobs, maxParallel, s, job);
    case Release(job) => ReleaseInv(jobs, maxParallel, s, job);
  }

  lemma {:induction false} RunInvariant(jobs: seq<Job>, maxParallel: nat, run: seq<State>, n: nat)
    requires IsRun(jobs, maxParallel, run) && n < |run|
    ensures Inv(jobs, maxParallel, run[n])
  {
    if n == 0 {
      InitInv(jobs, maxParallel, run[0]);
    } else {
      RunInvariant(jobs, maxParallel, run, n - 1);
      NextInv(jobs, maxParallel, run[n - 1], run[n]);
    }
  }

  // ---------------------------------------------------------------- what follows for every run

  /** The simulation of a job runs the elf that was built from that job's parameters. */
  lemma SimsRunTheirOwnElf(jobs: seq<Job>, maxParallel: nat, run: seq<State>, n: nat, job: nat)
    requires IsRun(jobs, maxParallel, run) && n < |run| && job in run[n].sims && !run[n].sims[job].Ended?
    ensures job in run[n].staged && run[n].staged[job] == job
  {
    RunInvariant(jobs, maxParallel, run, n);
  }

  /** At most max_parallel simulations run at once. */
  lemma BoundedSims(jobs: seq<Job>, maxParallel: nat, run: seq<State>, n: nat)
    requires IsRun(jobs, maxParallel, run) && n < |run|
    ensures |RunningSims(run[n])| <= maxParallel
  {
    RunInvariant(jobs, maxParallel, run, n);
  }

  /** A build starts from nothing: while a job is being built there is no elf of its app, not even one of an earlier job. */
  lemma BuildsStartClean(jobs: seq<Job>, maxParallel: nat, run: seq<State>, n: nat, w: nat)
    requires IsRun(jobs, maxParallel, run) && n < |run| && w < |run[n].workers| && run[n].workers[w].Building?
    ensures run[n].workers[w].job < |jobs| && jobs[run[n].workers[w].job].app !in run[n].elf
  {
    RunInvariant(jobs, maxParallel, run, n);
    assert WorkerOk(jobs, run[n], w);
  }

  /** At most one build at a time generates data, and builds of one app exclude each other. */
  lemma BuildsExclude(jobs: seq<Job>, maxParallel: nat, run: seq<State>, n: nat, v: nat, w: nat)
    requires IsRun(jobs, maxParallel, run) && n < |run| && v < w < |run[n].workers|
    requires HoldsLock(run[n].workers[v]) && HoldsLock(run[n].workers[w])
    ensures run[n].workers[v].job < |jobs| && run[n].workers[w].job < |jobs|
    ensures !jobs[run[n].workers[w].job].kind.NeedsDatagen?
    ensures jobs[run[n].workers[v].job].app != jobs[run[n].workers[w].job].app
  {
    RunInvariant(jobs, maxParallel, run, n);
    assert WorkerOk(jobs, run[n], v) && WorkerOk(jobs, run[n], w);
    assert Apart(jobs, run[n].workers[v], run[n].workers[w]);
  }

  /** No job is taken twice, and when all workers have left every job has been taken, unless the batch was aborted. */
  lemma TakenExactlyOnce(jobs: seq<Job>, maxParallel: nat, run: seq<State>, n: nat, job: nat)
    requires IsRun(jobs, maxParallel, run) && n < |run|
    ensures Occurs(run[n].taken, job) <= if job < |jobs| then 1 else 0
    ensures job < |jobs| && !run[n].aborted && (forall w :: 0 <= w < |run[n].workers| ==> run[n].workers[w].Left?) ==>
              Occurs(run[n].taken, job) == 1
  {
    RunInvariant(jobs, maxParallel, run, n);
    assert WorkerOk(jobs, run[n], 0) && WorkerOk(jobs, run[n], 1);
  }

  lemma AbortedAction(jobs: seq<Job>, s: State, a: Action)
    requires Enabled(jobs, s, a) && s.aborted
    ensures Do(jobs, s, a).aborted && Do(jobs, s, a).taken == s.taken && |Do(jobs, s, a).workers| == |s.workers|
    ensures forall job :: job in Do(jobs, s, a).sims && Do(jobs, s, a).sims[job].Running? ==> job in s.sims && s.sims[job].Running?
    ensures forall w :: 0 <= w < |s.workers| && Do(jobs, s, a).workers[w].Building? ==> Do(jobs, s, a).workers[w] == s.workers[w]
  {
  }

  /** Once the batch is aborted it stays so: no job is taken, no build started and no simulation run any more. */
  lemma NothingStartsAfterAbort(jobs: seq<Job>, s: State, s': State)
    requires Next(jobs, s, s') && s.aborted
    ensures s'.aborted && s'.taken == s.taken && RunningSims(s') <= RunningSims(s) && |s'.workers| == |s.workers|
    ensures forall w :: 0 <= w < |s.workers| && s'.workers[w].Building? ==> s'.workers[w] == s.workers[w]
  {
    var a :| Takes(jobs, s, a, s');
    AbortedAction(jobs, s, a);
  }

  predicate Finished(s: State) {
    && (forall w :: 0 <= w < |s.workers| ==> s.workers[w].Left?)
    && (forall job :: job in s.sims ==> s.sims[job].Ended?)
  }

  // The next step of a worker that is not waiting for a lock.
  lemma OwnAction(jobs: seq<Job>, s: State, w: nat) returns (a: Action)
    requires w < |s.workers| && WorkerOk(jobs, s, w) && !s.workers[w].Left?
    requires s.workers[w].Has? && !jobs[s.workers[w].job].kind.Cached? ==> jobs[s.workers[w].job].app !in s.locked
    ensures Enabled(jobs, s, a)
  {
    match s.workers[w]
    case Idle => a := if Queue(s, w) == [] || s.aborted then Leave(w) else Take(w);
    case Has(job) => a := if jobs[job].kind.Cached? then RunMemsim(w) else Lock(w);
    case Holding(_) => a := if s.aborted then GiveUp(w) else StartBuild(w);
    case Building(_) => a := FinishBuild(w, true);
    case Built(_) => a := Stage(w);
    case Failed(_) => a := Unlock(w);
    case Staged(_) => a := Unlock(w);
    case Starting(_) => a := StartSim(w);
  }

  lemma SomeAction(jobs: seq<Job>, maxParallel: nat, s: State) returns (a: Action)
    requires Inv(jobs, maxParallel, s) && !Finished(s) && 0 < maxParallel
    ensures Enabled(jobs, s, a)
  {
    if w :| 0 <= w < |s.workers| && !s.workers[w].Left? {
      assert WorkerOk(jobs, s, w);
      var app := if s.workers[w].Has? then jobs[s.workers[w].job].app else 0;
      if s.workers[w].Has? && !jobs[s.workers[w].job].kind.Cached? && app in s.locked {
        // Whoever holds the lock can go on.
        assert LockHasHolder(jobs, s, app);
        var x :| 0 <= x < |s.workers| && HoldsLock(s.workers[x]) && s.workers[x].job < |jobs| && jobs[s.workers[x].job].app == app;
        assert WorkerOk(jobs, s, x);
        a := OwnAction(jobs, s, x);
      } else {
        a := OwnAction(jobs, s, w);
      }
    } else {
      var job :| job in s.sims && !s.sims[job].Ended?;
      if s.sims[job].Running? {
        a := Release(job);
      } else if s.permits > 0 {
        a := if s.aborted then Skip(job) else Acquire(job);
      } else {
        assert RunningSims(s) != {};
        var other :| other in RunningSims(s);
        a := Release(other);
      }
    }
  }

  /** Until every worker has left and every simulation has ended, something can be done. */
  lemma NotStuck(jobs: seq<Job>, maxParallel: nat, run: seq<State>, n: nat)
    requires IsRun(jobs, maxParallel, run) && n < |run| && !Finished(run[n]) && 0 < maxParallel
    ensures exists s' :: Next(jobs, run[n], s')
  {
    RunInvariant(jobs, maxParallel, run, n);
    var a := SomeAction(jobs, maxParallel, run[n]);
    assert Takes(jobs, run[n], a, Do(jobs, run[n], a));
    assert Next(jobs, run[n], Do(jobs, run[n], a));
  }
}
