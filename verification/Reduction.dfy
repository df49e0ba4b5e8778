// One snrt_global_all_to_all_reduction over any number of clusters (sync.h): every core adds its
// value, all cores meet in the two-level global barrier (hardware barrier within a cluster, software
// barrier among the one DM core of each cluster, hardware barrier again), and every core reads the sum.
module Reduction {
  import opened Arith

  datatype Pc =
    | AddValue   // _reduction_result += value
    | Hw1        // arrive at the first hardware barrier of the cluster
    | Hw1Wait    // leave it once the whole cluster has arrived
    | ReadIter | AddCnt | Reset | Bump | Spin   // DM cores only: the software barrier
    | Hw2        // arrive at the second hardware barrier
    | Hw2Wait
    | Read       // return _reduction_result
    | Done

  datatype Core = Core(cluster: nat, dm: bool, value: nat, pc: Pc, prev: nat, got: nat)

  // dms[c] is the DM core of cluster c. `start` is a history variable: the iteration the software barrier started from.
  datatype State = State(result: nat, cnt: nat, iteration: nat, cores: seq<Core>, dms: seq<nat>, start: nat)

  predicate Same(a: Core, b: Core) { a.cluster == b.cluster }

  predicate IsDm(c: Core) { c.dm }

  function Count(cs: seq<Core>, p: Core -> bool): (n: nat)
    ensures n <= |cs|
  {
    if cs == [] then 0 else (if p(cs[0]) then 1 else 0) + Count(cs[1..], p)
  }

  /** Exactly one DM core in each cluster; snrt_cluster_num() is the number of clusters. */
  ghost predicate Topology(cs: seq<Core>, dms: seq<nat>) {
    && (forall i :: 0 <= i < |cs| ==> cs[i].cluster < |dms|)
    && (forall c :: 0 <= c < |dms| ==> dms[c] < |cs| && cs[dms[c]].dm && cs[dms[c]].cluster == c)
    && (forall i :: 0 <= i < |cs| && cs[i].dm ==> dms[cs[i].cluster] == i)
    && Count(cs, IsDm) == |dms|
  }

  ghost predicate Init(s: State) {
    && Topology(s.cores, s.dms) && s.result == 0 && s.cnt == 0 && s.iteration == s.start < W
    && forall i :: 0 <= i < |s.cores| ==> s.cores[i].pc == AddValue
  }

  // How far a core has come.
  function Pos(pc: Pc): nat {
    match pc
    case AddValue => 0 case Hw1 => 1 case Hw1Wait => 2 case ReadIter => 3 case AddCnt => 4
    case Spin => 5 case Reset => 5 case Bump => 6
    case Hw2 => 7 case Hw2Wait => 8 case Read => 9 case Done => 10
  }

  // The hardware barrier: every core of the cluster has come at least this far.
  ghost predicate ClusterAt(s: State, i: nat, pos: nat)
    requires i < |s.cores|
  {
    forall j :: 0 <= j < |s.cores| && Same(s.cores[i], s.cores[j]) ==> pos <= Pos(s.cores[j].pc)
  }

  ghost predicate CanStep(s: State, i: nat)
    requires i < |s.cores|
  {
    match s.cores[i].pc
    case Hw1Wait => ClusterAt(s, i, 2)
    case Hw2Wait => ClusterAt(s, i, 8)
    case Spin => s.cores[i].prev != s.iteration
    case Done => false
    case _ => true
  }

  function Step(s: State, i: nat): State
    requires i < |s.cores| && !s.cores[i].pc.Done?
  {
    var c := s.cores[i];
    match c.pc
    case AddValue => s.(result := (s.result + c.value) % W, cores := s.cores[i := c.(pc := Hw1)])
    case Hw1 => s.(cores := s.cores[i := c.(pc := Hw1Wait)])
    case Hw1Wait => s.(cores := s.cores[i := c.(pc := if c.dm then ReadIter else Hw2)])
    case ReadIter => s.(cores := s.cores[i := c.(pc := AddCnt, prev := s.iteration)])
    case AddCnt =>
      s.(cnt := s.cnt + 1, cores := s.cores[i := c.(pc := if s.cnt + 1 == |s.dms| then Reset else Spin)])
    case Reset => s.(cnt := 0, cores := s.cores[i := c.(pc := Bump)])
    case Bump => s.(iteration := (s.iteration + 1) % W, cores := s.cores[i := c.(pc := Hw2)])
    case Spin => s.(cores := s.cores[i := c.(pc := Hw2)])
    case Hw2 => s.(cores := s.cores[i := c.(pc := Hw2Wait)])
    case Hw2Wait => s.(cores := s.cores[i := c.(pc := Read)])
    case Read => s.(cores := s.cores[i := c.(pc := Done, got := s.result)])
  }

  ghost predicate Next(s: State, s': State) {
    exists i: nat :: i < |s.cores| && CanStep(s, i) && s' == Step(s, i)
  }

  ghost predicate IsRun(run: seq<State>) {
    && 0 < |run| && Init(run[0])
    && forall k :: 0 <= k < |run| - 1 ==> Next(run[k], run[k + 1])
  }

  // ---------------------------------------------------------------- counting and summing

  predicate Counted(c: Core) { c.dm && 5 <= Pos(c.pc) }

  lemma {:induction false} CountUpdate(cs: seq<Core>, i: nat, c: Core, p: Core -> bool)
    requires i < |cs|
    ensures Count(cs[i := c], p) == Count(cs, p) - (if p(cs[i]) then 1 else 0) + (if p(c) then 1 else 0)
  {
    if i == 0 {
      assert cs[i := c][1..] == cs[1..];
    } else {
      assert cs[i := c][1..] == cs[1..][i - 1 := c];
      CountUpdate(cs[1..], i - 1, c, p);
    }
  }

  // Counted cores are DM cores: they are all there exactly when no DM core is missing.
  lemma {:induction false} AllCounted(cs: seq<Core>)
    ensures Count(cs, Counted) <= Count(cs, IsDm)
    ensures Count(cs, Counted) == Count(cs, IsDm) <==> forall i :: 0 <= i < |cs| && cs[i].dm ==> Counted(cs[i])
  {
    if cs == [] {
    } else {
      AllCounted(cs[1..]);
      if forall i :: 0 <= i < |cs| && cs[i].dm ==> Counted(cs[i]) {
        assert forall i :: 0 <= i < |cs[1..]| && cs[1..][i].dm ==> Counted(cs[1..][i]);
      } else {
        var i :| 0 <= i < |cs| && cs[i].dm && !Counted(cs[i]);
        if i > 0 { assert cs[1..][i - 1].dm && !Counted(cs[1..][i - 1]); }
      }
    }
  }

  /** The sum of the values of the cores that have added theirs. */
  function Added(cs: seq<Core>): nat {
    if cs == [] then 0 else (if cs[0].pc.AddValue? then 0 else cs[0].value) + Added(cs[1..])
  }

  /** The sum of all contributions. */
  function Total(cs: seq<Core>): nat {
    if cs == [] then 0 else cs[0].value + Total(cs[1..])
  }

  lemma {:induction false} AddedUpdate(cs: seq<Core>, i: nat, c: Core)
    requires i < |cs| && c.value == cs[i].value
    ensures Added(cs[i := c]) == Added(cs) - (if cs[i].pc.AddValue? then 0 else c.value) + (if c.pc.AddValue? then 0 else c.value)
    ensures Total(cs[i := c]) == Total(cs)
  {
    if i == 0 {
      assert cs[i := c][1..] == cs[1..];
    } else {
      assert cs[i := c][1..] == cs[1..][i - 1 := c];
      AddedUpdate(cs[1..], i - 1, c);
    }
  }

  lemma {:induction false} AllAdded(cs: seq<Core>)
    requires forall i :: 0 <= i < |cs| ==> !cs[i].pc.AddValue?
    ensures Added(cs) == Total(cs)
  {
    if cs == [] {
    } else {
      AllAdded(cs[1..]);
    }
  }

  lemma {:induction false} NoneAdded(cs: seq<Core>)
    requires forall i :: 0 <= i < |cs| ==> cs[i].pc.AddValue?
    ensures Added(cs) == 0 && Count(cs, Counted) == 0
  {
    if cs == [] {
    } else {
      NoneAdded(cs[1..]);
    }
  }

  // ---------------------------------------------------------------- the invariant

  predicate Bumped(s: State) { s.iteration != s.start }
  predicate Closing(c: Core) { c.pc.Reset? || c.pc.Bump? }

  predicate CoreOk(c: Core, s: State) {
    && (c.pc.ReadIter? || c.pc.AddCnt? || c.pc.Spin? || Closing(c) ==> c.dm)
    && (c.pc.ReadIter? || c.pc.AddCnt? || Closing(c) ==> !Bumped(s))
    && (c.pc.AddCnt? || c.pc.Spin? ==> c.prev == s.start)
    && (c.dm && 7 <= Pos(c.pc) ==> Bumped(s))
    && (c.pc.Done? ==> c.got == Total(s.cores) % W)
  }

  // A core past a hardware barrier: its cluster has arrived there.
  ghost predicate HardwareOk(s: State) {
    && (forall i :: 0 <= i < |s.cores| && 3 <= Pos(s.cores[i].pc) ==> ClusterAt(s, i, 2))
    && (forall i :: 0 <= i < |s.cores| && 9 <= Pos(s.cores[i].pc) ==> ClusterAt(s, i, 8))
  }

  // n DM cores have been counted: all of them once the barrier is closing or closed.
  ghost predicate AllInAtTheEnd(s: State, n: nat) {
    && (Bumped(s) ==> n == |s.dms|)
    && (forall i :: 0 <= i < |s.cores| && Closing(s.cores[i]) ==> n == |s.dms|)
  }

  ghost predicate OneCloses(s: State) {
    forall i, j :: 0 <= i < j < |s.cores| ==> !(Closing(s.cores[i]) && Closing(s.cores[j]))
  }

  // The counter is right until the closing core clears it.
  ghost predicate CounterIs(s: State, n: nat) {
    !Bumped(s) && (forall i :: 0 <= i < |s.cores| ==> !s.cores[i].pc.Bump?) ==> s.cnt == n
  }

  ghost predicate SomeoneMissing(s: State, n: nat) {
    !Bumped(s) && (forall i :: 0 <= i < |s.cores| ==> !Closing(s.cores[i])) ==> n < |s.dms| || |s.dms| == 0
  }

  ghost predicate SoftwareOk(s: State) {
    var n := Count(s.cores, Counted);
    s.start < W && s.iteration < W && AllInAtTheEnd(s, n) && OneCloses(s) && CounterIs(s, n) && SomeoneMissing(s, n)
  }

  ghost predicate Inv(s: State) {
    && Topology(s.cores, s.dms) && s.result == Added(s.cores) % W
    && (forall i :: 0 <= i < |s.cores| ==> CoreOk(s.cores[i], s))
    && HardwareOk(s) && SoftwareOk(s)
  }

  lemma InitInv(s: State)
    requires Init(s)
    ensures Inv(s)
  {
    NoneAdded(s.cores);
  }

  /** Nobody reads before everybody has added: the two levels of the barrier, composed. */
  lemma ReadersSeeAll(s: State, i: nat, j: nat)
    requires Inv(s) && i < |s.cores| && j < |s.cores| && 9 <= Pos(s.cores[i].pc)
    ensures 2 <= Pos(s.cores[j].pc)
  {
    // the DM core of i's cluster has left the software barrier
    var d := s.dms[s.cores[i].cluster];
    assert ClusterAt(s, i, 8);
    assert CoreOk(s.cores[d], s);
    assert Bumped(s);
    // so the DM core of j's cluster has entered it, past the first hardware barrier
    AllCounted(s.cores);
    var e := s.dms[s.cores[j].cluster];
    assert Counted(s.cores[e]);
    assert ClusterAt(s, e, 2);
  }

  // Facts about one core that every step preserves or that only its own step changes.
  lemma StepFrame(s: State, i: nat)
    requires Inv(s) && i < |s.cores| && CanStep(s, i)
    ensures var s' := Step(s, i); var c, c' := s.cores[i], s'.cores[i];
      && s'.cores == s.cores[i := c'] && s'.dms == s.dms && s'.start == s.start
      && c'.cluster == c.cluster && c'.dm == c.dm && c'.value == c.value
      && Pos(c.pc) <= Pos(c'.pc)
  {
  }

  lemma StepTopology(s: State, i: nat)
    requires Inv(s) && i < |s.cores| && CanStep(s, i)
    ensures Topology(Step(s, i).cores, s.dms)
  {
    StepFrame(s, i);
    CountUpdate(s.cores, i, Step(s, i).cores[i], IsDm);
  }

  lemma StepResult(s: State, i: nat)
    requires Inv(s) && i < |s.cores| && CanStep(s, i)
    ensures Step(s, i).result == Added(Step(s, i).cores) % W
    ensures Total(Step(s, i).cores) == Total(s.cores)
  {
    StepFrame(s, i);
    AddedUpdate(s.cores, i, Step(s, i).cores[i]);
  }

  lemma ClusterStays(s: State, i: nat, k: nat, pos: nat)
    requires Inv(s) && i < |s.cores| && k < |s.cores| && CanStep(s, i)
    requires ClusterAt(s, k, pos)
    ensures ClusterAt(Step(s, i), k, pos)
  {
    StepFrame(s, i);
    var s' := Step(s, i);
    forall j | 0 <= j < |s'.cores| && Same(s'.cores[k], s'.cores[j]) ensures pos <= Pos(s'.cores[j].pc) {
      assert Same(s.cores[k], s.cores[j]);
    }
  }

  lemma StepHardware(s: State, i: nat)
    requires Inv(s) && i < |s.cores| && CanStep(s, i)
    ensures HardwareOk(Step(s, i))
  {
    StepFrame(s, i);
    var s' := Step(s, i);
    forall k | 0 <= k < |s'.cores| && 3 <= Pos(s'.cores[k].pc) ensures ClusterAt(s', k, 2) {
      assert ClusterAt(s, k, 2);
      ClusterStays(s, i, k, 2);
    }
    forall k | 0 <= k < |s'.cores| && 9 <= Pos(s'.cores[k].pc) ensures ClusterAt(s', k, 8) {
      assert ClusterAt(s, k, 8);
      ClusterStays(s, i, k, 8);
    }
  }

  // One core takes one step: c to c', with n and then n' DM cores counted.
  ghost predicate OneStep(s: State, s': State, i: nat, n: nat, n': nat) {
    && i < |s.cores| && CanStep(s, i) && s' == Step(s, i) && |s'.cores| == |s.cores|
    && s'.cores == s.cores[i := s'.cores[i]] && s'.dms == s.dms && s'.start == s.start
    && n == Count(s.cores, Counted) <= |s.dms| && n' == Count(s'.cores, Counted) <= |s.dms|
    && n' == n + (if s.cores[i].pc.AddCnt? then 1 else 0)
    && CoreOk(s.cores[i], s) && s.start < W && s.iteration < W
  }

  lemma IsOneStep(s: State, i: nat) returns (n: nat, n': nat)
    requires Inv(s) && i < |s.cores| && CanStep(s, i)
    ensures OneStep(s, Step(s, i), i, n, n')
  {
    StepFrame(s, i);
    StepTopology(s, i);
    CountUpdate(s.cores, i, Step(s, i).cores[i], Counted);
    AllCounted(s.cores);
    AllCounted(Step(s, i).cores);
    n, n' := Count(s.cores, Counted), Count(Step(s, i).cores, Counted);
    assert CoreOk(s.cores[i], s);
  }

  lemma StepAllIn(s: State, s': State, i: nat, n: nat, n': nat)
    requires OneStep(s, s', i, n, n') && AllInAtTheEnd(s, n) && CounterIs(s, n) && OneCloses(s)
    requires forall k :: 0 <= k < |s.cores| ==> CoreOk(s.cores[k], s)
    ensures AllInAtTheEnd(s', n')
  {
    forall k | 0 <= k < |s'.cores| && Closing(s'.cores[k]) ensures n' == |s.dms| {
      if k != i { assert s.cores[k] == s'.cores[k]; }
    }
  }

  lemma StepOneCloses(s: State, s': State, i: nat, n: nat, n': nat)
    requires OneStep(s, s', i, n, n') && AllInAtTheEnd(s, n) && OneCloses(s)
    ensures OneCloses(s')
  {
    forall k, l | 0 <= k < l < |s'.cores| ensures !(Closing(s'.cores[k]) && Closing(s'.cores[l])) {
      if k != i { assert s.cores[k] == s'.cores[k]; }
      if l != i { assert s.cores[l] == s'.cores[l]; }
    }
  }

  lemma StepCounter(s: State, s': State, i: nat, n: nat, n': nat)
    requires OneStep(s, s', i, n, n') && AllInAtTheEnd(s, n) && CounterIs(s, n) && OneCloses(s)
    ensures CounterIs(s', n')
  {
    if !Bumped(s') && forall k :: 0 <= k < |s'.cores| ==> !s'.cores[k].pc.Bump? {
      assert !s'.cores[i].pc.Bump? && !s.cores[i].pc.Reset? && !s.cores[i].pc.Bump?;
      forall k | 0 <= k < |s.cores| ensures !s.cores[k].pc.Bump? {
        if k != i { assert s.cores[k] == s'.cores[k]; }
      }
    }
  }

  lemma StepMissing(s: State, s': State, i: nat, n: nat, n': nat)
    requires OneStep(s, s', i, n, n') && AllInAtTheEnd(s, n) && CounterIs(s, n) && OneCloses(s) && SomeoneMissing(s, n)
    ensures SomeoneMissing(s', n')
  {
    if !Bumped(s') && forall k :: 0 <= k < |s'.cores| ==> !Closing(s'.cores[k]) {
      assert !s.cores[i].pc.Reset? && !s.cores[i].pc.Bump?;
      forall k | 0 <= k < |s.cores| ensures !Closing(s.cores[k]) {
        if k != i { assert s.cores[k] == s'.cores[k]; }
      }
    }
  }

  lemma StepSoftware(s: State, i: nat)
    requires Inv(s) && i < |s.cores| && CanStep(s, i)
    ensures SoftwareOk(Step(s, i))
  {
    var n, n' := IsOneStep(s, i);
    StepAllIn(s, Step(s, i), i, n, n');
    StepOneCloses(s, Step(s, i), i, n, n');
    StepCounter(s, Step(s, i), i, n, n');
    StepMissing(s, Step(s, i), i, n, n');
  }

  lemma StepCores(s: State, i: nat, k: nat)
    requires Inv(s) && i < |s.cores| && k < |s.cores| && CanStep(s, i)
    ensures CoreOk(Step(s, i).cores[k], Step(s, i))
  {
    StepFrame(s, i);
    StepResult(s, i);
    AllCounted(s.cores);
    assert CoreOk(s.cores[k], s) && CoreOk(s.cores[i], s);
    if s.cores[i].pc.Read? {
      forall j | 0 <= j < |s.cores| ensures !s.cores[j].pc.AddValue? {
        ReadersSeeAll(s, i, j);
      }
      AllAdded(s.cores);
    }
  }

  lemma StepInv(s: State, i: nat)
    requires Inv(s) && i < |s.cores| && CanStep(s, i)
    ensures Inv(Step(s, i))
  {
    StepFrame(s, i);
    StepTopology(s, i);
    StepResult(s, i);
    StepHardware(s, i);
    StepSoftware(s, i);
    forall k | 0 <= k < |s.cores| ensures CoreOk(Step(s, i).cores[k], Step(s, i)) {
      StepCores(s, i, k);
    }
  }

  lemma NextInv(s: State, s': State)
    requires Inv(s) && Next(s, s')
    ensures Inv(s') && Total(s'.cores) == Total(s.cores)
  {
    var i: nat :| i < |s.cores| && CanStep(s, i) && s' == Step(s, i);
    StepInv(s, i);
    StepResult(s, i);
  }

  lemma {:induction false} RunInvariant(run: seq<State>, k: nat)
    requires IsRun(run) && k < |run|
    ensures Inv(run[k]) && Total(run[k].cores) == Total(run[0].cores)
  {
    if k == 0 {
      InitInv(run[0]);
    } else {
      RunInvariant(run, k - 1);
      NextInv(run[k - 1], run[k]);
    }
  }

  // ---------------------------------------------------------------- what every run satisfies

  /** Every core that returns, returns the sum modulo 2^32 of the contributions of all cores of all clusters. */
  lemma ReturnsTheSum(run: seq<State>, k: nat, i: nat)
    requires IsRun(run) && k < |run| && i < |run[k].cores| && run[k].cores[i].pc.Done?
    ensures run[k].cores[i].got == Total(run[0].cores) % W
  {
    RunInvariant(run, k);
    assert CoreOk(run[k].cores[i], run[k]);
  }

  /** The global barrier alone: a core that has left it has been preceded into it by every core of every cluster. */
  lemma GlobalBarrier(run: seq<State>, k: nat, i: nat, j: nat)
    requires IsRun(run) && k < |run| && i < |run[k].cores| && j < |run[k].cores|
    ensures run[k].cores[i].pc.Read? || run[k].cores[i].pc.Done? ==> 2 <= Pos(run[k].cores[j].pc)
  {
    RunInvariant(run, k);
    if run[k].cores[i].pc.Read? || run[k].cores[i].pc.Done? {
      ReadersSeeAll(run[k], i, j);
    }
  }

  // DM cores that have all been counted have also been released.
  lemma SpinningMeansReleased(s: State)
    requires Inv(s)
    requires forall i :: 0 <= i < |s.cores| ==> s.cores[i].pc.Spin? || s.cores[i].pc.Hw2Wait? || s.cores[i].pc.Done?
    ensures forall i :: 0 <= i < |s.cores| && s.cores[i].pc.Spin? ==> CanStep(s, i)
  {
    AllCounted(s.cores);
    forall d | 0 <= d < |s.cores| ensures s.cores[d].dm ==> Counted(s.cores[d]) {
      assert CoreOk(s.cores[d], s);
    }
    forall i | 0 <= i < |s.cores| && s.cores[i].pc.Spin? ensures CanStep(s, i) {
      assert CoreOk(s.cores[i], s);
    }
  }

  /** No deadlock: as long as some core has not returned, some core can step. */
  lemma NotStuck(run: seq<State>, k: nat)
    requires IsRun(run) && k < |run|
    requires forall i :: 0 <= i < |run[k].cores| ==> !CanStep(run[k], i)
    ensures forall i :: 0 <= i < |run[k].cores| ==> run[k].cores[i].pc.Done?
  {
    RunInvariant(run, k);
    var s := run[k];
    forall i | 0 <= i < |s.cores| ensures 2 <= Pos(s.cores[i].pc) {
      assert !CanStep(s, i);
    }
    forall i | 0 <= i < |s.cores| ensures s.cores[i].pc.Spin? || s.cores[i].pc.Hw2Wait? || s.cores[i].pc.Done? {
      assert !CanStep(s, i) && ClusterAt(s, i, 2);
    }
    SpinningMeansReleased(s);
    forall i | 0 <= i < |s.cores| ensures s.cores[i].pc.Done? {
      assert !CanStep(s, i) && ClusterAt(s, i, 8);
    }
  }

  // ---------------------------------------------------------------- all return

  // How far all cores have come together.
  function Way(cs: seq<Core>): nat {
    if cs == [] then 0 else Pos(cs[0].pc) + Way(cs[1..])
  }

  lemma {:induction false} WayUpdate(cs: seq<Core>, i: nat, c: Core)
    requires i < |cs|
    ensures Way(cs[i := c]) == Way(cs) - Pos(cs[i].pc) + Pos(c.pc)
  {
    if i == 0 {
      assert cs[i := c][1..] == cs[1..];
    } else {
      assert cs[i := c][1..] == cs[1..][i - 1 := c];
      WayUpdate(cs[1..], i - 1, c);
    }
  }

  lemma {:induction false} WayIsBounded(cs: seq<Core>)
    ensures Way(cs) <= 10 * |cs|
  {
    if cs == [] {
    } else {
      WayIsBounded(cs[1..]);
    }
  }

  lemma CoreGoesOn(s: State, i: nat)
    requires i < |s.cores| && !s.cores[i].pc.Done?
    ensures Step(s, i).cores == s.cores[i := Step(s, i).cores[i]] && Pos(s.cores[i].pc) < Pos(Step(s, i).cores[i].pc)
  {
  }

  lemma StepGoesOn(s: State, s': State)
    requires Next(s, s')
    ensures |s'.cores| == |s.cores| && Way(s.cores) < Way(s'.cores)
  {
    var i: nat :| i < |s.cores| && CanStep(s, i) && s' == Step(s, i);
    CoreGoesOn(s, i);
    WayUpdate(s.cores, i, s'.cores[i]);
  }

  /** In whatever order the cores are scheduled, they take at most ten steps each; by NotStuck all have returned then. */
  lemma {:induction false} ReductionEnds(run: seq<State>, k: nat)
    requires IsRun(run) && k < |run|
    ensures |run[k].cores| == |run[0].cores| && k <= Way(run[k].cores) <= 10 * |run[0].cores|
  {
    if k == 0 {
    } else {
      ReductionEnds(run, k - 1);
      assert Next(run[k - 1], run[k]);
      StepGoesOn(run[k - 1], run[k]);
    }
    WayIsBounded(run[k].cores);
  }
}
