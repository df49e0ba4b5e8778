// The reusable software barrier of sync.h (snrt_partial_barrier): n harts, unboundedly many
// rounds, every access to the shared words `cnt` and `iteration` a step of its own.
module Barrier {
  import opened Arith

  datatype Pc =
    | Outside    // not in the barrier; the next step is the call
    | ReadIter   // prev_it = barr->iteration
    | Add        // cnt = ++barr->cnt
    | Reset      // the last to arrive: barr->cnt = 0
    | Bump       // ++barr->iteration, and leave
    | Spin       // wait until barr->iteration differs from prev_it, then leave

  // A hart, with (history variable) the number of rounds it has left.
  datatype Hart = Hart(pc: Pc, prev: nat, done: nat)

  // snrt_barrier_t, the harts, and (history variable) the number of rounds released.
  datatype State = State(cnt: nat, iteration: nat, harts: seq<Hart>, rounds: nat)

  ghost predicate Init(s: State) {
    && 0 < |s.harts| && s.cnt == 0 && s.rounds == 0 && s.iteration == 0
    && forall i :: 0 <= i < |s.harts| ==> s.harts[i].pc == Outside && s.harts[i].done == 0
  }

  predicate CanStep(s: State, i: nat)
    requires i < |s.harts|
  {
    s.harts[i].pc == Spin ==> s.harts[i].prev != s.iteration
  }

  function Step(s: State, i: nat): State
    requires i < |s.harts| && CanStep(s, i)
  {
    var h := s.harts[i];
    match h.pc
    case Outside => s.(harts := s.harts[i := h.(pc := ReadIter)])
    case ReadIter => s.(harts := s.harts[i := h.(pc := Add, prev := s.iteration)])
    case Add => s.(cnt := s.cnt + 1, harts := s.harts[i := h.(pc := if s.cnt + 1 == |s.harts| then Reset else Spin)])
    case Reset => s.(cnt := 0, harts := s.harts[i := h.(pc := Bump)])
    case Bump => s.(iteration := (s.iteration + 1) % W, rounds := s.rounds + 1,
                    harts := s.harts[i := h.(pc := Outside, done := h.done + 1)])
    case Spin => s.(harts := s.harts[i := h.(pc := Outside, done := h.done + 1)])
  }

  ghost predicate Next(s: State, s': State) {
    exists i: nat :: i < |s.harts| && CanStep(s, i) && s' == Step(s, i)
  }

  ghost predicate IsRun(run: seq<State>) {
    && 0 < |run| && Init(run[0])
    && forall k :: 0 <= k < |run| - 1 ==> Next(run[k], run[k + 1])
  }

  // ---------------------------------------------------------------- the invariant

  /** The rounds this hart has entered: those it has left, and the one in which it has been counted. */
  function Entered(h: Hart): nat {
    if h.pc.Spin? || h.pc.Reset? || h.pc.Bump? then h.done + 1 else h.done
  }

  // How many harts have arrived in the round now open.
  function Arrived(hs: seq<Hart>, rounds: nat): (c: nat)
    ensures c <= |hs|
  {
    if hs == [] then 0 else (if Entered(hs[0]) == rounds + 1 then 1 else 0) + Arrived(hs[1..], rounds)
  }

  lemma {:induction false} ArrivedUpdate(hs: seq<Hart>, i: nat, h: Hart, rounds: nat)
    requires i < |hs|
    ensures Arrived(hs[i := h], rounds)
         == Arrived(hs, rounds) - (if Entered(hs[i]) == rounds + 1 then 1 else 0) + (if Entered(h) == rounds + 1 then 1 else 0)
  {
    if i == 0 {
      assert hs[i := h][1..] == hs[1..];
    } else {
      assert hs[i := h][1..] == hs[1..][i - 1 := h];
      ArrivedUpdate(hs[1..], i - 1, h, rounds);
    }
  }

  lemma {:induction false} ArrivedAll(hs: seq<Hart>, rounds: nat)
    ensures Arrived(hs, rounds) == |hs| <==> forall i :: 0 <= i < |hs| ==> Entered(hs[i]) == rounds + 1
  {
    if hs == [] {
    } else {
      ArrivedAll(hs[1..], rounds);
      if forall i :: 0 <= i < |hs| ==> Entered(hs[i]) == rounds + 1 {
        assert forall i :: 0 <= i < |hs[1..]| ==> Entered(hs[1..][i]) == rounds + 1;
      } else {
        var i :| 0 <= i < |hs| && Entered(hs[i]) != rounds + 1;
        if i > 0 { assert Entered(hs[1..][i - 1]) != rounds + 1; }
      }
    }
  }

  lemma {:induction false} ArrivedNone(hs: seq<Hart>, rounds: nat)
    requires forall i :: 0 <= i < |hs| ==> Entered(hs[i]) != rounds + 1
    ensures Arrived(hs, rounds) == 0
  {
    if hs == [] {
    } else {
      ArrivedNone(hs[1..], rounds);
    }
  }

  // A hart is in the open round, or still spinning on the one just released.
  predicate HartOk(h: Hart, rounds: nat) {
    if h.done == rounds then
      h.pc.Add? || h.pc.Spin? ==> h.prev == rounds % W
    else
      h.done + 1 == rounds && h.pc.Spin? && h.prev == h.done % W
  }

  // Someone has seen the count reach n.
  predicate Closing(h: Hart) { h.pc.Reset? || h.pc.Bump? }

  ghost predicate Inv(s: State) {
    && 0 < |s.harts| && s.iteration == s.rounds % W
    && (forall i :: 0 <= i < |s.harts| ==> HartOk(s.harts[i], s.rounds))
    && (forall i, j :: 0 <= i < j < |s.harts| ==> !(Closing(s.harts[i]) && Closing(s.harts[j])))
    && (forall i :: 0 <= i < |s.harts| && Closing(s.harts[i]) ==> Arrived(s.harts, s.rounds) == |s.harts|)
    && (forall i :: 0 <= i < |s.harts| && s.harts[i].pc.Bump? ==> s.cnt == 0)
    && ((forall i :: 0 <= i < |s.harts| ==> !s.harts[i].pc.Bump?) ==> s.cnt == Arrived(s.harts, s.rounds))
    && ((forall i :: 0 <= i < |s.harts| ==> !Closing(s.harts[i])) ==> Arrived(s.harts, s.rounds) < |s.harts|)
  }

  lemma InitInv(s: State)
    requires Init(s)
    ensures Inv(s)
  {
    ArrivedNone(s.harts, 0);
  }

  lemma AddInv(s: State, i: nat)
    requires Inv(s) && i < |s.harts| && s.harts[i].pc.Add?
    ensures Inv(Step(s, i))
  {
    ArrivedUpdate(s.harts, i, Step(s, i).harts[i], s.rounds);
    ArrivedAll(s.harts, s.rounds);
    assert Entered(s.harts[i]) != s.rounds + 1;
  }

  lemma NextWord(n: nat)
    ensures (n % W + 1) % W == (n + 1) % W
  {
  }

  // Releasing the round: every hart has arrived in it, so none is in the next.
  lemma BumpInv(s: State, i: nat)
    requires Inv(s) && i < |s.harts| && s.harts[i].pc.Bump?
    ensures Inv(Step(s, i))
  {
    var s' := Step(s, i);
    ArrivedAll(s.harts, s.rounds);
    NextWord(s.rounds);
    forall k | 0 <= k < |s'.harts| ensures HartOk(s'.harts[k], s'.rounds) && !Closing(s'.harts[k]) {
      assert HartOk(s.harts[k], s.rounds);
    }
    ArrivedNone(s'.harts, s'.rounds);
  }

  lemma SpinInv(s: State, i: nat)
    requires Inv(s) && i < |s.harts| && s.harts[i].pc.Spin? && CanStep(s, i)
    ensures Inv(Step(s, i))
  {
    var s' := Step(s, i);
    assert HartOk(s.harts[i], s.rounds);
    assert s.harts[i].done + 1 == s.rounds;
    ArrivedUpdate(s.harts, i, s'.harts[i], s.rounds);
    assert forall j :: 0 <= j < |s.harts| ==> s'.harts[j] == s.harts[j] || (j == i && !Closing(s'.harts[j]));
    if forall j :: 0 <= j < |s'.harts| ==> !Closing(s'.harts[j]) {
      assert forall j :: 0 <= j < |s.harts| ==> s.harts[j] == s'.harts[j] || j == i;
      assert !Closing(s.harts[i]);
    }
    if forall j :: 0 <= j < |s'.harts| ==> !s'.harts[j].pc.Bump? {
      assert forall j :: 0 <= j < |s.harts| ==> s.harts[j] == s'.harts[j] || j == i;
    }
  }

  lemma StepInv(s: State, i: nat)
    requires Inv(s) && i < |s.harts| && CanStep(s, i)
    ensures Inv(Step(s, i))
  {
    ArrivedUpdate(s.harts, i, Step(s, i).harts[i], s.rounds);
    ArrivedAll(s.harts, s.rounds);
    match s.harts[i].pc
    case Outside => 
    case ReadIter =>
    case Add => AddInv(s, i);
    case Reset =>
    case Bump => BumpInv(s, i);
    case Spin => SpinInv(s, i);
  }

  lemma NextInv(s: State, s': State)
    requires Inv(s) && Next(s, s')
    ensures Inv(s')
  {
    var i: nat :| i < |s.harts| && CanStep(s, i) && s' == Step(s, i);
    StepInv(s, i);
  }

  lemma {:induction false} RunInvariant(run: seq<State>, k: nat)
    requires IsRun(run) && k < |run|
    ensures Inv(run[k])
  {
    if k == 0 {
      InitInv(run[0]);
    } else {
      RunInvariant(run, k - 1);
      NextInv(run[k - 1], run[k]);
    }
  }

  // ---------------------------------------------------------------- what every run satisfies

  /**
   * It is a barrier: no hart has left a round that some hart has not entered, and no two harts are more than one
   * round apart. `iteration` wraps at 2^32 without effect on either.
   */
  lemma Separates(run: seq<State>, k: nat, i: nat, j: nat)
    requires IsRun(run) && k < |run| && i < |run[k].harts| && j < |run[k].harts|
    ensures run[k].harts[i].done <= Entered(run[k].harts[j])
    ensures run[k].harts[i].done <= run[k].harts[j].done + 1
  {
    RunInvariant(run, k);
    assert HartOk(run[k].harts[i], run[k].rounds) && HartOk(run[k].harts[j], run[k].rounds);
  }

  /** Resetting `cnt` loses no arrival: the hart that does it is alone in closing the round, and all the others wait in it. */
  lemma ResetIsSafe(run: seq<State>, k: nat, i: nat, j: nat)
    requires IsRun(run) && k < |run| && i < |run[k].harts| && j < |run[k].harts| && i != j
    requires Closing(run[k].harts[i])
    ensures run[k].harts[j].pc.Spin? && run[k].harts[j].done == run[k].harts[i].done
  {
    RunInvariant(run, k);
    ArrivedAll(run[k].harts, run[k].rounds);
    assert HartOk(run[k].harts[i], run[k].rounds) && HartOk(run[k].harts[j], run[k].rounds);
  }

  /** This hart has yet to enter the round, or is about to release it. */
  predicate Owes(h: Hart, round: nat) { Entered(h) <= round || Closing(h) }

  /**
   * A hart waits only for a reason, so no reachable state is stuck: some hart that can step has not entered the round,
   * or is about to release it.
   */
  lemma SpinsForAReason(run: seq<State>, k: nat, i: nat)
    requires IsRun(run) && k < |run| && i < |run[k].harts|
    requires !CanStep(run[k], i)
    ensures exists j :: 0 <= j < |run[k].harts| && CanStep(run[k], j) && Owes(run[k].harts[j], run[k].harts[i].done)
  {
    RunInvariant(run, k);
    var s := run[k];
    if forall j :: 0 <= j < |s.harts| ==> !Closing(s.harts[j]) {
      ArrivedAll(s.harts, s.rounds);
      var j :| 0 <= j < |s.harts| && Entered(s.harts[j]) != s.rounds + 1;
      assert HartOk(s.harts[j], s.rounds);
    }
  }

  // ---------------------------------------------------------------- calls

  lemma {:induction false} HartsStay(run: seq<State>, k: nat)
    requires IsRun(run) && k < |run|
    ensures |run[k].harts| == |run[0].harts|
  {
    if k == 0 {
    } else {
      HartsStay(run, k - 1);
      assert Next(run[k - 1], run[k]);
    }
  }

  /** All states of a run have the harts of its first one. */
  ghost predicate SameHarts(run: seq<State>) {
    forall k :: 0 <= k < |run| ==> |run[k].harts| == |run[0].harts|
  }

  lemma RunHasSameHarts(run: seq<State>)
    requires IsRun(run)
    ensures SameHarts(run)
  {
    forall k: nat | k < |run| ensures |run[k].harts| == |run[0].harts| {
      HartsStay(run, k);
    }
  }

  function Bit(b: bool): nat { if b then 1 else 0 }

  /** How often hart i has called the barrier by state k. */
  ghost function Calls(run: seq<State>, k: nat, i: nat): nat
    requires SameHarts(run) && k < |run| && i < |run[0].harts|
  {
    if k == 0 then 0
    else Calls(run, k - 1, i) + Bit(run[k - 1].harts[i].pc.Outside? && !run[k].harts[i].pc.Outside?)
  }

  /** How often it has returned. */
  ghost function Returns(run: seq<State>, k: nat, i: nat): nat
    requires SameHarts(run) && k < |run| && i < |run[0].harts|
  {
    if k == 0 then 0
    else Returns(run, k - 1, i) + Bit(!run[k - 1].harts[i].pc.Outside? && run[k].harts[i].pc.Outside?)
  }

  lemma StepDone(s: State, s': State, i: nat)
    requires Next(s, s') && i < |s.harts|
    ensures i < |s'.harts|
    ensures s'.harts[i].done == s.harts[i].done + Bit(!s.harts[i].pc.Outside? && s'.harts[i].pc.Outside?)
  {
  }

  // The rounds a hart has left are its returns, and it has called once more when it is inside.
  lemma {:induction false} DoneIsReturns(run: seq<State>, k: nat, i: nat)
    requires IsRun(run) && SameHarts(run) && k < |run| && i < |run[0].harts|
    ensures Returns(run, k, i) == run[k].harts[i].done
    ensures Calls(run, k, i) == Returns(run, k, i) + Bit(!run[k].harts[i].pc.Outside?)
  {
    if k == 0 {
    } else {
      DoneIsReturns(run, k - 1, i);
      assert Next(run[k - 1], run[k]);
      StepDone(run[k - 1], run[k], i);
    }
  }

  /** The barrier to its callers: when a hart has returned so many times, every hart has called as many times. */
  lemma NoneAhead(run: seq<State>, k: nat, i: nat, j: nat)
    requires IsRun(run) && k < |run| && i < |run[0].harts| && j < |run[0].harts|
    ensures SameHarts(run) && Returns(run, k, i) <= Calls(run, k, j)
  {
    RunHasSameHarts(run);
    DoneIsReturns(run, k, i);
    DoneIsReturns(run, k, j);
    Separates(run, k, i, j);
  }

  // ---------------------------------------------------------------- calls return

  // Steps left to a hart before it is outside.
  function StepsLeft(h: Hart): nat {
    match h.pc
    case Outside => 0 case ReadIter => 4 case Add => 3 case Reset => 2 case Bump => 1 case Spin => 1
  }

  function Work(hs: seq<Hart>): nat {
    if hs == [] then 0 else StepsLeft(hs[0]) + Work(hs[1..])
  }

  lemma {:induction false} WorkUpdate(hs: seq<Hart>, i: nat, h: Hart)
    requires i < |hs|
    ensures Work(hs[i := h]) == Work(hs) - StepsLeft(hs[i]) + StepsLeft(h)
  {
    if i == 0 {
      assert hs[i := h][1..] == hs[1..];
    } else {
      assert hs[i := h][1..] == hs[1..][i - 1 := h];
      WorkUpdate(hs[1..], i - 1, h);
    }
  }

  lemma {:induction false} NoWork(hs: seq<Hart>)
    requires forall i :: 0 <= i < |hs| ==> hs[i].pc.Outside?
    ensures Work(hs) == 0
  {
    if hs == [] {
    } else {
      NoWork(hs[1..]);
    }
  }

  ghost predicate Enters(s: State, s': State) {
    |s.harts| == |s'.harts| && exists i :: 0 <= i < |s.harts| && s.harts[i].pc.Outside? && !s'.harts[i].pc.Outside?
  }

  /** The calls of all harts together in the first k steps. */
  ghost function AllCalls(run: seq<State>, k: nat): nat
    requires k < |run|
  {
    if k == 0 then 0 else AllCalls(run, k - 1) + Bit(Enters(run[k - 1], run[k]))
  }

  lemma StepWorks(s: State, s': State)
    requires Next(s, s')
    ensures Work(s'.harts) + 1 <= Work(s.harts) + 5 * Bit(Enters(s, s'))
  {
    var i: nat :| i < |s.harts| && CanStep(s, i) && s' == Step(s, i);
    WorkUpdate(s.harts, i, s'.harts[i]);
    if s.harts[i].pc.Outside? { assert Enters(s, s'); }
  }

  /** A call takes at most five steps, not counting those of a hart that has nothing to do but spin. */
  lemma {:induction false} StepsAreBounded(run: seq<State>, k: nat)
    requires IsRun(run) && k < |run|
    ensures k + Work(run[k].harts) <= 5 * AllCalls(run, k)
  {
    if k == 0 {
      NoWork(run[0].harts);
    } else {
      StepsAreBounded(run, k - 1);
      assert Next(run[k - 1], run[k]);
      StepWorks(run[k - 1], run[k]);
    }
  }

  /** Nothing more happens unless a hart calls the barrier. */
  predicate AtRest(s: State) {
    forall i :: 0 <= i < |s.harts| ==> s.harts[i].pc.Outside? || !CanStep(s, i)
  }

  // Then some hart is outside that has left every round released so far.
  lemma SomeoneIsMissing(s: State) returns (j: nat)
    requires Inv(s) && AtRest(s)
    ensures j < |s.harts| && s.harts[j].pc.Outside?
    ensures forall i :: 0 <= i < |s.harts| ==> s.harts[i].done == s.rounds
  {
    forall i | 0 <= i < |s.harts| ensures s.harts[i].done == s.rounds && !Closing(s.harts[i]) {
      assert HartOk(s.harts[i], s.rounds);
    }
    ArrivedAll(s.harts, s.rounds);
    j :| 0 <= j < |s.harts| && Entered(s.harts[j]) != s.rounds + 1;
  }

  /**
   * Calls return: when those steps are used up, some hart has called no more often than every hart has returned, so
   * whoever still waits, waits for that one's next call.
   */
  lemma AllReleased(run: seq<State>, k: nat)
    requires IsRun(run) && k < |run| && AtRest(run[k])
    ensures SameHarts(run)
    ensures exists j: nat :: j < |run[0].harts| && forall i: nat :: i < |run[0].harts| ==> Calls(run, k, j) <= Returns(run, k, i)
  {
    RunHasSameHarts(run);
    RunInvariant(run, k);
    var j := SomeoneIsMissing(run[k]);
    DoneIsReturns(run, k, j);
    forall i: nat | i < |run[0].harts| ensures Calls(run, k, j) <= Returns(run, k, i) {
      DoneIsReturns(run, k, i);
    }
  }
}
