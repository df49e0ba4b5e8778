// When the emulator succeeds: a call exactly when the instructions and the configuration its issue stems from have been
// queued by then, and an accepted configuration exactly when its FREP has been offloaded.
module FrepTiming {
  import Arith
  import opened Frep
  import opened FrepExpansion
  import opened FrepInterleaving

  // ---------------------------------------------------------------- what the first issues of a program need

  /** How many offloaded instructions and accepted configurations. */
  datatype Need = Need(entries: nat, cfgs: nat)

  function Plus(a: Need, b: Need): Need { Need(a.entries + b.entries, a.cfgs + b.cfgs) }

  /**
   * The first k > 0 issues of one item. Those of a loop need its FREP and its configuration, and an instruction of the
   * body for each issue until the body is complete.
   */
  function NeedOf(f: Item, k: nat): Need {
    if k == 0 then Need(0, 0)
    else match f
      case Single(_) => Need(1, 0)
      case Repeat(_, _, _, body) => Need(1 + Min(k, |body|), 1)
  }

  /** The first k issues of a program: all items but the last of them are needed whole. */
  function Needs(p: Program, k: nat): Need {
    if p == [] then Need(0, 0)
    else if k <= |Issues(p[0])| then NeedOf(p[0], k)
    else Plus(NeedOf(p[0], |Issues(p[0])|), Needs(p[1..], k - |Issues(p[0])|))
  }

  // ---------------------------------------------------------------- what the calls take out of the queues

  ghost predicate Takes(q: Queues, q': Queues, n: Need) {
    |q.fpssPcs| == |q'.fpssPcs| + n.entries && |q.cfgBuf| == |q'.cfgBuf| + n.cfgs
  }

  lemma NextStep(f: Item, k: nat, x: seq<Entry>, y: seq<Cfg>, permissive: bool)
    requires f.Repeat? && f.Valid() && k < |Expansion(f)|
    ensures Run(During(f, k, x, y), 1, permissive).0 == During(f, k + 1, x, y)
  {
    LoopStep(f, k, x, y, permissive);
    IterateOnce(Call(permissive), During(f, k, x, y));
  }

  lemma {:induction false} RunWithin(f: Item, k: nat, x: seq<Entry>, y: seq<Cfg>, permissive: bool)
    requires f.Repeat? && f.Valid() && k <= |Expansion(f)|
    ensures Run(During(f, 0, x, y), k, permissive).0 == During(f, k, x, y)
  {
    if k == 0 {
    } else {
      RunWithin(f, k - 1, x, y, permissive);
      NextStep(f, k - 1, x, y, permissive);
      IterateSplits(Call(permissive), During(f, 0, x, y), k - 1, 1);
    }
  }

  lemma ItemTakes(f: Item, k: nat, x: seq<Entry>, y: seq<Cfg>, permissive: bool)
    requires f.Valid() && k <= |Issues(f)|
    ensures var q := Queues(EntriesOf(f) + x, CfgsOf(f) + y, None); Takes(q, Run(q, k, permissive).0, NeedOf(f, k))
  {
    var q := Queues(EntriesOf(f) + x, CfgsOf(f) + y, None);
    if k == 0 {
    } else if f.Single? {
      RunSingle(f, x, y, permissive);
      assert CfgsOf(f) + y == y;
    } else {
      FirstCall(f, x, y, permissive);
      IterateSame(Call(permissive), q, During(f, 0, x, y), k);
      RunWithin(f, k, x, y, permissive);
      Arith.MulMono(|f.body|, 1, f.maxRpt + 1);
    }
  }

  lemma WholeItem(f: Item, x: seq<Entry>, y: seq<Cfg>, permissive: bool)
    requires f.Valid()
    ensures Run(Queues(EntriesOf(f) + x, CfgsOf(f) + y, None), |Issues(f)|, permissive).0 == Queues(x, y, None)
    ensures NeedOf(f, |Issues(f)|) == Need(|EntriesOf(f)|, |CfgsOf(f)|)
  {
    RunItem(f, x, y, permissive);
    if f.Repeat? { Arith.MulMono(|f.body|, 1, f.maxRpt + 1); }
  }

  lemma ExpandStep(p: Program)
    requires p != []
    ensures ExpandAll(p) == Issues(p[0]) + ExpandAll(p[1..])
  {
    FlatStep(IssuesOfEach(p));
    assert IssuesOfEach(p)[1..] == IssuesOfEach(p[1..]);
  }

  // The queues with a program in front of what else they hold.
  function Queued(p: Program, x: seq<Entry>, y: seq<Cfg>): Queues { Queues(Entries(p) + x, Cfgs(p) + y, None) }

  lemma FirstQueued(p: Program, x: seq<Entry>, y: seq<Cfg>)
    requires p != []
    ensures Queued(p, x, y) == Queues(EntriesOf(p[0]) + (Entries(p[1..]) + x), CfgsOf(p[0]) + (Cfgs(p[1..]) + y), None)
  {
    OneItemMore(p);
    ConcatAssoc(EntriesOf(p[0]), Entries(p[1..]), x);
    ConcatAssoc(CfgsOf(p[0]), Cfgs(p[1..]), y);
  }

  lemma FirstTakes(p: Program, k: nat, x: seq<Entry>, y: seq<Cfg>, permissive: bool)
    requires p != [] && k <= |Issues(p[0])|
    ensures Takes(Queued(p, x, y), Run(Queued(p, x, y), k, permissive).0, Needs(p, k))
  {
    FirstQueued(p, x, y);
    ItemTakes(p[0], k, Entries(p[1..]) + x, Cfgs(p[1..]) + y, permissive);
  }

  lemma FirstDone(p: Program, x: seq<Entry>, y: seq<Cfg>, permissive: bool)
    requires p != []
    ensures Run(Queued(p, x, y), |Issues(p[0])|, permissive).0 == Queued(p[1..], x, y)
  {
    FirstQueued(p, x, y);
    WholeItem(p[0], Entries(p[1..]) + x, Cfgs(p[1..]) + y, permissive);
  }

  lemma FirstNeeds(p: Program, x: seq<Entry>, y: seq<Cfg>, permissive: bool)
    requires p != []
    ensures Takes(Queued(p, x, y), Queued(p[1..], x, y), NeedOf(p[0], |Issues(p[0])|))
  {
    FirstQueued(p, x, y);
    WholeItem(p[0], Entries(p[1..]) + x, Cfgs(p[1..]) + y, permissive);
  }

  lemma RunSplits(q: Queues, m: nat, k: nat, permissive: bool)
    requires m <= k
    ensures Run(q, k, permissive).0 == Run(Run(q, m, permissive).0, k - m, permissive).0
  {
    IterateSplits(Call(permissive), q, m, k - m);
  }

  lemma FirstIsTaken(p: Program, k: nat, x: seq<Entry>, y: seq<Cfg>, permissive: bool)
    requires p != [] && |Issues(p[0])| <= k
    ensures Run(Queued(p, x, y), k, permissive).0 == Run(Queued(p[1..], x, y), k - |Issues(p[0])|, permissive).0
    ensures Takes(Queued(p, x, y), Queued(p[1..], x, y), NeedOf(p[0], |Issues(p[0])|))
  {
    FirstDone(p, x, y, permissive);
    FirstNeeds(p, x, y, permissive);
    RunSplits(Queued(p, x, y), |Issues(p[0])|, k, permissive);
  }

  lemma {:induction false} ProgramTakes(p: Program, k: nat, x: seq<Entry>, y: seq<Cfg>, permissive: bool)
    requires k <= |ExpandAll(p)|
    ensures Takes(Queued(p, x, y), Run(Queued(p, x, y), k, permissive).0, Needs(p, k))
    decreases |p|
  {
    if p == [] {
    } else if k <= |Issues(p[0])| {
      FirstTakes(p, k, x, y, permissive);
    } else {
      ExpandStep(p);
      FirstIsTaken(p, k, x, y, permissive);
      ProgramTakes(p[1..], k - |Issues(p[0])|, x, y, permissive);
    }
  }

  // ---------------------------------------------------------------- one call

  lemma DrainTakesNone(q: Queues, q': Queues, l: Loop)
    ensures Drain(q, l).0.fpssPcs == q.fpssPcs && Drain(q, l).0.cfgBuf == q.cfgBuf && Drain(q, l).1 == Drain(q', l).1
  {
  }

  // A loop still filling needs one more instruction, and a loop that is full needs nothing.
  lemma InLoopNeeds(q: Queues, l: Loop, x: seq<Entry>, y: seq<Cfg>, permissive: bool)
    requires Succeeded(InLoop(Extend(q, x, y), l, permissive).1)
    ensures Takes(Extend(q, x, y), InLoop(Extend(q, x, y), l, permissive).0, Need(if l.instIter <= l.cfg.maxInst then 1 else 0, 0))
    ensures Succeeded(InLoop(q, l, permissive).1) <==> l.instIter > l.cfg.maxInst || q.fpssPcs != []
  {
    var e := Extend(q, x, y);
    if l.instIter > l.cfg.maxInst {
      DrainTakesNone(e, q, l);
    } else if q.fpssPcs != [] {
      assert e.fpssPcs[0] == q.fpssPcs[0];
      DrainTakesNone(e.(fpssPcs := e.fpssPcs[1..]), q.(fpssPcs := q.fpssPcs[1..]), Load(l, q.fpssPcs[0]));
    } else {
      DrainTakesNone(e.(fpssPcs := e.fpssPcs[1..]), q, Load(l, e.fpssPcs[0]));
    }
  }

  lemma WithoutFirst(q: Queues, x: seq<Entry>, y: seq<Cfg>)
    requires q.fpssPcs != [] && q.cfgBuf != []
    ensures Extend(q.(fpssPcs := q.fpssPcs[1..], cfgBuf := q.cfgBuf[1..]), x, y)
         == Extend(q, x, y).(fpssPcs := (q.fpssPcs + x)[1..], cfgBuf := (q.cfgBuf + y)[1..])
  {
  }

  // From idle, with an FREP next: it is taken with its configuration and the first instruction of its body.
  lemma FrepNeeds(q: Queues, x: seq<Entry>, y: seq<Cfg>, permissive: bool)
    requires q.curr.None? && q.fpssPcs + x != [] && (q.fpssPcs + x)[0].isFrep
    requires Succeeded(Emul(Extend(q, x, y), permissive).1)
    ensures Takes(Extend(q, x, y), Emul(Extend(q, x, y), permissive).0, Need(2, 1))
    ensures Succeeded(Emul(q, permissive).1) <==> 2 <= |q.fpssPcs| && 1 <= |q.cfgBuf|
  {
    var e := Extend(q, x, y);
    var e', l := e.(fpssPcs := e.fpssPcs[1..], cfgBuf := e.cfgBuf[1..]), Loop(e.cfgBuf[0], 0, [], []);
    assert Emul(e, permissive) == InLoop(e', l, permissive);
    InLoopNeeds(e', l, [], [], permissive);
    assert Extend(e', [], []) == e';
    if q.fpssPcs != [] && q.cfgBuf != [] {
      WithoutFirst(q, x, y);
      InLoopNeeds(q.(fpssPcs := q.fpssPcs[1..], cfgBuf := q.cfgBuf[1..]), l, x, y, permissive);
    }
  }

  /** A call that succeeds with more in the queues succeeds without it exactly when it takes nothing of that. */
  lemma EmulNeeds(q: Queues, x: seq<Entry>, y: seq<Cfg>, n: Need, permissive: bool)
    requires Succeeded(Emul(Extend(q, x, y), permissive).1) && Takes(Extend(q, x, y), Emul(Extend(q, x, y), permissive).0, n)
    ensures Succeeded(Emul(q, permissive).1) <==> n.entries <= |q.fpssPcs| && n.cfgs <= |q.cfgBuf|
  {
    if q.curr.Some? {
      InLoopNeeds(q, q.curr.value, x, y, permissive);
    } else if (q.fpssPcs + x)[0].isFrep {
      FrepNeeds(q, x, y, permissive);
    }
  }

  // ---------------------------------------------------------------- one line of a trace

  /** The issues in a trace. */
  function IssueCount(evs: seq<Event>): nat {
    if evs == [] then 0 else IssueCount(evs[..|evs| - 1]) + if evs[|evs| - 1].Issue? then 1 else 0
  }

  lemma IssueCountNext(evs: seq<Event>, e: Event)
    ensures IssueCount(evs + [e]) == IssueCount(evs) + if e.Issue? then 1 else 0
  {
    assert (evs + [e])[..|evs|] == evs;
  }

  /** A line that comes when what it needs has come before it. */
  ghost predicate LineInTime(p: Program, before: seq<Event>, e: Event) {
    match e
    case Offload(_) => true
    case Accept(_) => |Accepts(before)| < |FrepPcs(Offloads(before))|
    case Issue =>
      var k := IssueCount(before) + 1;
      k <= |ExpandAll(p)| && Needs(p, k).entries <= |Offloads(before)| && Needs(p, k).cfgs <= |Accepts(before)|
  }

  /** So does every line of the trace. */
  ghost predicate InTime(p: Program, evs: seq<Event>) {
    forall i :: 0 <= i < |evs| ==> LineInTime(p, evs[..i], evs[i])
  }

  lemma InTimeNext(p: Program, evs: seq<Event>, e: Event)
    ensures InTime(p, evs + [e]) <==> InTime(p, evs) && LineInTime(p, evs, e)
  {
    forall i | 0 <= i < |evs| ensures (evs + [e])[..i] == evs[..i] && (evs + [e])[i] == evs[i] {
    }
    assert (evs + [e])[..|evs|] == evs && (evs + [e])[|evs|] == e;
    if InTime(p, evs + [e]) {
      forall i | 0 <= i < |evs| ensures LineInTime(p, evs[..i], evs[i]) {
        assert LineInTime(p, (evs + [e])[..i], (evs + [e])[i]);
      }
      assert LineInTime(p, (evs + [e])[..|evs|], (evs + [e])[|evs|]);
    }
  }

  // The lines are those of the program, as far as the trace goes.
  ghost predicate IsOf(p: Program, evs: seq<Event>) { Offloads(evs) <= Entries(p) && Accepts(evs) <= ParamsOf(p) }

  lemma {:induction false} ExpansionSucceeds(p: Program)
    ensures AllSucceed(ExpandAll(p))
  {
    if p == [] {
    } else {
      ExpansionSucceeds(p[1..]);
      ExpandStep(p);
    }
  }

  // Success in every line so far yields one outcome for each issue.
  lemma {:induction false} OutcomesAreIssues(step: Queues -> (Queues, Outcome), evs: seq<Event>)
    requires AllSucceed(Replay(step, evs).1)
    ensures |Replay(step, evs).1| == IssueCount(evs)
  {
    if evs == [] {
    } else {
      var es, e := evs[..|evs| - 1], evs[|evs| - 1];
      SuccessOfPrefix(Replay(step, es).1, Handle(step, Replay(step, es).0, e).1);
      OutcomesAreIssues(step, es);
      if e.Accept? { AcceptFindsFrep(step, Replay(step, es).0, e.params); }
    }
  }

  // The queues with everything of the program queued beforehand, after so many calls.
  function After(p: Program, k: nat, permissive: bool): Queues { Run(Queues(Entries(p), Cfgs(p), None), k, permissive).0 }

  // Where a trace in time has come to: its queues lack what has not been queued yet.
  ghost predicate Lacks(p: Program, evs: seq<Event>, q: Queues, x: seq<Entry>, y: seq<Cfg>, permissive: bool) {
    && Extend(q, x, y) == After(p, IssueCount(evs), permissive) && IssueCount(evs) <= |ExpandAll(p)|
    && |Offloads(evs)| + |x| == |Entries(p)| && |Accepts(evs)| + |y| == |Cfgs(p)|
  }

  lemma WhereItIs(p: Program, evs: seq<Event>, permissive: bool) returns (x: seq<Entry>, y: seq<Cfg>)
    requires IsOf(p, evs) && AllSucceed(Replay(Call(permissive), evs).1)
    ensures Lacks(p, evs, Replay(Call(permissive), evs).0.q, x, y, permissive)
  {
    var step, os := Call(permissive), Replay(Call(permissive), evs).1;
    forall q, x, y ensures Local(step, q, x, y) { EmulIsLocal(q, x, y, permissive); }
    PendingFreps(step, evs);
    FlatCfgsAfter(p, evs);
    x, y := Entries(p)[|Offloads(evs)|..], Cfgs(p)[|Accepts(evs)|..];
    ReplayAnticipates(step, evs, x, y);
    OutcomesAreIssues(step, evs);
    AnyInterleaving(p, evs, permissive);
  }

  lemma {:induction false} IterateNth<S, O>(step: S -> (S, O), s: S, os: seq<O>, k: nat)
    requires Iterate(step, s, |os|).1 == os && k < |os|
    ensures step(Iterate(step, s, k).0) == (Iterate(step, s, k + 1).0, os[k])
  {
    if k == 0 {
      IterateOnce(step, s);
    } else {
      IterateNth(step, step(s).0, os[1..], k - 1);
    }
  }

  lemma NextOutcome(p: Program, k: nat, permissive: bool)
    requires k < |ExpandAll(p)|
    ensures Call(permissive)(After(p, k, permissive)) == (After(p, k + 1, permissive), ExpandAll(p)[k])
    ensures Succeeded(ExpandAll(p)[k])
  {
    EmulatesProgram(p, [], [], permissive);
    assert Entries(p) + [] == Entries(p) && Cfgs(p) + [] == Cfgs(p);
    IterateNth(Call(permissive), Queues(Entries(p), Cfgs(p), None), ExpandAll(p), k);
    ExpansionSucceeds(p);
  }

  lemma TakenBy(p: Program, k: nat, permissive: bool)
    requires k <= |ExpandAll(p)|
    ensures Takes(Queues(Entries(p), Cfgs(p), None), After(p, k, permissive), Needs(p, k))
  {
    ProgramTakes(p, k, [], [], permissive);
    assert Entries(p) + [] == Entries(p) && Cfgs(p) + [] == Cfgs(p);
  }

  lemma AllTaken(p: Program, permissive: bool)
    ensures After(p, |ExpandAll(p)|, permissive) == Queues([], [], None)
  {
    EmulatesProgram(p, [], [], permissive);
    assert Entries(p) + [] == Entries(p) && Cfgs(p) + [] == Cfgs(p);
  }

  // What EmulNeeds says, for any step function.
  ghost predicate Frugal(step: Queues -> (Queues, Outcome), q: Queues, x: seq<Entry>, y: seq<Cfg>, n: Need) {
    Succeeded(step(Extend(q, x, y)).1) && Takes(Extend(q, x, y), step(Extend(q, x, y)).0, n) ==>
      (Succeeded(step(q).1) <==> n.entries <= |q.fpssPcs| && n.cfgs <= |q.cfgBuf|)
  }

  lemma EmulIsFrugal(q: Queues, x: seq<Entry>, y: seq<Cfg>, n: Need, permissive: bool)
    ensures Frugal(Call(permissive), q, x, y, n)
  {
    if Succeeded(Emul(Extend(q, x, y), permissive).1) && Takes(Extend(q, x, y), Emul(Extend(q, x, y), permissive).0, n) {
      EmulNeeds(q, x, y, n, permissive);
    }
  }

  // Between queues that lack x and y, the step succeeds exactly when what it takes in all is there.
  lemma StepSucceedsIff(step: Queues -> (Queues, Outcome), all: Queues, q: Queues, x: seq<Entry>, y: seq<Cfg>, q': Queues, r: Outcome,
                        n: Need, n': Need)
    requires step(Extend(q, x, y)) == (q', r) && Succeeded(r)
    requires Takes(all, Extend(q, x, y), n) && Takes(all, q', n')
    requires n.entries <= n'.entries && n.cfgs <= n'.cfgs ==> Frugal(step, q, x, y, Need(n'.entries - n.entries, n'.cfgs - n.cfgs))
    requires |q'.fpssPcs| <= |Extend(q, x, y).fpssPcs| && |q'.cfgBuf| <= |Extend(q, x, y).cfgBuf|
    ensures Succeeded(step(q).1) <==> n'.entries + |x| <= |all.fpssPcs| && n'.cfgs + |y| <= |all.cfgBuf|
  {
  }

  lemma EmulShrinks(q: Queues, permissive: bool)
    ensures |Emul(q, permissive).0.fpssPcs| <= |q.fpssPcs| && |Emul(q, permissive).0.cfgBuf| <= |q.cfgBuf|
  {
  }

  // The next issue with everything queued beforehand succeeds, and takes the difference of what is needed.
  lemma NextIssue(p: Program, k: nat, permissive: bool) returns (q': Queues, r: Outcome)
    requires k < |ExpandAll(p)|
    ensures Call(permissive)(After(p, k, permissive)) == (q', r) && Succeeded(r)
    ensures |q'.fpssPcs| <= |After(p, k, permissive).fpssPcs| && |q'.cfgBuf| <= |After(p, k, permissive).cfgBuf|
    ensures Takes(Queues(Entries(p), Cfgs(p), None), After(p, k, permissive), Needs(p, k))
    ensures Takes(Queues(Entries(p), Cfgs(p), None), q', Needs(p, k + 1))
  {
    NextOutcome(p, k, permissive);
    TakenBy(p, k, permissive);
    TakenBy(p, k + 1, permissive);
    EmulShrinks(After(p, k, permissive), permissive);
    q', r := After(p, k + 1, permissive), ExpandAll(p)[k];
  }

  lemma IssueSucceedsIff(p: Program, evs: seq<Event>, q: Queues, x: seq<Entry>, y: seq<Cfg>, permissive: bool)
    requires Lacks(p, evs, q, x, y, permissive) && IssueCount(evs) < |ExpandAll(p)|
    ensures Succeeded(Call(permissive)(q).1) <==> LineInTime(p, evs, Issue)
  {
    var k := IssueCount(evs);
    var q', r := NextIssue(p, k, permissive);
    var n, n' := Needs(p, k), Needs(p, k + 1);
    if n.entries <= n'.entries && n.cfgs <= n'.cfgs {
      EmulIsFrugal(q, x, y, Need(n'.entries - n.entries, n'.cfgs - n.cfgs), permissive);
    }
    StepSucceedsIff(Call(permissive), Queues(Entries(p), Cfgs(p), None), q, x, y, q', r, n, n');
  }

  // With all issues made there is nothing left to issue.
  lemma NoMoreIssues(p: Program, evs: seq<Event>, q: Queues, x: seq<Entry>, y: seq<Cfg>, permissive: bool)
    requires Lacks(p, evs, q, x, y, permissive) && IssueCount(evs) == |ExpandAll(p)|
    ensures !Succeeded(Call(permissive)(q).1) && !LineInTime(p, evs, Issue)
  {
    AllTaken(p, permissive);
    assert q == Queues([], [], None);
  }

  lemma IssueLine(step: Queues -> (Queues, Outcome), t: Annotator)
    ensures AllSucceed(Handle(step, t, Issue).1) <==> Succeeded(step(t.q).1)
  {
    assert Handle(step, t, Issue).1[0] == step(t.q).1;
  }

  lemma LineSucceedsIff(p: Program, evs: seq<Event>, e: Event, permissive: bool)
    requires IsOf(p, evs) && AllSucceed(Replay(Call(permissive), evs).1)
    ensures AllSucceed(Handle(Call(permissive), Replay(Call(permissive), evs).0, e).1) <==> LineInTime(p, evs, e)
  {
    var step, t := Call(permissive), Replay(Call(permissive), evs).0;
    match e
    case Offload(_) =>
    case Accept(a) =>
      PendingFreps(step, evs);
      if AllSucceed(Handle(step, t, e).1) { AcceptFindsFrep(step, t, a); }
    case Issue =>
      var x, y := WhereItIs(p, evs, permissive);
      IssueLine(step, t);
      if IssueCount(evs) == |ExpandAll(p)| {
        NoMoreIssues(p, evs, t.q, x, y, permissive);
      } else {
        IssueSucceedsIff(p, evs, t.q, x, y, permissive);
      }
  }

  lemma IsOfPrefix(p: Program, evs: seq<Event>, e: Event)
    requires IsOf(p, evs + [e])
    ensures IsOf(p, evs)
  {
    ReplayOneMore(Call(false), evs, e);
  }

  lemma SuccessJoins(a: seq<Outcome>, b: seq<Outcome>)
    ensures AllSucceed(a + b) <==> AllSucceed(a) && AllSucceed(b)
  {
    if AllSucceed(a + b) { SuccessOfPrefix(a, b); }
  }

  lemma {:induction false} SucceedsIff(p: Program, evs: seq<Event>, permissive: bool)
    requires IsOf(p, evs)
    ensures AllSucceed(Replay(Call(permissive), evs).1) <==> InTime(p, evs)
    decreases |evs|
  {
    if evs == [] {
    } else {
      var es, e := evs[..|evs| - 1], evs[|evs| - 1];
      assert evs == es + [e];
      IsOfPrefix(p, es, e);
      SucceedsIff(p, es, permissive);
      InTimeNext(p, es, e);
      SuccessJoins(Replay(Call(permissive), es).1, Handle(Call(permissive), Replay(Call(permissive), es).0, e).1);
      if AllSucceed(Replay(Call(permissive), es).1) { LineSucceedsIff(p, es, e, permissive); }
    }
  }

  /**
   * The emulator against any trace of a program: no line fails exactly when each comes after what it needs, and then the
   * issues are the first ones of the program's expansion; after the last of them all queues are empty.
   */
  lemma EmulatesTraceIff(p: Program, evs: seq<Event>, permissive: bool)
    requires IsOf(p, evs)
    ensures AllSucceed(Replay(Call(permissive), evs).1) <==> InTime(p, evs)
    ensures InTime(p, evs) ==> IssueCount(evs) <= |ExpandAll(p)| && Replay(Call(permissive), evs).1 == ExpandAll(p)[..IssueCount(evs)]
    ensures InTime(p, evs) && IssueCount(evs) == |ExpandAll(p)| ==> Replay(Call(permissive), evs).0 == IDLE && Offloads(evs) == Entries(p)
  {
    SucceedsIff(p, evs, permissive);
    if InTime(p, evs) {
      OutcomesAreIssues(Call(permissive), evs);
      AnyInterleaving(p, evs, permissive);
    }
  }
}
