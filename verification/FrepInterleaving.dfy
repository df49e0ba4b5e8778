// The emulator as the trace annotator drives it: the core offloads, the sequencer accepts configurations and
// the FPU issues, in whatever order the trace has them.
module FrepInterleaving {
  import opened Frep
  import opened FrepExpansion

  /** What the trace says of an accepted FREP; its program counter is not in the trace. */
  datatype Params = Params(outer: bool, maxInst: nat, maxRpt: nat)

  /** A trace line that touches the queues. */
  datatype Event =
    | Offload(entry: Entry)
    | Accept(params: Params)
    | Issue

  datatype Annotator = Annotator(q: Queues, fseqPcs: seq<int>)

  const IDLE := Annotator(Queues([], [], None), [])

  function Configured(pc: Option<int>, a: Params): Cfg { Cfg(pc, a.outer, a.maxInst, a.maxRpt) }

  function Handle(step: Queues -> (Queues, Outcome), t: Annotator, e: Event): (Annotator, seq<Outcome>) {
    match e
    case Offload(entry) =>
      (Annotator(t.q.(fpssPcs := t.q.fpssPcs + [entry]), if entry.isFrep then t.fseqPcs + [entry.pc] else t.fseqPcs), [])
    case Accept(a) =>
      var q := t.q.(cfgBuf := t.q.cfgBuf + [Configured(Oldest(t.fseqPcs), a)]);
      if t.fseqPcs == [] then (t.(q := q), [Underflow]) else (Annotator(q, t.fseqPcs[1..]), [])
    case Issue =>
      var r := step(t.q);
      (t.(q := r.0), [r.1])
  }

  function Replay(step: Queues -> (Queues, Outcome), evs: seq<Event>): (Annotator, seq<Outcome>) {
    if evs == [] then (IDLE, []) else
      var before := Replay(step, evs[..|evs| - 1]);
      var r := Handle(step, before.0, evs[|evs| - 1]);
      (r.0, before.1 + r.1)
  }

  ghost predicate AllSucceed(os: seq<Outcome>) { forall i :: 0 <= i < |os| ==> Succeeded(os[i]) }

  // ---------------------------------------------------------------- what a trace asks for

  function Offloads(evs: seq<Event>): seq<Entry> {
    if evs == [] then [] else
      var e := evs[|evs| - 1];
      Offloads(evs[..|evs| - 1]) + if e.Offload? then [e.entry] else []
  }

  function Accepts(evs: seq<Event>): seq<Params> {
    if evs == [] then [] else
      var e := evs[|evs| - 1];
      Accepts(evs[..|evs| - 1]) + if e.Accept? then [e.params] else []
  }

  // The program counters of the FREPs among the offloaded instructions.
  function FrepPcs(es: seq<Entry>): seq<int> {
    if es == [] then [] else (if es[0].isFrep then [es[0].pc] else []) + FrepPcs(es[1..])
  }

  function ParamsOfItem(f: Item): seq<Params>
    requires f.Valid()
  {
    if f.Repeat? then [Params(f.outer, |f.body| - 1, f.maxRpt)] else []
  }

  function ParamsOf(p: Program): seq<Params> {
    if p == [] then [] else ParamsOfItem(p[0]) + ParamsOf(p[1..])
  }

  function Paired(pcs: seq<int>, ps: seq<Params>): (r: seq<Cfg>)
    requires |ps| <= |pcs|
    ensures |r| == |ps|
  {
    seq(|ps|, i requires 0 <= i < |ps| => Configured(Some(pcs[i]), ps[i]))
  }

  lemma ConcatAssoc<T>(a: seq<T>, b: seq<T>, c: seq<T>)
    ensures (a + b) + c == a + (b + c)
  {
  }

  lemma {:induction false} FrepPcsConcat(a: seq<Entry>, b: seq<Entry>)
    ensures FrepPcs(a + b) == FrepPcs(a) + FrepPcs(b)
  {
    if a == [] {
      assert a + b == b;
    } else {
      FrepPcsConcat(a[1..], b);
      assert (a + b)[1..] == a[1..] + b && (a + b)[0] == a[0];
      ConcatAssoc(if a[0].isFrep then [a[0].pc] else [], FrepPcs(a[1..]), FrepPcs(b));
    }
  }

  lemma {:induction false} NoFrepInBody(es: seq<Entry>)
    requires forall i :: 0 <= i < |es| ==> !es[i].isFrep
    ensures FrepPcs(es) == []
  {
    if es == [] {
    } else {
      NoFrepInBody(es[1..]);
    }
  }

  lemma FrepPcsOfItem(f: Item)
    requires f.Valid()
    ensures FrepPcs(EntriesOf(f)) == if f.Repeat? then [f.frep.pc] else []
  {
    if f.Repeat? {
      NoFrepInBody(Offloaded(f.body));
      assert EntriesOf(f)[1..] == Offloaded(f.body);
    } else {
      NoFrepInBody(EntriesOf(f));
    }
  }

  lemma PairedConcat(a: seq<int>, b: seq<int>, c: seq<Params>, d: seq<Params>)
    requires |a| == |c| && |b| == |d|
    ensures Paired(a + b, c + d) == Paired(a, c) + Paired(b, d)
  {
  }

  lemma FlatStep<T>(ss: seq<seq<T>>)
    requires ss != []
    ensures Flat(ss) == ss[0] + Flat(ss[1..])
  {
  }

  lemma OneItemMore(p: Program)
    requires p != []
    ensures Entries(p) == EntriesOf(p[0]) + Entries(p[1..])
    ensures Cfgs(p) == CfgsOf(p[0]) + Cfgs(p[1..])
  {
    FlatStep(EntriesOfEach(p));
    FlatStep(CfgsOfEach(p));
    assert EntriesOfEach(p)[1..] == EntriesOfEach(p[1..]);
    assert CfgsOfEach(p)[1..] == CfgsOfEach(p[1..]);
  }

  lemma FirstIsPaired(f: Item, es: seq<Entry>, ps: seq<Params>)
    requires f.Valid() && |ps| == |FrepPcs(es)|
    ensures |ParamsOfItem(f) + ps| == |FrepPcs(EntriesOf(f) + es)|
    ensures Paired(FrepPcs(EntriesOf(f) + es), ParamsOfItem(f) + ps) == CfgsOf(f) + Paired(FrepPcs(es), ps)
  {
    FrepPcsOfItem(f);
    FrepPcsConcat(EntriesOf(f), es);
    PairedConcat(FrepPcs(EntriesOf(f)), FrepPcs(es), ParamsOfItem(f), ps);
  }

  // Accepted configurations are matched with FREPs in the order both appear in the program.
  lemma {:induction false} CfgsArePaired(p: Program)
    ensures |ParamsOf(p)| == |FrepPcs(Entries(p))|
    ensures Cfgs(p) == Paired(FrepPcs(Entries(p)), ParamsOf(p))
  {
    if p == [] {
    } else {
      CfgsArePaired(p[1..]);
      FirstIsPaired(p[0], Entries(p[1..]), ParamsOf(p[1..]));
      OneItemMore(p);
    }
  }

  // ---------------------------------------------------------------- interleavings

  function Extend(q: Queues, x: seq<Entry>, y: seq<Cfg>): Queues {
    Queues(q.fpssPcs + x, q.cfgBuf + y, q.curr)
  }

  // A call that succeeds does not depend on what is queued later.
  ghost predicate Local(step: Queues -> (Queues, Outcome), q: Queues, x: seq<Entry>, y: seq<Cfg>) {
    Succeeded(step(q).1) ==> step(Extend(q, x, y)) == (Extend(step(q).0, x, y), step(q).1)
  }

  lemma EmulIsLocal(q: Queues, x: seq<Entry>, y: seq<Cfg>, permissive: bool)
    ensures Local(Call(permissive), q, x, y)
  {
    var e := Extend(q, x, y);
    if q.fpssPcs != [] {
      assert e.fpssPcs[1..] == q.fpssPcs[1..] + x;
      if |q.fpssPcs| > 1 {
        assert e.fpssPcs[1..][1..] == q.fpssPcs[1..][1..] + x;
      }
    }
    if q.cfgBuf != [] {
      assert e.cfgBuf[1..] == q.cfgBuf[1..] + y;
    }
  }

  lemma ReplayOneMore(step: Queues -> (Queues, Outcome), evs: seq<Event>, e: Event)
    ensures Replay(step, evs + [e]).0 == Handle(step, Replay(step, evs).0, e).0
    ensures Replay(step, evs + [e]).1 == Replay(step, evs).1 + Handle(step, Replay(step, evs).0, e).1
    ensures Offloads(evs + [e]) == if e.Offload? then Offloads(evs) + [e.entry] else Offloads(evs)
    ensures Accepts(evs + [e]) == if e.Accept? then Accepts(evs) + [e.params] else Accepts(evs)
  {
    assert (evs + [e])[..|evs + [e]| - 1] == evs;
  }

  lemma AcceptFindsFrep(step: Queues -> (Queues, Outcome), t: Annotator, a: Params)
    requires AllSucceed(Handle(step, t, Accept(a)).1)
    ensures t.fseqPcs != []
  {
    assert t.fseqPcs == [] ==> !Succeeded(Handle(step, t, Accept(a)).1[0]);
  }

  lemma SuccessOfPrefix(a: seq<Outcome>, b: seq<Outcome>)
    requires AllSucceed(a + b)
    ensures AllSucceed(a) && AllSucceed(b)
  {
    assert forall i :: 0 <= i < |a| ==> (a + b)[i] == a[i];
    assert forall i :: 0 <= i < |b| ==> (a + b)[|a| + i] == b[i];
  }

  // What one line does to the FREPs not yet accepted, all but the first n of `pcs`.
  lemma PendingAfter(step: Queues -> (Queues, Outcome), t: Annotator, e: Event, pcs: seq<int>, n: nat)
    requires n <= |pcs| && t.fseqPcs == pcs[n..] && AllSucceed(Handle(step, t, e).1)
    ensures e.Accept? ==> n < |pcs|
    ensures Handle(step, t, e).0.fseqPcs ==
      if e.Offload? then (pcs + FrepPcs([e.entry]))[n..] else if e.Accept? then pcs[n + 1..] else pcs[n..]
  {
    match e
    case Offload(entry) =>
      assert FrepPcs([entry]) == if entry.isFrep then [entry.pc] else [];
      assert pcs[n..] + FrepPcs([entry]) == (pcs + FrepPcs([entry]))[n..];
    case Accept(a) =>
      AcceptFindsFrep(step, t, a);
      assert pcs[n..][1..] == pcs[n + 1..];
    case Issue =>
  }

  ghost predicate PendingAreLast(step: Queues -> (Queues, Outcome), evs: seq<Event>) {
    && |Accepts(evs)| <= |FrepPcs(Offloads(evs))|
    && Replay(step, evs).0.fseqPcs == FrepPcs(Offloads(evs))[|Accepts(evs)|..]
  }

  lemma PendingOneMore(step: Queues -> (Queues, Outcome), evs: seq<Event>, e: Event)
    requires PendingAreLast(step, evs) && AllSucceed(Handle(step, Replay(step, evs).0, e).1)
    ensures PendingAreLast(step, evs + [e])
  {
    ReplayOneMore(step, evs, e);
    if e.Offload? { FrepPcsConcat(Offloads(evs), [e.entry]); }
    PendingAfter(step, Replay(step, evs).0, e, FrepPcs(Offloads(evs)), |Accepts(evs)|);
  }

  // The FREPs not yet accepted are the last ones offloaded.
  lemma {:induction false} PendingFreps(step: Queues -> (Queues, Outcome), evs: seq<Event>)
    requires AllSucceed(Replay(step, evs).1)
    ensures PendingAreLast(step, evs)
    decreases |evs|
  {
    if evs == [] {
    } else {
      var es, e := evs[..|evs| - 1], evs[|evs| - 1];
      assert evs == es + [e];
      SuccessOfPrefix(Replay(step, es).1, Handle(step, Replay(step, es).0, e).1);
      PendingFreps(step, es);
      PendingOneMore(step, es, e);
    }
  }

  lemma PairedIgnores(pcs: seq<int>, more: seq<int>, ps: seq<Params>)
    requires |ps| <= |pcs|
    ensures Paired(pcs + more, ps) == Paired(pcs, ps)
  {
  }

  lemma PairedOneMore(pcs: seq<int>, ps: seq<Params>, a: Params)
    requires |ps| < |pcs|
    ensures Paired(pcs, ps + [a]) == Paired(pcs, ps) + [Configured(Some(pcs[|ps|]), a)]
  {
  }

  // Configurations accepted so far.
  function Accepted(evs: seq<Event>): seq<Cfg>
    requires |Accepts(evs)| <= |FrepPcs(Offloads(evs))|
  {
    Paired(FrepPcs(Offloads(evs)), Accepts(evs))
  }

  lemma AcceptedOneMore(evs: seq<Event>, e: Event)
    requires |Accepts(evs)| <= |FrepPcs(Offloads(evs))|
    requires e.Accept? ==> |Accepts(evs)| < |FrepPcs(Offloads(evs))|
    requires Offloads(evs + [e]) == if e.Offload? then Offloads(evs) + [e.entry] else Offloads(evs)
    requires Accepts(evs + [e]) == if e.Accept? then Accepts(evs) + [e.params] else Accepts(evs)
    ensures |Accepts(evs + [e])| <= |FrepPcs(Offloads(evs + [e]))|
    ensures Accepted(evs + [e]) ==
      if e.Accept? then Accepted(evs) + [Configured(Some(FrepPcs(Offloads(evs))[|Accepts(evs)|]), e.params)] else Accepted(evs)
  {
    var pcs, ps := FrepPcs(Offloads(evs)), Accepts(evs);
    if e.Offload? {
      FrepPcsConcat(Offloads(evs), [e.entry]);
      PairedIgnores(pcs, FrepPcs([e.entry]), ps);
    } else if e.Accept? {
      PairedOneMore(pcs, ps, e.params);
    }
  }

  // Issues do not depend on when the instructions and configurations they need were queued.
  ghost predicate Anticipated(step: Queues -> (Queues, Outcome), es: seq<Entry>, cs: seq<Cfg>, q: Queues, os: seq<Outcome>,
                              x: seq<Entry>, y: seq<Cfg>) {
    Iterate(step, Queues(es + x, cs + y, None), |os|) == (Extend(q, x, y), os)
  }

  lemma OneEntryLater(step: Queues -> (Queues, Outcome), es: seq<Entry>, cs: seq<Cfg>, q: Queues, os: seq<Outcome>,
                      x: seq<Entry>, y: seq<Cfg>, e: Entry)
    requires Anticipated(step, es, cs, q, os, [e] + x, y)
    ensures Anticipated(step, es + [e], cs, q.(fpssPcs := q.fpssPcs + [e]), os, x, y)
  {
    assert es + [e] + x == es + ([e] + x);
    assert q.fpssPcs + [e] + x == q.fpssPcs + ([e] + x);
  }

  lemma OneCfgLater(step: Queues -> (Queues, Outcome), es: seq<Entry>, cs: seq<Cfg>, q: Queues, os: seq<Outcome>,
                    x: seq<Entry>, y: seq<Cfg>, c: Cfg)
    requires Anticipated(step, es, cs, q, os, x, [c] + y)
    ensures Anticipated(step, es, cs + [c], q.(cfgBuf := q.cfgBuf + [c]), os, x, y)
  {
    assert cs + [c] + y == cs + ([c] + y);
    assert q.cfgBuf + [c] + y == q.cfgBuf + ([c] + y);
  }

  lemma OneIssueLater(step: Queues -> (Queues, Outcome), es: seq<Entry>, cs: seq<Cfg>, q: Queues, os: seq<Outcome>,
                      x: seq<Entry>, y: seq<Cfg>)
    requires Anticipated(step, es, cs, q, os, x, y)
    requires Succeeded(step(q).1) && Local(step, q, x, y)
    ensures Anticipated(step, es, cs, step(q).0, os + [step(q).1], x, y)
  {
    IterateOnce(step, Extend(q, x, y));
    IterateJoins(step, Queues(es + x, cs + y, None), Extend(q, x, y), Extend(step(q).0, x, y), os, [step(q).1]);
  }

  lemma {:induction false} ReplayAnticipates(step: Queues -> (Queues, Outcome), evs: seq<Event>, x: seq<Entry>, y: seq<Cfg>)
    requires forall q, x, y :: Local(step, q, x, y)
    requires AllSucceed(Replay(step, evs).1)
    ensures |Accepts(evs)| <= |FrepPcs(Offloads(evs))|
    ensures Anticipated(step, Offloads(evs), Accepted(evs), Replay(step, evs).0.q, Replay(step, evs).1, x, y)
    decreases |evs|
  {
    PendingFreps(step, evs);
    if evs == [] {
      assert Offloads(evs) + x == x && Accepted(evs) + y == y;
      assert Extend(Queues([], [], None), x, y) == Queues(x, y, None);
    } else {
      var es, e := evs[..|evs| - 1], evs[|evs| - 1];
      assert evs == es + [e];
      ReplayOneMore(step, es, e);
      var t, os := Replay(step, es).0, Replay(step, es).1;
      SuccessOfPrefix(os, Handle(step, t, e).1);
      PendingFreps(step, es);
      match e
      case Offload(entry) =>
        ReplayAnticipates(step, es, [entry] + x, y);
        AcceptedOneMore(es, e);
        assert os + [] == os;
        OneEntryLater(step, Offloads(es), Accepted(es), t.q, os, x, y, entry);
      case Accept(a) =>
        AcceptFindsFrep(step, t, a);
        var c := Configured(Some(FrepPcs(Offloads(es))[|Accepts(es)|]), a);
        ReplayAnticipates(step, es, x, [c] + y);
        AcceptedOneMore(es, e);
        assert os + [] == os;
        OneCfgLater(step, Offloads(es), Accepted(es), t.q, os, x, y, c);
      case Issue =>
        ReplayAnticipates(step, es, x, y);
        AcceptedOneMore(es, e);
        assert Succeeded(step(t.q).1) by { assert step(t.q).1 == Handle(step, t, e).1[0]; }
        assert Local(step, t.q, x, y);
        OneIssueLater(step, Offloads(es), Accepted(es), t.q, os, x, y);
    }
  }

  lemma PairedTail(pcs: seq<int>, more: seq<int>, ps: seq<Params>, all: seq<Params>)
    requires ps <= all && |ps| <= |pcs| && |all| == |pcs + more|
    ensures Paired(pcs, ps) + Paired(pcs + more, all)[|ps|..] == Paired(pcs + more, all)
  {
  }

  lemma {:induction false} FlatCfgsAfter(p: Program, evs: seq<Event>)
    requires Offloads(evs) <= Entries(p) && Accepts(evs) <= ParamsOf(p)
    requires |Accepts(evs)| <= |FrepPcs(Offloads(evs))|
    ensures |ParamsOf(p)| == |Cfgs(p)| == |FrepPcs(Entries(p))|
    ensures Offloads(evs) + Entries(p)[|Offloads(evs)|..] == Entries(p)
    ensures Accepted(evs) + Cfgs(p)[|Accepts(evs)|..] == Cfgs(p)
  {
    CfgsArePaired(p);
    var rest := Entries(p)[|Offloads(evs)|..];
    assert Offloads(evs) + rest == Entries(p);
    FrepPcsConcat(Offloads(evs), rest);
    PairedTail(FrepPcs(Offloads(evs)), FrepPcs(rest), Accepts(evs), ParamsOf(p));
  }

  // From idle the next call fails.
  lemma NotLonger(step: Queues -> (Queues, Outcome), q0: Queues, os: seq<Outcome>, all: seq<Outcome>)
    requires Iterate(step, q0, |os|).1 == os
    requires Iterate(step, q0, |all|) == (Queues([], [], None), all)
    requires !Succeeded(step(Queues([], [], None)).1)
    ensures AllSucceed(os) ==> |os| <= |all|
  {
    if |os| > |all| {
      IterateSplits(step, q0, |all|, |os| - |all|);
      assert os[|all|] == Iterate(step, Queues([], [], None), |os| - |all|).1[0];
    }
  }

  // Two runs from one state agree as far as the shorter one goes.
  lemma BothRuns(step: Queues -> (Queues, Outcome), q0: Queues, q: Queues, os: seq<Outcome>, all: seq<Outcome>)
    requires Iterate(step, q0, |os|) == (q, os)
    requires Iterate(step, q0, |all|) == (Queues([], [], None), all)
    requires AllSucceed(os) && !Succeeded(step(Queues([], [], None)).1)
    ensures os <= all
    ensures os == all ==> q == Queues([], [], None)
  {
    NotLonger(step, q0, os, all);
    IterateSplits(step, q0, |os|, |all| - |os|);
  }

  /** However the core, the sequencer and the FPU interleave, the issues are those of the program, in order. */
  lemma AnyInterleaving(p: Program, evs: seq<Event>, permissive: bool)
    requires Offloads(evs) <= Entries(p) && Accepts(evs) <= ParamsOf(p)
    requires AllSucceed(Replay(Call(permissive), evs).1)
    ensures Replay(Call(permissive), evs).1 <= ExpandAll(p)
    ensures Replay(Call(permissive), evs).1 == ExpandAll(p) ==>
              Replay(Call(permissive), evs).0 == IDLE && Offloads(evs) == Entries(p)
  {
    var step, os, q := Call(permissive), Replay(Call(permissive), evs).1, Replay(Call(permissive), evs).0.q;
    forall q, x, y ensures Local(step, q, x, y) { EmulIsLocal(q, x, y, permissive); }
    PendingFreps(step, evs);
    FlatCfgsAfter(p, evs);
    var x, y := Entries(p)[|Offloads(evs)|..], Cfgs(p)[|Accepts(evs)|..];
    ReplayAnticipates(step, evs, x, y);
    EmulatesProgram(p, [], [], permissive);
    assert Entries(p) + [] == Entries(p) && Cfgs(p) + [] == Cfgs(p);
    BothRuns(step, Queues(Entries(p), Cfgs(p), None), Extend(q, x, y), os, ExpandAll(p));
  }

  function StateOf(s: Sequencer): Annotator
    reads s
  {
    Annotator(s.State(), s.fseqPcs)
  }

  /** One trace line, as annotate_insn treats it. */
  method AnnotateLine(s: Sequencer, e: Event, permissive: bool) returns (os: seq<Outcome>)
    modifies s
    ensures (StateOf(s), os) == Handle(Call(permissive), old(StateOf(s)), e)
  {
    os := [];
    match e
    case Offload(entry) =>
      s.Offload(entry.pc, entry.sec, entry.isFrep);
      assert Entry(entry.pc, entry.sec, entry.isFrep) == entry;
    case Accept(a) =>
      var ok := s.CbufPush(a.outer, a.maxInst, a.maxRpt);
      if !ok {
        os := [Underflow];
      }
    case Issue =>
      var r := s.EmulSeq(permissive);
      os := [r];
  }

  /** The annotator's loop: it stops at the first line that finds a queue empty or a nested FREP. */
  method Annotate(s: Sequencer, evs: seq<Event>, permissive: bool) returns (os: seq<Outcome>, handled: nat)
    requires StateOf(s) == IDLE
    modifies s
    ensures handled <= |evs|
    ensures (StateOf(s), os) == Replay(Call(permissive), evs[..handled])
    ensures AllSucceed(os) ==> handled == |evs|
  {
    os, handled := [], 0;
    while handled < |evs|
      invariant handled <= |evs|
      invariant (StateOf(s), os) == Replay(Call(permissive), evs[..handled])
      invariant AllSucceed(os)
    {
      var e := evs[handled];
      assert evs[..handled + 1] == evs[..handled] + [e];
      ReplayOneMore(Call(permissive), evs[..handled], e);
      var r := AnnotateLine(s, e, permissive);
      os, handled := os + r, handled + 1;
      if r != [] && !Succeeded(r[0]) {
        assert os[|os| - 1] == r[0];
        return;
      }
    }
    assert evs[..handled] == evs;
  }
}
