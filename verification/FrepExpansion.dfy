// What the FPU should be seen to issue for a program with hardware loops, and that the emulator says so:
// first with the queues filled beforehand, then for every interleaving of the core, the sequencer and the FPU.
module FrepExpansion {
  import Arith
  import opened Frep

  datatype Insn = Insn(pc: int, sec: int)

  /** A program as the FPU sees it: plain instructions, and hardware loops over plain instructions. */
  datatype Item =
    | Single(insn: Insn)
    | Repeat(frep: Insn, outer: bool, maxRpt: nat, body: seq<Insn>)
  {
    // The body of an FREP holds max_inst + 1 instructions, so it is never empty.
    predicate Valid() { Repeat? ==> body != [] }
  }

  type Program = p: seq<Item> | forall i :: 0 <= i < |p| ==> p[i].Valid()

  // ---------------------------------------------------------------- the reference

  lemma DivInRange(t: nat, n: nat, m: nat)
    requires t < n * m
    ensures n > 0 && m > 0
    ensures t / n < m && t / m < n
    ensures t == (t / n) * n + t % n == (t / m) * m + t % m
  {
    if n == 0 || m == 0 { assert false; }
    if t / n >= m { Arith.MulMono(n, m, t / n); }
    if t / m >= n { Arith.MulMono(m, n, t / m); }
  }

  /** Where issue t of a loop with n instructions and m repetitions comes from, as (repetition, index). */
  function Position(outer: bool, n: nat, m: nat, t: nat): (r: (nat, nat))
    requires t < n * m
    ensures r.0 < m && r.1 < n
    ensures t == if outer then r.0 * n + r.1 else r.1 * m + r.0
  {
    DivInRange(t, n, m);
    if outer then (t / n, t % n) else (t % m, t / m)
  }

  /** Outer loops repeat the body; inner loops repeat each instruction before the next one. */
  function Expansion(f: Item): (e: seq<Slot>)
    requires f.Repeat?
    ensures |e| == |f.body| * (f.maxRpt + 1)
  {
    seq(|f.body| * (f.maxRpt + 1), t requires 0 <= t < |f.body| * (f.maxRpt + 1) =>
      var (rep, idx) := Position(f.outer, |f.body|, f.maxRpt + 1, t);
      Slot(f.body[idx].pc, f.body[idx].sec, rep, idx))
  }

  function Issues(f: Item): (r: seq<Outcome>)
    ensures f.Repeat? ==> |r| == |f.body| * (f.maxRpt + 1)
  {
    match f
    case Single(insn) => [Plain(insn.pc, insn.sec)]
    case Repeat(frep, _, _, _) =>
      seq(|Expansion(f)|, t requires 0 <= t < |Expansion(f)| =>
        var b := Expansion(f)[t];
        Looped(b.pc, b.sec, frep.pc, b.rep, b.idx))
  }

  function Flat<T>(ss: seq<seq<T>>): seq<T> {
    if ss == [] then [] else ss[0] + Flat(ss[1..])
  }

  function IssuesOfEach(p: seq<Item>): (r: seq<seq<Outcome>>)
    ensures |r| == |p|
  {
    seq(|p|, i requires 0 <= i < |p| => Issues(p[i]))
  }

  function ExpandAll(p: seq<Item>): seq<Outcome> {
    Flat(IssuesOfEach(p))
  }

  // ---------------------------------------------------------------- what the queues receive

  function Offloaded(body: seq<Insn>): (r: seq<Entry>)
    ensures |r| == |body|
  {
    seq(|body|, i requires 0 <= i < |body| => Entry(body[i].pc, body[i].sec, false))
  }

  /** The core offloads the FREP, then its body. */
  function EntriesOf(f: Item): seq<Entry> {
    match f
    case Single(insn) => [Entry(insn.pc, insn.sec, false)]
    case Repeat(frep, _, _, body) => [Entry(frep.pc, frep.sec, true)] + Offloaded(body)
  }

  function EntriesOfEach(p: seq<Item>): (r: seq<seq<Entry>>)
    ensures |r| == |p|
  {
    seq(|p|, i requires 0 <= i < |p| => EntriesOf(p[i]))
  }

  function Entries(p: seq<Item>): seq<Entry> {
    Flat(EntriesOfEach(p))
  }

  function CfgOf(f: Item): Cfg
    requires f.Repeat? && f.Valid()
  {
    Cfg(Some(f.frep.pc), f.outer, |f.body| - 1, f.maxRpt)
  }

  function CfgsOf(f: Item): seq<Cfg>
    requires f.Valid()
  {
    if f.Repeat? then [CfgOf(f)] else []
  }

  function CfgsOfEach(p: Program): (r: seq<seq<Cfg>>)
    ensures |r| == |p|
  {
    seq(|p|, i requires 0 <= i < |p| => CfgsOf(p[i]))
  }

  function Cfgs(p: Program): seq<Cfg> {
    Flat(CfgsOfEach(p))
  }

  // ---------------------------------------------------------------- arithmetic of positions

  lemma PositionUnique(outer: bool, n: nat, m: nat, rep: nat, idx: nat)
    requires rep < m && idx < n
    ensures var t := if outer then rep * n + idx else idx * m + rep;
            t < n * m && Position(outer, n, m, t) == (rep, idx)
  {
    Arith.MulMono(n, rep + 1, m);
    Arith.MulMono(m, idx + 1, n);
    if outer {
      Arith.ModUnique(rep * n + idx, rep, idx, n);
    } else {
      Arith.ModUnique(idx * m + rep, idx, rep, m);
    }
  }

  // Only the last issue of a loop carries the tag that ends it.
  lemma OnlyLastEnds(f: Item, t: nat)
    requires f.Repeat? && f.Valid() && t < |Expansion(f)|
    ensures var b := Expansion(f)[t];
            (b.rep == f.maxRpt && b.idx == |f.body| - 1) <==> t == |Expansion(f)| - 1
  {
    var n, m := |f.body|, f.maxRpt + 1;
    PositionUnique(f.outer, n, m, m - 1, n - 1);
    assert (m - 1) * n + (n - 1) == n * m - 1 == (n - 1) * m + (m - 1);
  }

  // ---------------------------------------------------------------- the loop buffers in closed form

  lemma ElementAt(f: Item, rep: nat, idx: nat, t: nat)
    requires f.Repeat? && rep <= f.maxRpt && idx < |f.body|
    requires t == if f.outer then rep * |f.body| + idx else idx * (f.maxRpt + 1) + rep
    ensures t < |Expansion(f)| && Expansion(f)[t] == Slot(f.body[idx].pc, f.body[idx].sec, rep, idx)
  {
    PositionUnique(f.outer, |f.body|, f.maxRpt + 1, rep, idx);
  }

  lemma OnePass(f: Item, body: seq<Slot>, rep: nat, at: nat)
    requires f.Repeat? && f.outer && rep <= f.maxRpt && at == rep * |body|
    requires |body| == |f.body|
    requires forall i :: 0 <= i < |body| ==> body[i].pc == f.body[i].pc && body[i].sec == f.body[i].sec
    ensures at + |body| == (rep + 1) * |body| <= |Expansion(f)|
    ensures Expansion(f)[at..at + |body|] == Pass(body, rep)
  {
    Arith.MulMono(|body|, rep + 1, f.maxRpt + 1);
    Arith.Distribute(rep, 1, |body|);
    forall i | 0 <= i < |body| ensures Expansion(f)[at + i] == Pass(body, rep)[i] {
      ElementAt(f, rep, i, at + i);
    }
  }

  lemma SplitRest<T>(s: seq<T>, i: nat, j: nat)
    requires i <= j <= |s|
    ensures s[i..] == s[i..j] + s[j..]
  {
  }

  lemma {:induction false} PassesAre(f: Item, body: seq<Slot>, rep: nat, at: nat)
    requires f.Repeat? && f.outer && rep <= f.maxRpt + 1 && at == rep * |body|
    requires |body| == |f.body|
    requires forall i :: 0 <= i < |body| ==> body[i].pc == f.body[i].pc && body[i].sec == f.body[i].sec
    ensures at <= |Expansion(f)| && Passes(body, rep, f.maxRpt) == Expansion(f)[at..]
    decreases f.maxRpt + 1 - rep
  {
    if rep == f.maxRpt + 1 {
    } else {
      OnePass(f, body, rep, at);
      PassesAre(f, body, rep + 1, at + |body|);
      SplitRest(Expansion(f), at, at + |body|);
    }
  }

  lemma {:induction false} HoldAt(e: Entry, idx: nat, rep: nat, maxRpt: nat, r: nat)
    requires rep <= maxRpt && r < maxRpt + 1 - rep
    ensures Hold(e, idx, rep, maxRpt)[r] == Slot(e.pc, e.sec, rep + r, idx)
    decreases maxRpt - rep
  {
    if r == 0 {
    } else {
      HoldAt(e, idx, rep + 1, maxRpt, r - 1);
    }
  }

  lemma HoldIs(f: Item, k: nat, at: nat)
    requires f.Repeat? && !f.outer && k < |f.body| && at == k * (f.maxRpt + 1)
    ensures at + (f.maxRpt + 1) == (k + 1) * (f.maxRpt + 1) <= |Expansion(f)|
    ensures Hold(Offloaded(f.body)[k], k, 0, f.maxRpt) == Expansion(f)[at..at + (f.maxRpt + 1)]
  {
    var m := f.maxRpt + 1;
    Arith.MulMono(m, k + 1, |f.body|);
    Arith.Distribute(k, 1, m);
    var h := Hold(Offloaded(f.body)[k], k, 0, f.maxRpt);
    forall r | 0 <= r < m ensures h[r] == Expansion(f)[at + r] {
      HoldAt(Offloaded(f.body)[k], k, 0, f.maxRpt, r);
      ElementAt(f, r, k, at + r);
    }
  }

  // ---------------------------------------------------------------- one loop

  function Min(a: nat, b: nat): nat { if a < b then a else b }

  /** The state of the loop buffers after k issues of a loop. */
  function Midway(f: Item, k: nat): Loop
    requires f.Repeat? && f.Valid() && k <= |Expansion(f)|
  {
    var e, n, m := Expansion(f), |f.body|, f.maxRpt + 1;
    Arith.MulMono(n, 1, m);
    if k >= n then
      Loop(CfgOf(f), n, e[k..], if f.outer then e[..n] else [])
    else if f.outer then
      Loop(CfgOf(f), k, [], e[..k])
    else
      Arith.MulBounds(k, 1, k, m);
      Arith.MulMono(m, k, n);
      Loop(CfgOf(f), k, e[k..k * m], [])
  }

  // Taking instruction k of the body into the buffers leaves issue k at the front.
  ghost predicate LoadsInOrder(f: Item, k: nat)
    requires f.Repeat? && f.Valid() && k < |f.body| <= |Expansion(f)|
  {
    var l := Load(Midway(f, k), Offloaded(f.body)[k]);
    l.fpssBuf != [] && l.fpssBuf[0] == Expansion(f)[k] && l.(fpssBuf := l.fpssBuf[1..]) == Midway(f, k + 1)
  }

  lemma OuterLoads(f: Item, k: nat)
    requires f.Repeat? && f.outer && k < |f.body| <= |Expansion(f)|
    ensures LoadsInOrder(f, k)
  {
    var e, n := Expansion(f), |f.body|;
    ElementAt(f, 0, k, k);
    assert e[..k] + [e[k]] == e[..k + 1];
    if k + 1 == n {
      forall i | 0 <= i < n ensures e[..n][i].pc == f.body[i].pc && e[..n][i].sec == f.body[i].sec {
        ElementAt(f, 0, i, i);
      }
      PassesAre(f, e[..n], 1, n);
      assert Passes(e[..n], 1, f.maxRpt) == e[n..];
      assert [] + [e[k]] + e[n..] == e[k..];
    }
  }

  lemma InnerBounds(k: nat, m: nat)
    requires m > 0
    ensures k <= k * m && k + 1 <= k * m + m
  {
    Arith.MulMono(k, 1, m);
  }

  // The rest of instruction k's predecessors in the buffer, and its own m slots behind them.
  lemma NextHeld(e: seq<Slot>, k: nat, at: nat, m: nat)
    requires k <= at && k + 1 <= at + m <= |e|
    ensures e[k..at] + e[at..at + m] == e[k..at + m]
    ensures e[k..at + m][0] == e[k] && e[k..at + m][1..] == e[k + 1..at + m]
    ensures at + m == |e| ==> e[k + 1..at + m] == e[k + 1..]
  {
  }

  lemma InnerLoads(f: Item, k: nat)
    requires f.Repeat? && !f.outer && k < |f.body| <= |Expansion(f)|
    ensures LoadsInOrder(f, k)
  {
    var m := f.maxRpt + 1;
    InnerBounds(k, m);
    HoldIs(f, k, k * m);
    NextHeld(Expansion(f), k, k * m, m);
  }

  /** The queues after k issues of a loop. */
  function During(f: Item, k: nat, x: seq<Entry>, y: seq<Cfg>): Queues
    requires f.Repeat? && f.Valid() && k <= |Expansion(f)|
  {
    Queues(Offloaded(f.body)[Min(k, |f.body|)..] + x, y, if k < |Expansion(f)| then Some(Midway(f, k)) else None)
  }

  lemma LoopStep(f: Item, k: nat, x: seq<Entry>, y: seq<Cfg>, permissive: bool)
    requires f.Repeat? && f.Valid() && k < |Expansion(f)|
    ensures Emul(During(f, k, x, y), permissive) == (During(f, k + 1, x, y), Issues(f)[k])
  {
    var q, e, n, m := During(f, k, x, y), Expansion(f), |f.body|, f.maxRpt + 1;
    Arith.MulMono(n, 1, m);
    OnlyLastEnds(f, k);
    if k < n {
      if f.outer { OuterLoads(f, k); } else { InnerLoads(f, k); }
      assert q.fpssPcs[1..] == Offloaded(f.body)[k + 1..] + x;
    }
  }

  // ---------------------------------------------------------------- whole programs

  /** m calls in a row. */
  function Iterate<S, O>(step: S -> (S, O), s: S, m: nat): (r: (S, seq<O>))
    ensures |r.1| == m
    decreases m
  {
    if m == 0 then (s, []) else
      var first := step(s);
      var rest := Iterate(step, first.0, m - 1);
      (rest.0, [first.1] + rest.1)
  }

  lemma {:induction false} IterateSplits<S, O>(step: S -> (S, O), s: S, a: nat, b: nat)
    ensures Iterate(step, s, a + b).0 == Iterate(step, Iterate(step, s, a).0, b).0
    ensures Iterate(step, s, a + b).1 == Iterate(step, s, a).1 + Iterate(step, Iterate(step, s, a).0, b).1
    decreases a
  {
    if a == 0 {
    } else {
      IterateSplits(step, step(s).0, a - 1, b);
    }
  }

  lemma IterateJoins<S, O>(step: S -> (S, O), s0: S, s1: S, s2: S, os1: seq<O>, os2: seq<O>)
    requires Iterate(step, s0, |os1|) == (s1, os1)
    requires Iterate(step, s1, |os2|) == (s2, os2)
    ensures Iterate(step, s0, |os1| + |os2|) == (s2, os1 + os2)
  {
    IterateSplits(step, s0, |os1|, |os2|);
  }

  function Call(permissive: bool): Queues -> (Queues, Outcome) {
    (q: Queues) => Emul(q, permissive)
  }

  function Run(q: Queues, m: nat, permissive: bool): (Queues, seq<Outcome>) {
    Iterate(Call(permissive), q, m)
  }

  lemma {:induction false} RunLoop(f: Item, k: nat, x: seq<Entry>, y: seq<Cfg>, permissive: bool)
    requires f.Repeat? && f.Valid() && k <= |Expansion(f)|
    ensures Run(During(f, k, x, y), |Expansion(f)| - k, permissive) == (Queues(x, y, None), Issues(f)[k..])
    decreases |Expansion(f)| - k
  {
    var n := |f.body|;
    Arith.MulMono(n, 1, f.maxRpt + 1);
    if k == |Expansion(f)| {
      assert Offloaded(f.body)[n..] + x == x;
      assert Issues(f)[k..] == [];
    } else {
      LoopStep(f, k, x, y, permissive);
      RunLoop(f, k + 1, x, y, permissive);
      assert [Issues(f)[k]] + Issues(f)[k + 1..] == Issues(f)[k..];
    }
  }

  lemma IterateOnce<S, O>(step: S -> (S, O), s: S)
    ensures Iterate(step, s, 1) == (step(s).0, [step(s).1])
  {
    assert Iterate(step, step(s).0, 0) == (step(s).0, []);
    assert [step(s).1] + [] == [step(s).1];
  }

  lemma RunSingle(f: Item, x: seq<Entry>, y: seq<Cfg>, permissive: bool)
    requires f.Single?
    ensures Run(Queues(EntriesOf(f) + x, y, None), 1, permissive) == (Queues(x, y, None), Issues(f))
  {
    var q := Queues(EntriesOf(f) + x, y, None);
    assert q.fpssPcs[1..] == x;
    assert Emul(q, permissive) == (Queues(x, y, None), Issues(f)[0]);
    IterateOnce(Call(permissive), q);
    assert Issues(f) == [Issues(f)[0]];
  }

  lemma EntersLoop(e: Entry, es: seq<Entry>, c: Cfg, cs: seq<Cfg>, permissive: bool)
    requires e.isFrep
    ensures Emul(Queues([e] + es, [c] + cs, None), permissive) == InLoop(Queues(es, cs, None), Loop(c, 0, [], []), permissive)
  {
    assert ([e] + es)[1..] == es && ([c] + cs)[1..] == cs;
  }

  lemma CurrIsSet(q: Queues, l: Loop, permissive: bool)
    ensures InLoop(q, l, permissive) == InLoop(q.(curr := Some(l)), l, permissive)
  {
  }

  // The first call consumes the FREP and then behaves as any call within the loop.
  lemma FirstCall(f: Item, x: seq<Entry>, y: seq<Cfg>, permissive: bool)
    requires f.Repeat? && f.Valid()
    ensures |Expansion(f)| > 0
    ensures Emul(Queues(EntriesOf(f) + x, [CfgOf(f)] + y, None), permissive) == Emul(During(f, 0, x, y), permissive)
  {
    Arith.MulMono(|f.body|, 1, f.maxRpt + 1);
    var e, es, l := Entry(f.frep.pc, f.frep.sec, true), Offloaded(f.body)[0..] + x, Loop(CfgOf(f), 0, [], []);
    assert EntriesOf(f) + x == [e] + es;
    EntersLoop(e, es, CfgOf(f), y, permissive);
    CurrIsSet(Queues(es, y, None), l, permissive);
    assert Midway(f, 0) == l;
  }

  lemma IterateSame<S, O>(step: S -> (S, O), s: S, t: S, m: nat)
    requires step(s) == step(t) && m > 0
    ensures Iterate(step, s, m) == Iterate(step, t, m)
  {
    var rest := Iterate(step, step(s).0, m - 1);
    assert Iterate(step, s, m) == (rest.0, [step(s).1] + rest.1);
  }

  lemma RunRepeat(f: Item, x: seq<Entry>, y: seq<Cfg>, permissive: bool)
    requires f.Repeat? && f.Valid()
    ensures Run(Queues(EntriesOf(f) + x, [CfgOf(f)] + y, None), |Expansion(f)|, permissive) == (Queues(x, y, None), Issues(f))
  {
    FirstCall(f, x, y, permissive);
    IterateSame(Call(permissive), Queues(EntriesOf(f) + x, [CfgOf(f)] + y, None), During(f, 0, x, y), |Expansion(f)|);
    RunLoop(f, 0, x, y, permissive);
  }

  lemma RunItem(f: Item, x: seq<Entry>, y: seq<Cfg>, permissive: bool)
    requires f.Valid()
    ensures Run(Queues(EntriesOf(f) + x, CfgsOf(f) + y, None), |Issues(f)|, permissive) == (Queues(x, y, None), Issues(f))
  {
    if f.Repeat? {
      RunRepeat(f, x, y, permissive);
    } else {
      RunSingle(f, x, y, permissive);
      assert CfgsOf(f) + y == y;
    }
  }

  // What RunItem says, for any stretch of the queues and any step function.
  ghost predicate Consumes(step: Queues -> (Queues, Outcome), e: seq<Entry>, c: seq<Cfg>, o: seq<Outcome>,
                           x: seq<Entry>, y: seq<Cfg>) {
    Iterate(step, Queues(e + x, c + y, None), |o|) == (Queues(x, y, None), o)
  }

  lemma {:induction false} ConsumesAll(step: Queues -> (Queues, Outcome), es: seq<seq<Entry>>, cs: seq<seq<Cfg>>,
                                       os: seq<seq<Outcome>>, x: seq<Entry>, y: seq<Cfg>)
    requires |es| == |cs| == |os|
    requires forall i, x, y :: 0 <= i < |es| ==> Consumes(step, es[i], cs[i], os[i], x, y)
    ensures Consumes(step, Flat(es), Flat(cs), Flat(os), x, y)
  {
    if es == [] {
      assert Flat(es) + x == x && Flat(cs) + y == y;
    } else {
      forall i, x, y | 0 <= i < |es[1..]| ensures Consumes(step, es[1..][i], cs[1..][i], os[1..][i], x, y) {
        assert Consumes(step, es[i + 1], cs[i + 1], os[i + 1], x, y);
      }
      ConsumesAll(step, es[1..], cs[1..], os[1..], x, y);
      var x1, y1 := Flat(es[1..]) + x, Flat(cs[1..]) + y;
      assert Consumes(step, es[0], cs[0], os[0], x1, y1);
      IterateJoins(step, Queues(es[0] + x1, cs[0] + y1, None), Queues(x1, y1, None), Queues(x, y, None), os[0], Flat(os[1..]));
      assert Flat(es) + x == es[0] + x1;
      assert Flat(cs) + y == cs[0] + y1;
    }
  }

  /** With everything queued, the emulator emits the expansion of the program and returns to idle. */
  lemma EmulatesProgram(p: Program, x: seq<Entry>, y: seq<Cfg>, permissive: bool)
    ensures Run(Queues(Entries(p) + x, Cfgs(p) + y, None), |ExpandAll(p)|, permissive)
         == (Queues(x, y, None), ExpandAll(p))
  {
    var es, cs, os := EntriesOfEach(p), CfgsOfEach(p), IssuesOfEach(p);
    forall i, x, y | 0 <= i < |es| ensures Consumes(Call(permissive), es[i], cs[i], os[i], x, y) {
      RunItem(p[i], x, y, permissive);
    }
    ConsumesAll(Call(permissive), es, cs, os, x, y);
  }
}
