// Stream semantic registers: the strides written by the loop set-up functions, and the addresses a stream visits.
module Ssr {
  import opened Arith

  const LOOPS: nat := 4

  // ---------------------------------------------------------------- loop nests

  // A position of a loop nest: idx[d] counts loop d, which runs from 0 to b[d] - 1; loop 0 is the innermost.
  predicate InBox(idx: seq<nat>, b: seq<nat>) {
    |idx| == |b| && forall d :: 0 <= d < |b| ==> idx[d] < b[d]
  }

  /** Number of positions, and number of positions before this one in lexicographic order, outermost loop first. */
  function Volume(b: seq<nat>): nat {
    if b == [] then 1 else b[0] * Volume(b[1..])
  }

  function Rank(idx: seq<nat>, b: seq<nat>): nat
    requires |idx| == |b|
  {
    if b == [] then 0 else idx[0] + b[0] * Rank(idx[1..], b[1..])
  }

  /** The displacement of a position: the sum of idx[d] * s[d]. */
  function Displacement(idx: seq<nat>, s: seq<int>): int
    requires |idx| == |s|
  {
    if s == [] then 0 else idx[0] * s[0] + Displacement(idx[1..], s[1..])
  }

  // ---------------------------------------------------------------- what the data mover does

  // The next position: loops that are at their end start over, the first one that is not is advanced.
  function Advance(idx: seq<nat>, bounds: seq<nat>): (r: seq<nat>)
    requires |idx| == |bounds|
    ensures |r| == |idx|
  {
    if idx == [] then []
    else if idx[0] == bounds[0] then [0] + Advance(idx[1..], bounds[1..])
    else [idx[0] + 1] + idx[1..]
  }

  // The stride of the outermost loop that changes.
  function Selected(idx: seq<nat>, bounds: seq<nat>, strides: seq<nat>): nat
    requires |idx| == |bounds| == |strides|
  {
    if idx == [] then 0
    else if idx[0] == bounds[0] then Selected(idx[1..], bounds[1..], strides[1..])
    else strides[0]
  }

  /** Registers: bounds and repetitions hold counts less one, strides are relative to the position before. */
  datatype Config = Config(bounds: seq<nat>, strides: seq<nat>, repeat: nat)
  {
    predicate Valid() { |bounds| == |strides| == LOOPS }
  }

  // A stream in progress; rep counts how often the current element has been delivered.
  datatype Stream = Stream(ptr: nat, idx: seq<nat>, rep: nat)

  function Begin(base: nat): Stream { Stream(base % W, [0, 0, 0, 0], 0) }

  function Step(c: Config, t: Stream): Stream
    requires c.Valid() && |t.idx| == LOOPS
  {
    if t.rep < c.repeat then t.(rep := t.rep + 1)
    else Stream((t.ptr + Selected(t.idx, c.bounds, c.strides)) % W, Advance(t.idx, c.bounds), 0)
  }

  /** The stream after n elements have been taken from it. */
  function After(c: Config, base: nat, n: nat): (t: Stream)
    requires c.Valid()
    ensures |t.idx| == LOOPS
  {
    if n == 0 then Begin(base) else Step(c, After(c, base, n - 1))
  }

  // ---------------------------------------------------------------- what the set-up writes

  function Counts(b: seq<nat>): (r: seq<nat>)
    ensures |r| == |b|
  {
    seq(|b|, d requires 0 <= d < |b| => (b[d] - 1) % W)
  }

  /** What a stride register keeps of the word written to it: addresses of doubles, so not the low three bits. */
  function Masked(x: int): (r: nat)
    ensures r < W && r % 8 == 0
  {
    x % W / 8 * 8
  }

  /** The stride registers for loops with counts c (bounds less one) and strides s, when the inner loops end a bytes further on. */
  function Relative(c: seq<nat>, s: seq<int>, a: int): (r: seq<nat>)
    requires |c| == |s|
    ensures |r| == |s|
  {
    if s == [] then [] else [Masked(s[0] - a)] + Relative(c[1..], s[1..], a + s[0] * c[0])
  }

  // ---------------------------------------------------------------- the pointer follows the loop nest

  lemma RowBelow(x: nat, n: nat, r: nat, rows: nat)
    requires x < n && r < rows
    ensures x + n * r < n * rows
  {
    Arith.MulMono(n, r + 1, rows);
  }

  lemma NextRow(n: nat, r: nat, rows: nat)
    requires n - 1 + n * r + 1 < n * rows
    ensures r + 1 < rows && n * (r + 1) == n * r + n
  {
    if r + 1 >= rows { Arith.MulMono(n, rows, r + 1); }
  }

  lemma {:induction false} RankInBox(idx: seq<nat>, b: seq<nat>)
    requires InBox(idx, b)
    ensures Rank(idx, b) < Volume(b)
  {
    if b == [] {
    } else {
      RankInBox(idx[1..], b[1..]);
      RowBelow(idx[0], b[0], Rank(idx[1..], b[1..]), Volume(b[1..]));
    }
  }

  /** Different positions have different ranks. */
  lemma {:induction false} RankInjective(x: seq<nat>, y: seq<nat>, b: seq<nat>)
    requires InBox(x, b) && InBox(y, b) && Rank(x, b) == Rank(y, b)
    ensures x == y
  {
    if b == [] {
    } else {
      Arith.ModUnique(Rank(x, b), Rank(x[1..], b[1..]), x[0], b[0]);
      Arith.ModUnique(Rank(y, b), Rank(y[1..], b[1..]), y[0], b[0]);
      RankInjective(x[1..], y[1..], b[1..]);
      assert x == [x[0]] + x[1..] && y == [y[0]] + y[1..];
    }
  }

  predicate Bounded(b: seq<nat>) { forall d :: 0 <= d < |b| ==> 1 <= b[d] <= W }

  // Advancing a position, taken apart at the innermost loop.
  lemma AdvanceParts(idx: seq<nat>, b: seq<nat>)
    requires InBox(idx, b) && Bounded(b) && b != []
    ensures var next := Advance(idx, Counts(b));
            if idx[0] + 1 == b[0] then next[0] == 0 && next[1..] == Advance(idx[1..], Counts(b[1..]))
            else next[0] == idx[0] + 1 && next[1..] == idx[1..]
  {
    assert Counts(b)[1..] == Counts(b[1..]);
  }

  lemma {:induction false} AdvanceIsNext(idx: seq<nat>, b: seq<nat>)
    requires InBox(idx, b) && Bounded(b) && Rank(idx, b) + 1 < Volume(b)
    ensures InBox(Advance(idx, Counts(b)), b)
    ensures Rank(Advance(idx, Counts(b)), b) == Rank(idx, b) + 1
  {
    if b == [] {
    } else {
      AdvanceParts(idx, b);
      if idx[0] + 1 == b[0] {
        NextRow(b[0], Rank(idx[1..], b[1..]), Volume(b[1..]));
        AdvanceIsNext(idx[1..], b[1..]);
      }
    }
  }

  // Here and below a' is the distance covered once the innermost loop is also done.
  lemma SelectedParts(idx: seq<nat>, c: seq<nat>, s: seq<int>, a: int, a': int)
    requires |idx| == |c| == |s| > 0 && a' == a + s[0] * c[0]
    ensures Selected(idx, c, Relative(c, s, a)) ==
              if idx[0] == c[0] then Selected(idx[1..], c[1..], Relative(c[1..], s[1..], a')) else Masked(s[0] - a)
  {
    assert Relative(c, s, a)[1..] == Relative(c[1..], s[1..], a');
  }

  // How far the position moves when the innermost loop starts over, and when it does not.
  lemma CarryMoves(idx: seq<nat>, next: seq<nat>, n: nat, s: seq<int>, a: int, a': int)
    requires |idx| == |next| == |s| > 0 && idx[0] + 1 == n && next[0] == 0 && a' == a + s[0] * (n - 1)
    ensures Displacement(next, s) - Displacement(idx, s) - a
         == Displacement(next[1..], s[1..]) - Displacement(idx[1..], s[1..]) - a'
  {
    var x, y := idx[0] * s[0], next[0] * s[0];
    assert x == s[0] * (n - 1) && y == 0;
    assert Displacement(idx, s) == x + Displacement(idx[1..], s[1..]);
    assert Displacement(next, s) == y + Displacement(next[1..], s[1..]);
  }

  lemma IncrementMoves(idx: seq<nat>, next: seq<nat>, s: seq<int>, a: int)
    requires |idx| == |next| == |s| > 0 && next[0] == idx[0] + 1 && next[1..] == idx[1..]
    ensures Displacement(next, s) - Displacement(idx, s) - a == s[0] - a
  {
    assert (idx[0] + 1) * s[0] == idx[0] * s[0] + s[0];
  }

  // What the selected register holds and how far the position moves.
  ghost predicate SelectsMove(idx: seq<nat>, b: seq<nat>, s: seq<int>, a: int, move: int)
    requires |idx| == |b| == |s|
  {
    && move == Displacement(Advance(idx, Counts(b)), s) - Displacement(idx, s) - a
    && Selected(idx, Counts(b), Relative(Counts(b), s, a)) == Masked(move)
  }

  lemma SelectsCarry(idx: seq<nat>, b: seq<nat>, s: seq<int>, a: int, a': int, move: int)
    requires InBox(idx, b) && Bounded(b) && |s| == |b| > 0 && idx[0] + 1 == b[0] && a' == a + s[0] * (b[0] - 1)
    requires SelectsMove(idx[1..], b[1..], s[1..], a', move)
    ensures SelectsMove(idx, b, s, a, move)
  {
    AdvanceParts(idx, b);
    assert Counts(b)[1..] == Counts(b[1..]);
    SelectedParts(idx, Counts(b), s, a, a');
    CarryMoves(idx, Advance(idx, Counts(b)), b[0], s, a, a');
  }

  lemma SelectsIncrement(idx: seq<nat>, b: seq<nat>, s: seq<int>, a: int)
    requires InBox(idx, b) && Bounded(b) && |s| == |b| > 0 && idx[0] + 1 != b[0]
    ensures SelectsMove(idx, b, s, a, s[0] - a)
  {
    AdvanceParts(idx, b);
    SelectedParts(idx, Counts(b), s, a, a + s[0] * Counts(b)[0]);
    IncrementMoves(idx, Advance(idx, Counts(b)), s, a);
  }

  /** Up to the bits it has lost, the selected register makes up for the loops that start over. */
  lemma {:induction false} SelectedIsRelative(idx: seq<nat>, b: seq<nat>, s: seq<int>, a: int) returns (move: int)
    requires InBox(idx, b) && Bounded(b) && |s| == |b| && Rank(idx, b) + 1 < Volume(b)
    ensures move == Displacement(Advance(idx, Counts(b)), s) - Displacement(idx, s) - a
    ensures Selected(idx, Counts(b), Relative(Counts(b), s, a)) == Masked(move)
  {
    if idx[0] + 1 == b[0] {
      var a' := a + s[0] * (b[0] - 1);
      NextRow(b[0], Rank(idx[1..], b[1..]), Volume(b[1..]));
      move := SelectedIsRelative(idx[1..], b[1..], s[1..], a');
      SelectsCarry(idx, b, s, a, a', move);
    } else {
      move := s[0] - a;
      SelectsIncrement(idx, b, s, a);
    }
  }

  // ---------------------------------------------------------------- which position comes when

  /** The turn at which a position is delivered for the rep-th time. */
  function Place(c: Config, b: seq<nat>, idx: seq<nat>, rep: nat): nat
    requires |idx| == |b|
  {
    Rank(idx, b) * (c.repeat + 1) + rep
  }

  ghost predicate AtPlace(c: Config, b: seq<nat>, n: nat, t: Stream) {
    InBox(t.idx, b) && t.rep <= c.repeat && n == Place(c, b, t.idx, t.rep)
  }

  function Zeros(n: nat): (r: seq<nat>)
    ensures |r| == n
  {
    seq(n, i => 0)
  }

  lemma {:induction false} StartOfLoops(n: nat, b: seq<nat>)
    requires |b| == n
    ensures Rank(Zeros(n), b) == 0
  {
    if n == 0 {
    } else {
      assert Zeros(n)[1..] == Zeros(n - 1);
      StartOfLoops(n - 1, b[1..]);
    }
  }

  lemma StartOfNest(b: seq<nat>)
    requires |b| == LOOPS && Bounded(b)
    ensures InBox([0, 0, 0, 0], b) && Rank([0, 0, 0, 0], b) == 0
  {
    StartOfLoops(LOOPS, b);
    assert Zeros(LOOPS) == [0, 0, 0, 0];
  }

  lemma NextElement(r: nat, m: nat, n: nat, volume: nat)
    requires n == r * m + (m - 1) && n + 1 < volume * m
    ensures r + 1 < volume && n + 1 == (r + 1) * m
  {
    if r + 1 >= volume { Arith.MulMono(m, volume, r + 1); }
  }

  lemma StepMovesOn(c: Config, b: seq<nat>, n: nat, t: Stream)
    requires c.Valid() && |b| == LOOPS && Bounded(b) && c.bounds == Counts(b)
    requires AtPlace(c, b, n, t) && n + 1 < Volume(b) * (c.repeat + 1)
    ensures AtPlace(c, b, n + 1, Step(c, t))
    ensures t.rep == c.repeat ==> Rank(t.idx, b) + 1 < Volume(b)
  {
    if t.rep == c.repeat {
      NextElement(Rank(t.idx, b), c.repeat + 1, n, Volume(b));
      AdvanceIsNext(t.idx, b);
    }
  }

  lemma {:induction false} AfterIsAtPlace(c: Config, b: seq<nat>, base: nat, n: nat)
    requires c.Valid() && |b| == LOOPS && Bounded(b) && c.bounds == Counts(b) && n < Volume(b) * (c.repeat + 1)
    ensures AtPlace(c, b, n, After(c, base, n))
  {
    if n == 0 {
      StartOfNest(b);
    } else {
      AfterIsAtPlace(c, b, base, n - 1);
      StepMovesOn(c, b, n - 1, After(c, base, n - 1));
    }
  }

  lemma {:induction false} NoDisplacement(n: nat, s: seq<int>)
    requires |s| == n
    ensures Displacement(Zeros(n), s) == 0
  {
    if n == 0 {
    } else {
      assert Zeros(n)[1..] == Zeros(n - 1);
      NoDisplacement(n - 1, s[1..]);
    }
  }

  lemma PositionInBox(r: nat, m: nat, rep: nat, volume: nat)
    requires r < volume && rep < m
    ensures r * m + rep < volume * m
  {
    Arith.MulMono(m, r + 1, volume);
  }

  lemma SamePosition(r: nat, rep: nat, r': nat, rep': nat, m: nat)
    requires rep < m && rep' < m && r * m + rep == r' * m + rep'
    ensures r == r' && rep == rep'
  {
    Arith.ModUnique(r * m + rep, r, rep, m);
    Arith.ModUnique(r * m + rep, r', rep', m);
  }

  /** Bounds of at least one: every index tuple has its turn, once per repetition, in lexicographic order. */
  lemma StreamInOrder(c: Config, b: seq<nat>, base: nat, idx: seq<nat>, rep: nat, n: nat)
    requires c.Valid() && |b| == LOOPS && Bounded(b) && c.bounds == Counts(b)
    requires InBox(idx, b) && rep <= c.repeat && n == Place(c, b, idx, rep)
    ensures n < Volume(b) * (c.repeat + 1)
    ensures After(c, base, n).idx == idx && After(c, base, n).rep == rep
  {
    RankInBox(idx, b);
    PositionInBox(Rank(idx, b), c.repeat + 1, rep, Volume(b));
    AfterIsAtPlace(c, b, base, n);
    var t := After(c, base, n);
    SamePosition(Rank(idx, b), rep, Rank(t.idx, b), t.rep, c.repeat + 1);
    RankInjective(t.idx, idx, b);
  }

  // ---------------------------------------------------------------- where the pointer is

  ghost predicate Nest(c: Config, b: seq<nat>, s: seq<int>) {
    && |b| == |s| == LOOPS && Bounded(b)
    && c.bounds == Counts(b) && c.strides == Relative(Counts(b), s, 0)
  }

  /** Every loop that is run more than once has a stride of whole doubles. */
  predicate Aligned(b: seq<nat>, s: seq<int>)
    requires |b| == |s|
  {
    forall d :: 0 <= d < |b| && b[d] > 1 ==> s[d] % 8 == 0
  }

  lemma MultipleOfEight(x: int, y: int, k: int)
    requires x % 8 == 0 && y % 8 == 0
    ensures (k * x + y) % 8 == 0
  {
    var p, q := x / 8, y / 8;
    Split(x, 8);
    Split(y, 8);
    ModUnique(k * x + y, k * p + q, 0, 8);
  }

  lemma {:induction false} AlignedDisplacement(idx: seq<nat>, b: seq<nat>, s: seq<int>)
    requires |s| == |b| && InBox(idx, b) && Aligned(b, s)
    ensures Displacement(idx, s) % 8 == 0
  {
    if b == [] {
    } else {
      AlignedDisplacement(idx[1..], b[1..], s[1..]);
      if b[0] > 1 { MultipleOfEight(s[0], Displacement(idx[1..], s[1..]), idx[0]); }
    }
  }

  // Covering one more loop.
  lemma WithLoop(a: int, s: int, c: nat)
    requires a % 8 == 0 && (c > 0 ==> s % 8 == 0)
    ensures (a + s * c) % 8 == 0
  {
    if c > 0 { MultipleOfEight(s, a, c); }
  }

  lemma MaskedRegister(r: nat)
    requires r < W && r % 8 == 0
    ensures Masked(r) == r
  {
  }

  lemma MaskedIsWhole(x: int)
    ensures Masked(x) == x % W <==> x % 8 == 0
  {
    Split(x, W);
    var r, q := x % W, x / W;
    if x % 8 == 0 { MultipleOfEight(W, x, -q); }
    if r % 8 == 0 { MultipleOfEight(W, r, q); }
  }

  // Adding a whole number of doubles as a masked word.
  lemma MoveBy(x: int, y: int)
    requires y % 8 == 0
    ensures (x % W + Masked(y)) % W == (x + y) % W
  {
    MaskedIsWhole(y);
    ModAddMod(x, y, W);
  }

  lemma WholeMoveBy(base: nat, from: int, to: int, move: int)
    requires from % 8 == 0 && to % 8 == 0 && move == to - from
    ensures ((base + from) % W + Masked(move)) % W == (base + to) % W
  {
    MultipleOfEight(from, to, -1);
    MoveBy(base + from, move);
  }

  lemma StepOnNest(c: Config, b: seq<nat>, s: seq<int>, base: nat, n: nat, t: Stream)
    requires Nest(c, b, s) && Aligned(b, s) && AtPlace(c, b, n, t) && n + 1 < Volume(b) * (c.repeat + 1)
    requires t.ptr == (base + Displacement(t.idx, s)) % W
    ensures Step(c, t).ptr == (base + Displacement(Step(c, t).idx, s)) % W
  {
    StepMovesOn(c, b, n, t);
    if t.rep == c.repeat {
      var move := SelectedIsRelative(t.idx, b, s, 0);
      AdvanceIsNext(t.idx, b);
      AlignedDisplacement(t.idx, b, s);
      AlignedDisplacement(Advance(t.idx, c.bounds), b, s);
      WholeMoveBy(base, Displacement(t.idx, s), Displacement(Advance(t.idx, c.bounds), s), move);
    }
  }

  lemma {:induction false} AfterIsOnNest(c: Config, b: seq<nat>, s: seq<int>, base: nat, n: nat)
    requires Nest(c, b, s) && Aligned(b, s) && n < Volume(b) * (c.repeat + 1)
    ensures var t := After(c, base, n); AtPlace(c, b, n, t) && t.ptr == (base + Displacement(t.idx, s)) % W
  {
    AfterIsAtPlace(c, b, base, n);
    if n == 0 {
      NoDisplacement(LOOPS, s);
      assert Zeros(LOOPS) == [0, 0, 0, 0];
    } else {
      AfterIsOnNest(c, b, s, base, n - 1);
      StepOnNest(c, b, s, base, n - 1, After(c, base, n - 1));
    }
  }

  /**
   * With bounds of at least one and strides of whole doubles, every position of the loop nest is visited once, in
   * lexicographic order, at base plus the sum of index times stride modulo 2^32, and delivered as often as the
   * repetition says.
   */
  lemma StreamVisitsNest(c: Config, b: seq<nat>, s: seq<int>, base: nat, idx: seq<nat>, rep: nat, n: nat)
    requires Nest(c, b, s) && Aligned(b, s) && InBox(idx, b) && rep <= c.repeat && n == Place(c, b, idx, rep)
    ensures After(c, base, n) == Stream((base + Displacement(idx, s)) % W, idx, rep)
  {
    StreamInOrder(c, b, base, idx, rep, n);
    AfterIsOnNest(c, b, s, base, n);
  }

  // ---------------------------------------------------------------- set-ups that leave outer loops alone

  // The strides that would have led to the given registers.
  function Absolute(c: seq<nat>, regs: seq<nat>, a: int): (s: seq<int>)
    requires |c| == |regs|
    ensures |s| == |regs|
  {
    if regs == [] then [] else [regs[0] + a] + Absolute(c[1..], regs[1..], a + (regs[0] + a) * c[0])
  }

  predicate Words(regs: seq<nat>) { forall d :: 0 <= d < |regs| ==> regs[d] < W }

  predicate MaskedWords(regs: seq<nat>) { forall d :: 0 <= d < |regs| ==> regs[d] < W && regs[d] % 8 == 0 }

  // Registers for the first loops only, the rest holding anything.
  ghost predicate InnerNest(c: Config, b: seq<nat>, s: seq<int>) {
    && c.Valid() && Words(c.bounds) && MaskedWords(c.strides)
    && |b| == |s| <= LOOPS && Bounded(b)
    && c.bounds[..|b|] == Counts(b) && c.strides[..|b|] == Relative(Counts(b), s, 0)
  }

  // The distance covered by loops with counts c and strides s, starting from a.
  function Reach(c: seq<nat>, s: seq<int>, a: int): int
    requires |c| == |s|
  {
    if c == [] then a else Reach(c[1..], s[1..], a + s[0] * c[0])
  }

  lemma {:induction false} RelativeConcat(c: seq<nat>, c2: seq<nat>, s: seq<int>, s2: seq<int>, a: int)
    requires |c| == |s| && |c2| == |s2|
    ensures Relative(c + c2, s + s2, a) == Relative(c, s, a) + Relative(c2, s2, Reach(c, s, a))
  {
    if c == [] {
      assert c + c2 == c2 && s + s2 == s2;
    } else {
      RelativeConcat(c[1..], c2, s[1..], s2, a + s[0] * c[0]);
      assert (c + c2)[1..] == c[1..] + c2 && (s + s2)[1..] == s[1..] + s2;
    }
  }

  lemma RelativeParts(c: seq<nat>, s0: int, rest: seq<int>, a: int, a': int)
    requires |c| == 1 + |rest| && a' == a + s0 * c[0]
    ensures Relative(c, [s0] + rest, a) == [Masked(s0 - a)] + Relative(c[1..], rest, a')
  {
    assert ([s0] + rest)[1..] == rest;
  }

  lemma {:induction false} AbsoluteOfRegisters(c: seq<nat>, regs: seq<nat>, a: int)
    requires |c| == |regs| && MaskedWords(regs)
    ensures Relative(c, Absolute(c, regs, a), a) == regs
  {
    if regs == [] {
    } else {
      var s0 := regs[0] + a;
      var a' := a + s0 * c[0];
      var rest := Absolute(c[1..], regs[1..], a');
      AbsoluteOfRegisters(c[1..], regs[1..], a');
      RelativeParts(c, s0, rest, a, a');
      MaskedRegister(regs[0]);
      assert Absolute(c, regs, a) == [s0] + rest && regs == [regs[0]] + regs[1..];
    }
  }

  lemma {:induction false} AbsoluteIsAligned(c: seq<nat>, regs: seq<nat>, a: int)
    requires |c| == |regs| && MaskedWords(regs) && a % 8 == 0
    ensures forall d :: 0 <= d < |regs| ==> Absolute(c, regs, a)[d] % 8 == 0
  {
    if regs == [] {
    } else {
      WithLoop(a, regs[0] + a, c[0]);
      AbsoluteIsAligned(c[1..], regs[1..], a + (regs[0] + a) * c[0]);
    }
  }

  lemma {:induction false} ReachIsAligned(b: seq<nat>, s: seq<int>, a: int)
    requires |b| == |s| && Bounded(b) && Aligned(b, s) && a % 8 == 0
    ensures Reach(Counts(b), s, a) % 8 == 0
  {
    if b == [] {
    } else {
      assert Counts(b)[1..] == Counts(b[1..]) && Counts(b)[0] == b[0] - 1;
      WithLoop(a, s[0], b[0] - 1);
      ReachIsAligned(b[1..], s[1..], a + s[0] * (b[0] - 1));
    }
  }

  lemma PlusOne(bounds: seq<nat>) returns (b: seq<nat>)
    requires Words(bounds)
    ensures |b| == |bounds| && Bounded(b) && Counts(b) == bounds
  {
    b := seq(|bounds|, d requires 0 <= d < |bounds| => bounds[d] + 1);
  }

  lemma OuterLoops(bounds: seq<nat>, strides: seq<nat>, a: int) returns (b: seq<nat>, s: seq<int>)
    requires |bounds| == |strides| && Words(bounds) && MaskedWords(strides)
    ensures |b| == |s| == |bounds| && Bounded(b) && Counts(b) == bounds && Relative(bounds, s, a) == strides
    ensures a % 8 == 0 ==> forall d :: 0 <= d < |s| ==> s[d] % 8 == 0
  {
    b := PlusOne(bounds);
    s := Absolute(bounds, strides, a);
    AbsoluteOfRegisters(bounds, strides, a);
    if a % 8 == 0 { AbsoluteIsAligned(bounds, strides, a); }
  }

  lemma CountsConcat(b: seq<nat>, b2: seq<nat>)
    ensures Counts(b + b2) == Counts(b) + Counts(b2)
  {
  }

  lemma BoundedConcat(b: seq<nat>, b2: seq<nat>)
    requires Bounded(b) && Bounded(b2)
    ensures Bounded(b + b2)
  {
  }

  lemma SplitAt<T>(s: seq<T>, n: nat)
    requires n <= |s|
    ensures s == s[..n] + s[n..]
  {
  }

  lemma ExtendedStrides(c: Config, b: seq<nat>, s: seq<int>) returns (b': seq<nat>, s': seq<int>)
    requires InnerNest(c, b, s)
    ensures Nest(c, b', s') && b'[..|b|] == b && s'[..|b|] == s
    ensures Aligned(b, s) ==> Aligned(b', s')
  {
    var a := Reach(Counts(b), s, 0);
    var b2, s2 := OuterLoops(c.bounds[|b|..], c.strides[|b|..], a);
    b', s' := b + b2, s + s2;
    RelativeConcat(Counts(b), Counts(b2), s, s2, 0);
    CountsConcat(b, b2);
    BoundedConcat(b, b2);
    SplitAt(c.bounds, |b|);
    SplitAt(c.strides, |b|);
    if Aligned(b, s) { ReachIsAligned(b, s, 0); }
  }

  lemma {:induction false} PaddedPosition(idx: seq<nat>, b: seq<nat>, s: seq<int>, n: nat)
    requires |idx| + n == |b| == |s| && Bounded(b) && InBox(idx, b[..|idx|])
    ensures InBox(idx + Zeros(n), b)
    ensures Rank(idx + Zeros(n), b) == Rank(idx, b[..|idx|])
    ensures Displacement(idx + Zeros(n), s) == Displacement(idx, s[..|idx|])
    decreases |idx|
  {
    if idx == [] {
      StartOfLoops(n, b);
      NoDisplacement(n, s);
      assert idx + Zeros(n) == Zeros(n);
    } else {
      var k := |idx|;
      assert (idx + Zeros(n))[1..] == idx[1..] + Zeros(n);
      assert b[..k][1..] == b[1..][..k - 1] && s[..k][1..] == s[1..][..k - 1];
      PaddedPosition(idx[1..], b[1..], s[1..], n);
    }
  }

  /** What the outer registers hold does not matter until the inner loops have run once. */
  lemma InnerStreamVisitsNest(c: Config, b: seq<nat>, s: seq<int>, base: nat, idx: seq<nat>, rep: nat, n: nat)
    requires InnerNest(c, b, s) && Aligned(b, s) && InBox(idx, b) && rep <= c.repeat && n == Place(c, b, idx, rep)
    ensures After(c, base, n).ptr == (base + Displacement(idx, s)) % W
  {
    var b', s' := ExtendedStrides(c, b, s);
    var outer := LOOPS - |b|;
    PaddedPosition(idx, b', s', outer);
    StreamVisitsNest(c, b', s', base, idx + Zeros(outer), rep, n);
  }

  // ---------------------------------------------------------------- other strides do not work

  /** Every position of the inner loops is delivered from where the loop nest puts it. */
  ghost predicate Visits(c: Config, b: seq<nat>, s: seq<int>, base: nat)
    requires c.Valid() && |b| == |s|
  {
    forall idx: seq<nat>, rep: nat :: InBox(idx, b) && rep <= c.repeat ==>
      After(c, base, Place(c, b, idx, rep)).ptr == (base + Displacement(idx, s)) % W
  }

  // The r-th position.
  function Nth(b: seq<nat>, r: nat): (idx: seq<nat>)
    ensures |idx| == |b|
  {
    if r == 0 then Zeros(|b|) else Advance(Nth(b, r - 1), Counts(b))
  }

  lemma {:induction false} NthHasRank(b: seq<nat>, r: nat)
    requires Bounded(b) && r < Volume(b)
    ensures InBox(Nth(b, r), b) && Rank(Nth(b, r), b) == r
  {
    if r == 0 {
      StartOfLoops(|b|, b);
    } else {
      NthHasRank(b, r - 1);
      AdvanceIsNext(Nth(b, r - 1), b);
    }
  }

  // A masked word moves the pointer by y only if y is a whole number of doubles.
  lemma MovedBy(x: int, y: int)
    requires (x % W + Masked(y)) % W == (x + y) % W
    ensures y % 8 == 0
  {
    ModAddMod(x, Masked(y), W);
    ModSub(x + Masked(y), x, W);
    ModSub(x + y, x, W);
    assert Masked(y) == y % W by {
      assert x + Masked(y) - x == Masked(y) && x + y - x == y;
      ModUnique(Masked(y), 0, Masked(y), W);
    }
    MaskedIsWhole(y);
  }

  lemma NextPlace(c: Config, b: seq<nat>, p: seq<nat>, q: seq<nat>)
    requires |p| == |q| == |b| && Rank(q, b) == Rank(p, b) + 1
    ensures Place(c, b, q, 0) == Place(c, b, p, c.repeat) + 1
  {
    Distribute(Rank(p, b), 1, c.repeat + 1);
  }

  lemma WholeMove(c: Config, b: seq<nat>, s: seq<int>, base: nat, p: seq<nat>, q: seq<nat>, n: nat, y: int)
    requires Nest(c, b, s) && InBox(p, b) && InBox(q, b) && Rank(q, b) == Rank(p, b) + 1
    requires n == Place(c, b, p, c.repeat) && y == Displacement(q, s) - Displacement(p, s)
    ensures After(c, base, n + 1).ptr == (After(c, base, n).ptr + Masked(y)) % W
  {
    StreamInOrder(c, b, base, p, c.repeat, n);
    NextPlace(c, b, p, q);
    StreamInOrder(c, b, base, q, 0, n + 1);
    assert Advance(p, c.bounds) == q;
    RankInBox(q, b);
    var move := SelectedIsRelative(p, b, s, 0);
  }

  // At the end of the repetitions of position p the pointer moves by a masked word.
  lemma MaskedMove(c: Config, b: seq<nat>, s: seq<int>, base: nat, p: seq<nat>, q: seq<nat>)
    requires InnerNest(c, b, s) && InBox(p, b) && InBox(q, b) && Rank(q, b) == Rank(p, b) + 1
    ensures After(c, base, Place(c, b, q, 0)).ptr
         == (After(c, base, Place(c, b, p, c.repeat)).ptr + Masked(Displacement(q, s) - Displacement(p, s))) % W
  {
    var b', s' := ExtendedStrides(c, b, s);
    var outer := LOOPS - |b|;
    var p', q' := p + Zeros(outer), q + Zeros(outer);
    PaddedPosition(p, b', s', outer);
    PaddedPosition(q, b', s', outer);
    NextPlace(c, b, p, q);
    WholeMove(c, b', s', base, p', q', Place(c, b, p, c.repeat), Displacement(q, s) - Displacement(p, s));
  }

  lemma WholeFromNeighbour(c: Config, b: seq<nat>, s: seq<int>, base: nat, p: seq<nat>, q: seq<nat>)
    requires InnerNest(c, b, s) && Visits(c, b, s, base)
    requires InBox(p, b) && InBox(q, b) && Rank(q, b) == Rank(p, b) + 1 && Displacement(p, s) % 8 == 0
    ensures Displacement(q, s) % 8 == 0
  {
    MaskedMove(c, b, s, base, p, q);
    var x, y := Displacement(p, s), Displacement(q, s);
    assert After(c, base, Place(c, b, p, c.repeat)).ptr == (base + x) % W;
    assert After(c, base, Place(c, b, q, 0)).ptr == (base + y) % W;
    MovedBy(base + x, y - x);
    MultipleOfEight(y - x, x, 1);
  }

  lemma {:induction false} VisitsMeansWhole(c: Config, b: seq<nat>, s: seq<int>, base: nat, r: nat)
    requires InnerNest(c, b, s) && Visits(c, b, s, base) && r < Volume(b)
    ensures InBox(Nth(b, r), b) && Rank(Nth(b, r), b) == r && Displacement(Nth(b, r), s) % 8 == 0
  {
    NthHasRank(b, r);
    if r == 0 {
      NoDisplacement(|b|, s);
    } else {
      VisitsMeansWhole(c, b, s, base, r - 1);
      WholeFromNeighbour(c, b, s, base, Nth(b, r - 1), Nth(b, r));
    }
  }

  // The position with a one in loop d.
  function OneAt(n: nat, d: nat): (idx: seq<nat>)
    ensures |idx| == n
  {
    seq(n, i => if i == d then 1 else 0)
  }

  lemma {:induction false} DisplacementOfOne(n: nat, d: nat, s: seq<int>)
    requires d < n == |s|
    ensures Displacement(OneAt(n, d), s) == s[d]
  {
    if d == 0 {
      assert OneAt(n, 0)[1..] == Zeros(n - 1);
      NoDisplacement(n - 1, s[1..]);
    } else {
      assert OneAt(n, d)[1..] == OneAt(n - 1, d - 1);
      DisplacementOfOne(n - 1, d - 1, s[1..]);
    }
  }

  /** For any bounds of at least one: the stream visits the loop nest exactly when its strides are aligned. */
  lemma VisitsIffAligned(c: Config, b: seq<nat>, s: seq<int>, base: nat)
    requires InnerNest(c, b, s)
    ensures Aligned(b, s) <==> Visits(c, b, s, base)
  {
    if Aligned(b, s) {
      forall idx: seq<nat>, rep: nat | InBox(idx, b) && rep <= c.repeat
        ensures After(c, base, Place(c, b, idx, rep)).ptr == (base + Displacement(idx, s)) % W
      {
        InnerStreamVisitsNest(c, b, s, base, idx, rep, Place(c, b, idx, rep));
      }
    }
    if Visits(c, b, s, base) {
      forall d | 0 <= d < |b| && b[d] > 1 ensures s[d] % 8 == 0 {
        var one := OneAt(|b|, d);
        RankInBox(one, b);
        VisitsMeansWhole(c, b, s, base, Rank(one, b));
        RankInjective(one, Nth(b, Rank(one, b)), b);
        DisplacementOfOne(|b|, d, s);
      }
    }
  }

  // ---------------------------------------------------------------- the set-up functions

  lemma {:induction false} OneMoreStride(c: seq<nat>, s: seq<int>, cn: nat, sn: nat, a: int)
    requires |c| == |s|
    ensures Relative(c + [cn], s + [sn], a) == Relative(c, s, a) + [Masked(sn - Reach(c, s, a))]
    ensures Reach(c + [cn], s + [sn], a) == Reach(c, s, a) + sn * cn
  {
    if c == [] {
      assert c + [cn] == [cn] && s + [sn] == [sn];
      assert Relative([cn][1..], [sn][1..], a + sn * cn) == [];
      assert Reach([cn][1..], [sn][1..], a + sn * cn) == a + sn * cn;
    } else {
      OneMoreStride(c[1..], s[1..], cn, sn, a + s[0] * c[0]);
      assert (c + [cn])[1..] == c[1..] + [cn] && (s + [sn])[1..] == s[1..] + [sn];
    }
  }

  lemma SubReduced(x: int, r: int, a: nat)
    requires a == r % W
    ensures Masked(x - a) == Masked(x - r)
  {
    Arith.ModSub(x, r, W);
  }

  function Enabled(bounds: seq<nat>, dims: nat): (r: seq<nat>)
    requires dims <= |bounds|
    ensures |r| == |bounds|
  {
    bounds[..dims] + Zeros(|bounds| - dims)
  }

  /** One data mover: its registers, and the stream it is delivering. */
  class DataMover {
    var bounds: seq<nat>
    var strides: seq<nat>
    var repetition: nat
    var config: Config      // the registers the current stream was started with
    var base: nat
    var taken: nat          // elements taken from the current stream
    var stream: Stream

    ghost predicate Valid()
      reads this
    {
      && |bounds| == |strides| == LOOPS && Words(bounds) && MaskedWords(strides)
      && config.Valid() && stream == After(config, base, taken)
    }

    // The first bound registers hold the counts b, the first stride registers fit strides s.
    ghost predicate SetUp(b: seq<nat>, s: seq<int>)
      reads this
      requires |b| == |s|
    {
      |b| <= |bounds| && |b| <= |strides| && bounds[..|b|] == Counts(b) && strides[..|b|] == Relative(Counts(b), s, 0)
    }

    constructor ()
      ensures Valid() && bounds == strides == [0, 0, 0, 0] && repetition == 0
    {
      bounds, strides, repetition := [0, 0, 0, 0], [0, 0, 0, 0], 0;
      config, base, taken, stream := Config([0, 0, 0, 0], [0, 0, 0, 0], 0), 0, 0, Begin(0);
    }

    // Writes bound register d of loops b.
    method WriteBound(d: nat, ghost b: seq<nat>, count: nat)
      requires Valid() && d < |b| <= LOOPS && count == (b[d] - 1) % W && bounds[..d] == Counts(b[..d])
      modifies this`bounds
      ensures Valid() && bounds[..d + 1] == Counts(b[..d + 1])
      ensures forall x :: d < x < LOOPS ==> bounds[x] == old(bounds)[x]
    {
      bounds := bounds[d := count];
      assert bounds[..d + 1] == old(bounds)[..d] + [count];
    }

    // Writes stride register d of loops with counts c and strides s; `a` is the distance covered by the loops further
    // in, on 32 bits.
    method WriteStride(d: nat, ghost c: seq<nat>, ghost s: seq<int>, count: nat, sn: nat, a: nat) returns (a': nat)
      requires Valid() && d < |c| == |s| <= LOOPS && count == c[d] && sn == s[d]
      requires a == Reach(c[..d], s[..d], 0) % W && strides[..d] == Relative(c[..d], s[..d], 0)
      modifies this`strides
      ensures Valid() && strides[..d + 1] == Relative(c[..d + 1], s[..d + 1], 0)
      ensures forall x :: d < x < LOOPS ==> strides[x] == old(strides)[x]
      ensures a' == Reach(c[..d + 1], s[..d + 1], 0) % W
    {
      ghost var r := Reach(c[..d], s[..d], 0);
      SubReduced(sn, r, a);
      OneMoreStride(c[..d], s[..d], count, sn, 0);
      ModAddMod(r, sn * count, W);
      assert c[..d + 1] == c[..d] + [count] && s[..d + 1] == s[..d] + [sn];
      strides := strides[d := Masked(sn - a)];
      a' := (a + sn * count) % W;
      assert strides[..d + 1] == old(strides)[..d] + [Masked(sn - a)];
    }

    method Loop1d(b0: nat, s0: nat)
      requires Valid()
      modifies this`bounds, this`strides
      ensures Valid() && SetUp([b0], [s0])
      ensures forall x :: 1 <= x < LOOPS ==> bounds[x] == old(bounds)[x] && strides[x] == old(strides)[x]
    {
      ghost var b: seq<nat>, s: seq<int> := [b0], [s0];
      ghost var c := Counts(b);
      var c0 := (b0 - 1) % W;
      WriteBound(0, b, c0);
      var a := 0;
      a := WriteStride(0, c, s, c0, s0, a);
      assert b[..1] == b && c[..1] == c && s[..1] == s;
    }

    method Loop2d(b0: nat, b1: nat, s0: nat, s1: nat)
      requires Valid()
      modifies this`bounds, this`strides
      ensures Valid() && SetUp([b0, b1], [s0, s1])
      ensures forall x :: 2 <= x < LOOPS ==> bounds[x] == old(bounds)[x] && strides[x] == old(strides)[x]
    {
      ghost var b: seq<nat>, s: seq<int> := [b0, b1], [s0, s1];
      ghost var c := Counts(b);
      var c0, c1 := (b0 - 1) % W, (b1 - 1) % W;
      WriteBound(0, b, c0);
      WriteBound(1, b, c1);
      var a := 0;
      a := WriteStride(0, c, s, c0, s0, a);
      a := WriteStride(1, c, s, c1, s1, a);
      assert b[..2] == b && c[..2] == c && s[..2] == s;
    }

    method Loop3d(b0: nat, b1: nat, b2: nat, s0: nat, s1: nat, s2: nat)
      requires Valid()
      modifies this`bounds, this`strides
      ensures Valid() && SetUp([b0, b1, b2], [s0, s1, s2])
      ensures forall x :: 3 <= x < LOOPS ==> bounds[x] == old(bounds)[x] && strides[x] == old(strides)[x]
    {
      ghost var b: seq<nat>, s: seq<int> := [b0, b1, b2], [s0, s1, s2];
      ghost var c := Counts(b);
      var c0, c1, c2 := (b0 - 1) % W, (b1 - 1) % W, (b2 - 1) % W;
      WriteBound(0, b, c0);
      WriteBound(1, b, c1);
      WriteBound(2, b, c2);
      var a := 0;
      a := WriteStride(0, c, s, c0, s0, a);
      a := WriteStride(1, c, s, c1, s1, a);
      a := WriteStride(2, c, s, c2, s2, a);
      assert b[..3] == b && c[..3] == c && s[..3] == s;
    }

    method WriteBounds(b0: nat, b1: nat, b2: nat, b3: nat)
      requires Valid()
      modifies this`bounds
      ensures Valid() && bounds == Counts([b0, b1, b2, b3])
    {
      ghost var b := [b0, b1, b2, b3];
      WriteBound(0, b, (b0 - 1) % W);
      WriteBound(1, b, (b1 - 1) % W);
      WriteBound(2, b, (b2 - 1) % W);
      WriteBound(3, b, (b3 - 1) % W);
      assert b[..4] == b && bounds[..4] == bounds;
    }

    method WriteStrides(ghost b: seq<nat>, c0: nat, c1: nat, c2: nat, c3: nat, s0: nat, s1: nat, s2: nat, s3: nat)
      requires Valid() && |b| == LOOPS && Counts(b) == [c0, c1, c2, c3]
      modifies this`strides
      ensures Valid() && strides == Relative(Counts(b), [s0, s1, s2, s3], 0)
    {
      ghost var c, s: seq<int> := [c0, c1, c2, c3], [s0, s1, s2, s3];
      var a := 0;
      a := WriteStride(0, c, s, c0, s0, a);
      a := WriteStride(1, c, s, c1, s1, a);
      a := WriteStride(2, c, s, c2, s2, a);
      a := WriteStride(3, c, s, c3, s3, a);
      assert c[..4] == c && s[..4] == s && strides[..4] == strides;
    }

    method Loop4d(b0: nat, b1: nat, b2: nat, b3: nat, s0: nat, s1: nat, s2: nat, s3: nat)
      requires Valid()
      modifies this`bounds, this`strides
      ensures Valid() && SetUp([b0, b1, b2, b3], [s0, s1, s2, s3])
    {
      WriteBounds(b0, b1, b2, b3);
      WriteStrides([b0, b1, b2, b3], (b0 - 1) % W, (b1 - 1) % W, (b2 - 1) % W, (b3 - 1) % W, s0, s1, s2, s3);
    }

    method Repeat(count: nat)
      requires Valid()
      modifies this`repetition
      ensures Valid() && repetition == (count - 1) % W
    {
      repetition := (count - 1) % W;
    }

    /** Starts a stream over the first `dims` loops; the loops further out count as being at their end. */
    method Read(dims: nat, ptr: nat)
      requires Valid() && 1 <= dims <= LOOPS
      modifies this`config, this`base, this`taken, this`stream
      ensures Valid() && config == Config(Enabled(bounds, dims), strides, repetition) && base == ptr && taken == 0
    {
      config := Config(Enabled(bounds, dims), strides, repetition);
      base, taken, stream := ptr, 0, Begin(ptr);
    }

    /** Reading the register takes the next element; this is its address. */
    method Pop() returns (ptr: nat)
      requires Valid()
      modifies this`taken, this`stream
      ensures Valid() && taken == old(taken) + 1 && ptr == After(config, base, old(taken)).ptr
    {
      ptr := stream.ptr;
      taken, stream := taken + 1, Step(config, stream);
    }
  }

  /** A stream read with as many loops as were set up, or more, delivers each position of an aligned set-up in its turn. */
  lemma ReadDelivers(bounds: seq<nat>, strides: seq<nat>, repetition: nat, dims: nat, b: seq<nat>, s: seq<int>, base: nat,
                     idx: seq<nat>, rep: nat, n: nat)
    requires |bounds| == |strides| == LOOPS && Words(bounds) && MaskedWords(strides)
    requires |b| == |s| <= dims <= LOOPS && Bounded(b) && Aligned(b, s)
    requires bounds[..|b|] == Counts(b) && strides[..|b|] == Relative(Counts(b), s, 0)
    requires InBox(idx, b) && rep <= repetition && n == Rank(idx, b) * (repetition + 1) + rep
    ensures After(Config(Enabled(bounds, dims), strides, repetition), base, n).ptr == (base + Displacement(idx, s)) % W
  {
    var c := Config(Enabled(bounds, dims), strides, repetition);
    assert c.bounds[..|b|] == bounds[..|b|];
    InnerStreamVisitsNest(c, b, s, base, idx, rep, n);
  }

  /** A stream read with as many loops as were set up, or more, walks the loop nest of an aligned set-up, and of no other. */
  lemma ReadFollowsSetUp(bounds: seq<nat>, strides: seq<nat>, repetition: nat, dims: nat, b: seq<nat>, s: seq<int>, base: nat)
    requires |bounds| == |strides| == LOOPS && Words(bounds) && MaskedWords(strides)
    requires |b| == |s| <= dims <= LOOPS && Bounded(b)
    requires bounds[..|b|] == Counts(b) && strides[..|b|] == Relative(Counts(b), s, 0)
    ensures Visits(Config(Enabled(bounds, dims), strides, repetition), b, s, base) <==> Aligned(b, s)
  {
    var c := Config(Enabled(bounds, dims), strides, repetition);
    assert c.bounds[..|b|] == bounds[..|b|];
    VisitsIffAligned(c, b, s, base);
  }

  // ---------------------------------------------------------------- where a stream ends

  /** The element after which the stream is over: every loop is at its end, and it is delivered for the last time. */
  predicate AtLast(c: Config, t: Stream) { t.idx == c.bounds && t.rep == c.repeat }

  lemma EndOfRows(n: nat, r: int, rows: nat)
    requires r == rows - 1
    ensures n - 1 + n * r == n * rows - 1
  {
    assert n * rows == n * r + n;
  }

  lemma CountsParts(b: seq<nat>)
    requires Bounded(b) && b != []
    ensures Counts(b)[0] == b[0] - 1 && Counts(b)[1..] == Counts(b[1..])
  {
  }

  lemma RankStep(idx: seq<nat>, b: seq<nat>)
    requires |idx| == |b| > 0 && Rank(idx[1..], b[1..]) + 1 == Volume(b[1..]) && idx[0] + 1 == b[0]
    ensures Rank(idx, b) + 1 == Volume(b)
  {
    EndOfRows(b[0], Rank(idx[1..], b[1..]), Volume(b[1..]));
  }

  lemma {:induction false} RankOfLast(b: seq<nat>)
    requires Bounded(b)
    ensures InBox(Counts(b), b) && Rank(Counts(b), b) + 1 == Volume(b)
  {
    if b == [] {
    } else {
      RankOfLast(b[1..]);
      CountsParts(b);
      RankStep(Counts(b), b);
    }
  }

  lemma LastPlace(r: nat, rep: nat, volume: nat, repeat: nat)
    requires r < volume && rep <= repeat
    ensures r * (repeat + 1) + rep == volume * (repeat + 1) - 1 <==> r == volume - 1 && rep == repeat
  {
    Arith.Distribute(volume - 1, 1, repeat + 1);
    assert volume * (repeat + 1) - 1 == (volume - 1) * (repeat + 1) + repeat;
    if r * (repeat + 1) + rep == volume * (repeat + 1) - 1 { SamePosition(r, rep, volume - 1, repeat, repeat + 1); }
  }

  lemma LastInBox(idx: seq<nat>, b: seq<nat>)
    requires Bounded(b) && InBox(idx, b)
    ensures idx == Counts(b) <==> Rank(idx, b) + 1 == Volume(b)
  {
    RankOfLast(b);
    if Rank(idx, b) + 1 == Volume(b) { RankInjective(idx, Counts(b), b); }
  }

  lemma LastInOrder(c: Config, b: seq<nat>, base: nat, n: nat)
    requires c.Valid() && |b| == LOOPS && Bounded(b) && c.bounds == Counts(b) && n < Volume(b) * (c.repeat + 1)
    ensures AtLast(c, After(c, base, n)) <==> n == Volume(b) * (c.repeat + 1) - 1
  {
    var t := After(c, base, n);
    AfterIsAtPlace(c, b, base, n);
    RankInBox(t.idx, b);
    LastInBox(t.idx, b);
    LastPlace(Rank(t.idx, b), t.rep, Volume(b), c.repeat);
  }

  function Ones(n: nat): (r: seq<nat>)
    ensures |r| == n
  {
    seq(n, i => 1)
  }

  lemma {:induction false} SingleLoops(b: seq<nat>, n: nat)
    ensures Volume(b + Ones(n)) == Volume(b)
    decreases |b|, n
  {
    if b == [] {
      assert b + Ones(n) == Ones(n);
      if n > 0 {
        assert Ones(n)[1..] == Ones(n - 1) == [] + Ones(n - 1);
        SingleLoops([], n - 1);
      }
    } else {
      assert (b + Ones(n))[1..] == b[1..] + Ones(n);
      SingleLoops(b[1..], n);
    }
  }

  /** A stream read with loops b ends after exactly the volume of b, times the repetitions, whatever the outer registers hold. */
  lemma ReadEnds(bounds: seq<nat>, strides: seq<nat>, repetition: nat, b: seq<nat>, base: nat, n: nat)
    requires |bounds| == |strides| == LOOPS && |b| <= LOOPS && Bounded(b) && bounds[..|b|] == Counts(b)
    requires n < Volume(b) * (repetition + 1)
    ensures var c := Config(Enabled(bounds, |b|), strides, repetition);
            AtLast(c, After(c, base, n)) <==> n == Volume(b) * (repetition + 1) - 1
  {
    var outer := LOOPS - |b|;
    SingleLoops(b, outer);
    assert Bounded(b + Ones(outer)) && Counts(Ones(outer)) == Zeros(outer);
    CountsConcat(b, Ones(outer));
    LastInOrder(Config(Enabled(bounds, |b|), strides, repetition), b + Ones(outer), base, n);
  }

  /** A loop with a stride of half a double delivers the base address twice. */
  lemma HalfStrideStandsStill(bounds: seq<nat>, strides: seq<nat>, base: nat)
    requires |bounds| == |strides| == LOOPS && Words(bounds) && MaskedWords(strides)
    requires bounds[..1] == Counts([2]) && strides[..1] == Relative(Counts([2]), [4], 0)
    ensures After(Config(Enabled(bounds, 1), strides, 0), base, 1).ptr == base % W
  {
    var c := Config(Enabled(bounds, 1), strides, 0);
    assert bounds[0] == bounds[..1][0] == 1 && strides[0] == strides[..1][0] == 0;
    assert After(c, base, 1) == Step(c, After(c, base, 0));
    ModAddMod(base, 0, W);
  }
}
