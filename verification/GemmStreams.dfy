// The two streams of the unrolled kernel: which element of A and of B they deliver at which turn.
module GemmStreams {
  import opened Arith
  import opened Ssr
  import opened Gemm

  /** Byte-addressed memory with 32-bit addresses, and the matrix of doubles at a pointer. */
  type Memory = int -> real

  function Doubles(mem: Memory, base: nat): Matrix {
    (e: int) => mem((base + 8 * e) % W)
  }

  lemma TurnsInOrder(s: Shape, i: nat, q: nat, l: nat, u: nat)
    ensures Turn(s, i, q, l, u + 1) == Turn(s, i, q, l, u) + 1
    ensures Turn(s, i, q, l + 1, 0) == Turn(s, i, q, l, UNROLL)
    ensures Turn(s, i, q + 1, 0, 0) == Turn(s, i, q, s.k, 0)
    ensures Turn(s, i + 1, 0, 0, 0) == Turn(s, i, s.Blocks(), 0, 0)
    ensures Turn(s, 0, 0, 0, 0) == 0
  {
    var n := s.Blocks();
    assert s.k * (q + 1 + n * i) == s.k * (q + n * i) + s.k;
    assert n * (i + 1) == n * i + n;
  }

  function BoundsA(s: Shape): seq<nat> { [s.k, s.Blocks(), s.m] }
  function StridesA(s: Shape): seq<nat> {
    if s.la.ByRows? then [8, 0, (8 * s.ldA) % W] else [(8 * s.ldA) % W, 0, 8 * 8]
  }

  function BoundsB(s: Shape): seq<nat> { [UNROLL, s.k, s.Blocks(), s.m] }

  function StridesB(s: Shape): seq<nat> {
    if s.tb then [(8 * s.ldB) % W, 8, (8 * s.ldB * UNROLL) % W, 0]
    else [8, (8 * s.ldB) % W, 8 * UNROLL, 0]
  }

  // A stride reduced to a word moves the pointer as the stride itself does.
  lemma ReducedStride(x: int, n: nat, stride: int)
    ensures (x + n * (stride % W)) % W == (x + n * stride) % W
  {
    var quotient := stride / W;
    Arith.Split(stride, W);
    assert n * (stride % W) == n * stride - (n * quotient) * W;
    Arith.ModAdd(x + n * stride, -(n * quotient), W);
  }

  lemma OuterIsZero(i: nat, b: nat, s: int)
    ensures Rank([i], [b]) == i && Displacement([i], [s]) == i * s
  {
    assert [i][1..] == [] && [b][1..] == [] && [s][1..] == [];
  }

  lemma InnerLoop(x: nat, xs: seq<nat>, b: nat, bs: seq<nat>, t: int, ts: seq<int>)
    requires |xs| == |bs| == |ts|
    ensures Rank([x] + xs, [b] + bs) == x + b * Rank(xs, bs)
    ensures Displacement([x] + xs, [t] + ts) == x * t + Displacement(xs, ts)
  {
    assert ([x] + xs)[1..] == xs && ([b] + bs)[1..] == bs && ([t] + ts)[1..] == ts;
  }

  lemma ThreeLoops(x: nat, y: nat, z: nat, b: nat, c: nat, d: nat, r: int, s: int, t: int)
    ensures Rank([x, y, z], [b, c, d]) == x + b * (y + c * z)
    ensures Displacement([x, y, z], [r, s, t]) == x * r + (y * s + z * t)
  {
    OuterIsZero(z, d, t);
    InnerLoop(y, [z], c, [d], s, [t]);
    assert [y] + [z] == [y, z] && [c] + [d] == [c, d] && [s] + [t] == [s, t];
    InnerLoop(x, [y, z], b, [c, d], r, [s, t]);
    assert [x] + [y, z] == [x, y, z] && [b] + [c, d] == [b, c, d] && [r] + [s, t] == [r, s, t];
  }

  // The streams of a product with a transposed A follow a layout of their own, and the second one may repeat elements.
  function InBlock(s: Shape, rep: nat): Shape {
    s.(la := if s.la.ByRows? then ByRows else StreamTransposed, held := rep)
  }

  lemma AddressA(s: Shape, base: nat, i: nat, l: nat)
    ensures (base + (l * StridesA(s)[0] + i * StridesA(s)[2])) % W == (base + 8 * AIndex(InBlock(s, 0), i, l)) % W
  {
    if s.la.ByRows? {
      ReducedStride(base + l * 8, i, 8 * s.ldA);
      assert i * (8 * s.ldA) == 8 * (i * s.ldA);
    } else {
      ReducedStride(base + i * 64, l, 8 * s.ldA);
      assert l * (8 * s.ldA) == 8 * (l * s.ldA);
    }
  }

  lemma DisplacementA(s: Shape, base: nat, i: nat, q: nat, l: nat)
    ensures Rank([l, q, i], BoundsA(s)) == l + s.k * (q + s.Blocks() * i)
    ensures (base + Displacement([l, q, i], StridesA(s))) % W == (base + 8 * AIndex(InBlock(s, 0), i, l)) % W
  {
    var t := StridesA(s);
    ThreeLoops(l, q, i, s.k, s.Blocks(), s.m, t[0], 0, t[2]);
    AddressA(s, base, i, l);
  }

  lemma EightTimes(x: nat)
    ensures (8 * x) % W % 8 == 0
  {
    Split(8 * x, W);
    ModUnique(8 * x, x, 0, 8);
    MultipleOfEight(W, 8 * x, -(8 * x / W));
  }

  lemma WholeStrides(s: Shape)
    ensures Aligned(BoundsA(s), StridesA(s)) && Aligned(BoundsB(s), StridesB(s))
  {
    EightTimes(s.ldA);
    EightTimes(s.ldB);
    EightTimes(s.ldB * UNROLL);
  }

  lemma DisplacementB(s: Shape, i: nat, q: nat, l: nat, u: nat)
    ensures Rank([u, l, q, i], BoundsB(s)) == u + UNROLL * (l + s.k * (q + s.Blocks() * i))
    ensures Displacement([u, l, q, i], StridesB(s)) == u * StridesB(s)[0] + (l * StridesB(s)[1] + q * StridesB(s)[2])
  {
    var t := StridesB(s);
    ThreeLoops(l, q, i, s.k, s.Blocks(), s.m, t[1], t[2], 0);
    InnerLoop(u, [l, q, i], UNROLL, [s.k, s.Blocks(), s.m], t[0], [t[1], t[2], 0]);
    assert [u] + [l, q, i] == [u, l, q, i] && [UNROLL] + [s.k, s.Blocks(), s.m] == BoundsB(s);
    assert [t[0] as int] + [t[1] as int, t[2], 0] == t;
  }

  lemma AddressB(s: Shape, base: nat, q: nat, l: nat, u: nat)
    ensures (base + (u * StridesB(s)[0] + (l * StridesB(s)[1] + q * StridesB(s)[2]))) % W
         == (base + 8 * Stored(s, l, q * UNROLL + u)) % W
  {
    if s.tb {
      var x, y := 8 * s.ldB, 8 * s.ldB * UNROLL;
      ReducedStride(base + l * 8 + q * (y % W), u, x);
      ReducedStride(base + l * 8 + u * x, q, y);
      assert u * x + q * y == 8 * ((q * UNROLL + u) * s.ldB);
    } else {
      ReducedStride(base + u * 8 + q * (8 * UNROLL), l, 8 * s.ldB);
      assert l * (8 * s.ldB) == 8 * (l * s.ldB);
    }
  }

  // The data mover delivers, at every turn, the address of the element the kernel needs.
  ghost predicate FeedsA(s: Shape, c: Config, base: nat)
    requires c.Valid()
  {
    forall i: nat, q: nat, l: nat, u: nat {:trigger Turn(s, i, q, l, u)} :: i < s.m && q < s.Blocks() && l < s.k && u < UNROLL ==>
      After(c, base, Turn(s, i, q, l, u)).ptr == (base + 8 * AIndex(InBlock(s, 0), i, l)) % W
  }

  ghost predicate FeedsB(s: Shape, c: Config, base: nat)
    requires c.Valid()
  {
    forall i: nat, q: nat, l: nat, u: nat {:trigger Turn(s, i, q, l, u)} :: i < s.m && q < s.Blocks() && l < s.k && u < UNROLL ==>
      After(c, base, Turn(s, i, q, l, u)).ptr == (base + 8 * BIndex(InBlock(s, c.repeat), i, l, q * UNROLL + u)) % W
  }

  predicate FitsWords(s: Shape) { s.m < W && s.n < W && s.k < W }

  lemma TurnA(s: Shape, bounds: seq<nat>, strides: seq<nat>, base: nat, i: nat, q: nat, l: nat, u: nat)
    requires FitsWords(s) && |bounds| == |strides| == LOOPS && Words(bounds) && MaskedWords(strides)
    requires bounds[..3] == Counts(BoundsA(s)) && strides[..3] == Relative(Counts(BoundsA(s)), StridesA(s), 0)
    requires i < s.m && q < s.Blocks() && l < s.k && u < UNROLL
    ensures After(Config(Enabled(bounds, LOOPS), strides, UNROLL - 1), base, Turn(s, i, q, l, u)).ptr
         == (base + 8 * AIndex(InBlock(s, 0), i, l)) % W
  {
    DisplacementA(s, base, i, q, l);
    WholeStrides(s);
    assert Bounded(BoundsA(s)) && InBox([l, q, i], BoundsA(s));
    ReadDelivers(bounds, strides, UNROLL - 1, LOOPS, BoundsA(s), StridesA(s), base, [l, q, i], u, Turn(s, i, q, l, u));
  }

  lemma StreamA(s: Shape, bounds: seq<nat>, strides: seq<nat>, base: nat)
    requires FitsWords(s) && |bounds| == |strides| == LOOPS && Words(bounds) && MaskedWords(strides)
    requires bounds[..3] == Counts(BoundsA(s)) && strides[..3] == Relative(Counts(BoundsA(s)), StridesA(s), 0)
    ensures FeedsA(s, Config(Enabled(bounds, LOOPS), strides, UNROLL - 1), base)
  {
    var c := Config(Enabled(bounds, LOOPS), strides, UNROLL - 1);
    forall i: nat, q: nat, l: nat, u: nat | i < s.m && q < s.Blocks() && l < s.k && u < UNROLL
      ensures After(c, base, Turn(s, i, q, l, u)).ptr == (base + 8 * AIndex(InBlock(s, 0), i, l)) % W
    {
      TurnA(s, bounds, strides, base, i, q, l, u);
    }
  }

  lemma PositionB(s: Shape, base: nat, i: nat, q: nat, l: nat, u: nat)
    requires FitsWords(s) && i < s.m && q < s.Blocks() && l < s.k && u < UNROLL
    ensures Bounded(BoundsB(s)) && InBox([u, l, q, i], BoundsB(s))
    ensures Rank([u, l, q, i], BoundsB(s)) == Turn(s, i, q, l, u)
    ensures (base + Displacement([u, l, q, i], StridesB(s))) % W == (base + 8 * Stored(s, l, q * UNROLL + u)) % W
  {
    DisplacementB(s, i, q, l, u);
    AddressB(s, base, q, l, u);
  }

  lemma Divided(x: nat, n: nat) returns (q: nat, r: nat)
    requires 0 < n
    ensures q == x / n && r == x % n && r < n && x == r + n * q
  {
    RowIsNatural(x, n);
    Split(x, n);
    q, r := x / n, x % n;
  }

  lemma AtLeast(k: nat, n: nat, m: nat, x: nat, y: nat, i: nat)
    requires i >= m && y >= n * i && x >= k * y
    ensures x >= k * (n * m)
  {
    MulMono(n, m, i);
    MulMono(k, n * m, y);
  }

  // The positions of the loop nest of B, from their number.
  lemma PositionOfRank(s: Shape, r: nat) returns (i: nat, q: nat, l: nat, u: nat)
    requires 0 < s.k && 0 < s.Blocks() && r < Turn(s, s.m, 0, 0, 0)
    ensures i < s.m && q < s.Blocks() && l < s.k && u < UNROLL && r == Turn(s, i, q, l, u)
    ensures InOrder(s, r) == Stored(s, l, q * UNROLL + u)
  {
    var x: nat, y: nat;
    x, u := Divided(r, UNROLL);
    y, l := Divided(x, s.k);
    i, q := Divided(y, s.Blocks());
    if i >= s.m { AtLeast(s.k, s.Blocks(), s.m, x, y, i); }
  }

  // A later row, or the rows' end, comes at a later turn.
  lemma BeforeEnd(s: Shape, i: nat, q: nat, l: nat, u: nat)
    requires i < s.m && q < s.Blocks() && l < s.k && u < UNROLL
    ensures Turn(s, i, q, l, u) < Turn(s, s.m, 0, 0, 0)
  {
    RowBelow(q, s.Blocks(), i, s.m);
    RowBelow(l, s.k, q + s.Blocks() * i, s.Blocks() * s.m);
  }

  lemma ColumnOfBlock(q: nat, u: nat)
    requires u < UNROLL
    ensures (q * UNROLL + u) / UNROLL == q && (q * UNROLL + u) % UNROLL == u
  {
  }

  lemma RankBelow(n: nat, rep: nat)
    ensures 0 <= n / (rep + 1) <= n
  {
    Split(n, rep + 1);
    RowIsNatural(n, rep + 1);
    MulMono(n / (rep + 1), 1, rep + 1);
  }

  // With every element delivered once the turns are the positions.
  lemma DecodeTurn(s: Shape, i: nat, q: nat, l: nat, u: nat)
    requires q < s.Blocks() && l < s.k && u < UNROLL
    ensures InOrder(s, Turn(s, i, q, l, u)) == Stored(s, l, q * UNROLL + u)
  {
    var x := l + s.k * (q + s.Blocks() * i);
    ModUnique(x * UNROLL + u, x, u, UNROLL);
    ModUnique(x, q + s.Blocks() * i, l, s.k);
    ModUnique(q + s.Blocks() * i, i, q, s.Blocks());
  }

  // The streams' own layout of A changes neither the turns nor what they deliver of B.
  lemma SameTurns(s: Shape, rep: nat, i: nat, q: nat, l: nat, u: nat, r: nat)
    requires 0 < s.k && 0 < s.Blocks()
    ensures Turn(InBlock(s, rep), i, q, l, u) == Turn(s, i, q, l, u) && InOrder(InBlock(s, rep), r) == InOrder(s, r)
  {
  }

  // What the kernel multiplies at a turn is the element of that rank.
  lemma ElementAtTurn(s: Shape, rep: nat, i: nat, q: nat, l: nat, u: nat, r: nat)
    requires i < s.m && q < s.Blocks() && l < s.k && u < UNROLL && r == Turn(s, i, q, l, u) / (rep + 1)
    ensures BIndex(InBlock(s, rep), i, l, q * UNROLL + u) == InOrder(s, r)
  {
    ColumnOfBlock(q, u);
    SameTurns(s, rep, i, q, l, u, r);
    if rep == 0 {
      assert r == Turn(s, i, q, l, u);
      DecodeTurn(s, i, q, l, u);
    }
  }

  lemma DeliveredB(s: Shape, bounds: seq<nat>, strides: seq<nat>, rep: nat, base: nat, i: nat, q: nat, l: nat, u: nat, x: nat, n: nat)
    requires FitsWords(s) && |bounds| == |strides| == LOOPS && Words(bounds) && MaskedWords(strides)
    requires bounds == Counts(BoundsB(s)) && strides == Relative(Counts(BoundsB(s)), StridesB(s), 0)
    requires i < s.m && q < s.Blocks() && l < s.k && u < UNROLL && x <= rep && n == Turn(s, i, q, l, u) * (rep + 1) + x
    ensures After(Config(Enabled(bounds, LOOPS), strides, rep), base, n).ptr == (base + 8 * Stored(s, l, q * UNROLL + u)) % W
  {
    PositionB(s, base, i, q, l, u);
    WholeStrides(s);
    assert bounds[..4] == bounds && strides[..4] == strides;
    ReadDelivers(bounds, strides, rep, LOOPS, BoundsB(s), StridesB(s), base, [u, l, q, i], x, n);
  }

  lemma TurnB(s: Shape, bounds: seq<nat>, strides: seq<nat>, rep: nat, base: nat, i: nat, q: nat, l: nat, u: nat)
    requires FitsWords(s) && |bounds| == |strides| == LOOPS && Words(bounds) && MaskedWords(strides)
    requires bounds == Counts(BoundsB(s)) && strides == Relative(Counts(BoundsB(s)), StridesB(s), 0)
    requires i < s.m && q < s.Blocks() && l < s.k && u < UNROLL
    ensures After(Config(Enabled(bounds, LOOPS), strides, rep), base, Turn(s, i, q, l, u)).ptr
         == (base + 8 * BIndex(InBlock(s, rep), i, l, q * UNROLL + u)) % W
  {
    var n := Turn(s, i, q, l, u);
    var r := n / (rep + 1);
    BeforeEnd(s, i, q, l, u);
    Split(n, rep + 1);
    RankBelow(n, rep);
    var i', q', l', u' := PositionOfRank(s, r);
    ElementAtTurn(s, rep, i, q, l, u, r);
    DeliveredB(s, bounds, strides, rep, base, i', q', l', u', n % (rep + 1), n);
  }

  lemma StreamB(s: Shape, bounds: seq<nat>, strides: seq<nat>, rep: nat, base: nat)
    requires FitsWords(s) && |bounds| == |strides| == LOOPS && Words(bounds) && MaskedWords(strides)
    requires bounds == Counts(BoundsB(s)) && strides == Relative(Counts(BoundsB(s)), StridesB(s), 0)
    ensures FeedsB(s, Config(Enabled(bounds, LOOPS), strides, rep), base)
  {
    var c := Config(Enabled(bounds, LOOPS), strides, rep);
    forall i: nat, q: nat, l: nat, u: nat | i < s.m && q < s.Blocks() && l < s.k && u < UNROLL
      ensures After(c, base, Turn(s, i, q, l, u)).ptr == (base + 8 * BIndex(InBlock(s, rep), i, l, q * UNROLL + u)) % W
    {
      TurnB(s, bounds, strides, rep, base, i, q, l, u);
    }
  }
}
