// Double-precision matrix multiplication: the shape of a product, what each element of C becomes, and the triple loop.
// Sums and products are exact.
module Gemm {
  import opened Arith

  const UNROLL: nat := 8

  /** How A is indexed: by rows, transposed as the triple loop has it, or transposed as the stream set-up has it. */
  datatype Layout = ByRows | Transposed | StreamTransposed

  /**
   * C += A * B with C of m rows and n columns; leading dimensions in elements. A stream may hold each element of B for
   * `held` turns too many.
   */
  datatype Shape = Shape(m: nat, n: nat, k: nat, ldA: nat, la: Layout, ldB: nat, tb: bool, ldC: nat, held: nat)
  {
    predicate Valid() { n <= ldC && 0 < ldC }
    function Blocks(): nat { n / UNROLL }
  }

  /** A matrix in memory, by element index. */
  type Matrix = int -> real

  function AIndex(s: Shape, i: nat, l: nat): int {
    match s.la
    case ByRows => l + i * s.ldA
    case Transposed => l * s.m * s.ldA + i * s.ldA
    case StreamTransposed => l * s.ldA + i * 8
  }

  /** Which element of the streams is used for row i, block q, product l and column u of the block. */
  function Turn(s: Shape, i: nat, q: nat, l: nat, u: nat): nat { (l + s.k * (q + s.Blocks() * i)) * UNROLL + u }

  // Element (l, j) of B.
  function Stored(s: Shape, l: nat, j: nat): int { if s.tb then l + j * s.ldB else l * s.ldB + j }

  // The r-th element of B in the order of the streams.
  function InOrder(s: Shape, r: nat): int
    requires 0 < s.k && 0 < s.Blocks()
  {
    Stored(s, (r / UNROLL) % s.k, (r / UNROLL / s.k) % s.Blocks() * UNROLL + r % UNROLL)
  }

  /** The element of B multiplied as product l of element (i, j) of C. */
  function BIndex(s: Shape, i: nat, l: nat, j: nat): int {
    if s.held == 0 || s.k == 0 || s.Blocks() == 0 then Stored(s, l, j)
    else InOrder(s, Turn(s, i, j / UNROLL, l, j % UNROLL) / (s.held + 1))
  }

  /** The value of element (i, j) of C after the first l products have been added to c. */
  function Sum(s: Shape, a: Matrix, b: Matrix, i: nat, j: nat, l: nat, c: real): real {
    if l == 0 then c else Sum(s, a, b, i, j, l - 1, c) + a(AIndex(s, i, l - 1)) * b(BIndex(s, i, l - 1, j))
  }

  // Over ones everywhere the sum counts the products.
  lemma {:induction false} SumOfOnes(s: Shape, a: Matrix, b: Matrix, i: nat, j: nat, l: nat)
    requires forall e: int :: a(e) == 1.0 && b(e) == 1.0
    ensures Sum(s, a, b, i, j, l, 0.0) == l as real
  {
    if l == 0 {
    } else {
      SumOfOnes(s, a, b, i, j, l - 1);
    }
  }

  lemma RowIsNatural(e: nat, ld: nat)
    requires 0 < ld
    ensures 0 <= e / ld
  {
  }

  function Row(s: Shape, e: nat): nat
    requires s.Valid()
  {
    RowIsNatural(e, s.ldC);
    e / s.ldC
  }

  function Column(s: Shape, e: nat): nat
    requires s.Valid()
  {
    e % s.ldC
  }

  predicate InC(s: Shape, e: nat)
    requires s.Valid()
  {
    Row(s, e) < s.m && Column(s, e) < s.n
  }

  /** What the triple loop leaves in element e of C, which held c. */
  function Updated(s: Shape, a: Matrix, b: Matrix, beta: real, e: nat, c: real): real
    requires s.Valid()
  {
    if InC(s, e) then Sum(s, a, b, Row(s, e), Column(s, e), s.k, beta * c) else c
  }

  // Element e comes before column j of row i.
  predicate Before(s: Shape, e: nat, i: nat, j: nat)
    requires s.Valid()
  {
    Column(s, e) < s.n && (Row(s, e) < i || (Row(s, e) == i && Column(s, e) < j))
  }

  /** Element e of C lies in row i, column j. */
  predicate At(s: Shape, e: nat, i: nat, j: nat)
    requires s.Valid()
  {
    Row(s, e) == i && Column(s, e) == j
  }

  lemma ElementOf(s: Shape, i: nat, j: nat, length: nat)
    requires s.Valid() && i < s.m && j < s.n && (s.m - 1) * s.ldC + s.n <= length
    ensures 0 <= i * s.ldC + j < length && At(s, i * s.ldC + j, i, j)
  {
    Arith.MulMono(s.ldC, i, s.m - 1);
    Arith.ModUnique(i * s.ldC + j, i, j, s.ldC);
  }

  lemma SameElement(s: Shape, x: nat, e: nat, i: nat, j: nat)
    requires s.Valid() && At(s, x, i, j) && At(s, e, i, j)
    ensures x == e
  {
    Arith.Split(x, s.ldC);
    Arith.Split(e, s.ldC);
  }

  // ---------------------------------------------------------------- the triple loop

  // The elements before column j of row i have their final value, the others are as they were.
  ghost predicate DoneBefore(s: Shape, final: seq<real>, was: seq<real>, now: seq<real>, i: nat, j: nat)
    requires s.Valid()
  {
    |now| == |was| == |final|
    && forall e :: 0 <= e < |now| ==> now[e] == if Before(s, e, i, j) then final[e] else was[e]
  }

  lemma DoneOneMore(s: Shape, final: seq<real>, was: seq<real>, now: seq<real>, i: nat, j: nat, e: nat)
    requires s.Valid() && DoneBefore(s, final, was, now, i, j) && j < s.n && At(s, e, i, j) && e < |now|
    ensures now[e] == was[e]
    ensures DoneBefore(s, final, was, now[e := final[e]], i, j + 1)
  {
    forall x: nat | x < |now| ensures Before(s, x, i, j + 1) <==> Before(s, x, i, j) || x == e {
      if At(s, x, i, j) { SameElement(s, x, e, i, j); }
    }
  }

  lemma DoneRow(s: Shape, final: seq<real>, was: seq<real>, now: seq<real>, i: nat)
    requires s.Valid() && DoneBefore(s, final, was, now, i, s.n)
    ensures DoneBefore(s, final, was, now, i + 1, 0)
  {
    forall e: nat | e < |now| ensures Before(s, e, i + 1, 0) <==> Before(s, e, i, s.n) {
    }
  }

  lemma AllDone(s: Shape, final: seq<real>, was: seq<real>, now: seq<real>)
    requires s.Valid() && DoneBefore(s, final, was, now, s.m, 0)
    requires forall e: nat :: e < |was| && !InC(s, e) ==> final[e] == was[e]
    ensures now == final
  {
    forall e: nat | e < |now| ensures now[e] == final[e] {
      assert Before(s, e, s.m, 0) <==> InC(s, e);
    }
  }

  lemma NoneDone(s: Shape, final: seq<real>, was: seq<real>)
    requires s.Valid() && |final| == |was|
    ensures DoneBefore(s, final, was, was, 0, 0)
  {
    assert forall e: nat :: e < |was| ==> !Before(s, e, 0, 0);
  }

  /** C after the triple loop. */
  function Result(s: Shape, a: Matrix, b: Matrix, beta: real, was: seq<real>): (r: seq<real>)
    requires s.Valid()
    ensures |r| == |was|
  {
    seq(|was|, e requires 0 <= e < |was| => Updated(s, a, b, beta, e, was[e]))
  }

  lemma UpdatedInC(s: Shape, a: Matrix, b: Matrix, beta: real, e: nat, v: real)
    requires s.Valid() && InC(s, e)
    ensures Updated(s, a, b, beta, e, v) == Sum(s, a, b, Row(s, e), Column(s, e), s.k, beta * v)
  {
  }

  lemma ResultAt(s: Shape, a: Matrix, b: Matrix, beta: real, was: seq<real>, i: nat, j: nat, e: nat, v: real)
    requires s.Valid() && i < s.m && j < s.n && At(s, e, i, j) && e < |was| && v == was[e]
    ensures Result(s, a, b, beta, was)[e] == Sum(s, a, b, i, j, s.k, beta * v)
  {
    UpdatedInC(s, a, b, beta, e, v);
  }

  method Store(c: array<real>, e: nat, v: real)
    requires e < c.Length
    modifies c
    ensures c[..] == old(c[..])[e := v]
  {
    c[e] := v;
  }

  method AddProducts(s: Shape, a: Matrix, b: Matrix, i: nat, j: nat, c: real) returns (c0: real)
    ensures c0 == Sum(s, a, b, i, j, s.k, c)
  {
    c0 := c;
    var l := 0;
    while l < s.k
      invariant 0 <= l <= s.k && c0 == Sum(s, a, b, i, j, l, c)
    {
      c0 := c0 + a(AIndex(s, i, l)) * b(BIndex(s, i, l, j));
      l := l + 1;
    }
  }

  method BaselineElement(s: Shape, a: Matrix, b: Matrix, c: array<real>, beta: real, i: nat, j: nat, ghost was: seq<real>)
    requires s.Valid() && i < s.m && j < s.n && (s.m - 1) * s.ldC + s.n <= c.Length
    requires DoneBefore(s, Result(s, a, b, beta, was), was, c[..], i, j)
    modifies c
    ensures DoneBefore(s, Result(s, a, b, beta, was), was, c[..], i, j + 1)
  {
    ElementOf(s, i, j, c.Length);
    var e := i * s.ldC + j;
    ghost var now, final := c[..], Result(s, a, b, beta, was);
    DoneOneMore(s, final, was, now, i, j, e);
    var v := c[e];
    ResultAt(s, a, b, beta, was, i, j, e, v);
    var c0 := AddProducts(s, a, b, i, j, beta * v);
    Store(c, e, c0);
    assert c[..] == now[e := final[e]];
  }

  method BaselineRow(s: Shape, a: Matrix, b: Matrix, c: array<real>, beta: real, i: nat, ghost was: seq<real>)
    requires s.Valid() && i < s.m && (s.m - 1) * s.ldC + s.n <= c.Length
    requires DoneBefore(s, Result(s, a, b, beta, was), was, c[..], i, 0)
    modifies c
    ensures DoneBefore(s, Result(s, a, b, beta, was), was, c[..], i + 1, 0)
  {
    ghost var final := Result(s, a, b, beta, was);
    var j := 0;
    while j < s.n
      invariant 0 <= j <= s.n && DoneBefore(s, final, was, c[..], i, j)
    {
      BaselineElement(s, a, b, c, beta, i, j, was);
      j := j + 1;
    }
    DoneRow(s, final, was, c[..], i);
  }

  method GemmFp64Baseline(s: Shape, a: Matrix, b: Matrix, c: array<real>, beta: real)
    requires s.Valid() && (s.m - 1) * s.ldC + s.n <= c.Length
    modifies c
    ensures c[..] == Result(s, a, b, beta, old(c[..]))
  {
    ghost var was := c[..];
    ghost var final := Result(s, a, b, beta, was);
    NoneDone(s, final, was);
    var i := 0;
    while i < s.m
      invariant 0 <= i <= s.m && DoneBefore(s, final, was, c[..], i, 0)
    {
      BaselineRow(s, a, b, c, beta, i, was);
      i := i + 1;
    }
    AllDone(s, final, was, c[..]);
  }
}
