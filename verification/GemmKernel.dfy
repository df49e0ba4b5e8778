// The streamed kernel: eight columns at a time from the two streams, the leftover columns one by one.
module GemmKernel {
  import opened Arith
  import opened Ssr
  import opened Gemm
  import opened GemmStreams

  /**
   * How column j is computed: from the streams, with each element of B repeated `rep` times, or left over and then as if
   * only B were transposed, whatever they are.
   */
  function Treated(s: Shape, rep: nat, j: nat): Shape {
    if j < s.Blocks() * UNROLL then InBlock(s, rep) else s.(la := ByRows, tb := true, held := 0)
  }

  // The kernel tests beta, it does not multiply by it.
  function Start(beta: nat, c: real): real { if beta != 0 then c else 0.0 }

  function Streamed(s: Shape, rep: nat, a: Matrix, b: Matrix, beta: nat, e: nat, c: real): real
    requires s.Valid()
  {
    if InC(s, e) then Sum(Treated(s, rep, Column(s, e)), a, b, Row(s, e), Column(s, e), s.k, Start(beta, c)) else c
  }

  /** C after the unrolled kernel. */
  function StreamedResult(s: Shape, rep: nat, a: Matrix, b: Matrix, beta: nat, was: seq<real>): (r: seq<real>)
    requires s.Valid()
    ensures |r| == |was|
  {
    seq(|was|, e requires 0 <= e < |was| => Streamed(s, rep, a, b, beta, e, was[e]))
  }

  lemma StreamedAt(s: Shape, rep: nat, a: Matrix, b: Matrix, beta: nat, was: seq<real>, i: nat, j: nat, e: nat)
    requires s.Valid() && i < s.m && j < s.n && At(s, e, i, j) && e < |was|
    ensures StreamedResult(s, rep, a, b, beta, was)[e] == Sum(Treated(s, rep, j), a, b, i, j, s.k, Start(beta, was[e]))
  {
    assert InC(s, e);
  }

  // The two data movers stand at the element for this turn.
  ghost predicate Ready(s: Shape, rep: nat, dm0: DataMover, dm1: DataMover, baseA: nat, baseB: nat, turn: nat)
    reads dm0, dm1
  {
    && dm0.Valid() && dm1.Valid() && dm0.base == baseA && dm1.base == baseB
    && FeedsA(s, dm0.config, baseA) && FeedsB(s, dm1.config, baseB) && dm1.config.repeat == rep
    && dm0.taken == dm1.taken == turn
  }

  // Accumulator u of a block, after l products.
  ghost predicate Accumulated(s: Shape, rep: nat, a: Matrix, b: Matrix, i: nat, q: nat, l: nat, first: real, acc: real, u: nat) {
    acc == Sum(InBlock(s, rep), a, b, i, q * UNROLL + u, l, first)
  }

  lemma OneMoreProduct(s: Shape, rep: nat, a: Matrix, b: Matrix, i: nat, q: nat, l: nat, first: real, c: real, u: nat, x: real, y: real)
    requires Accumulated(s, rep, a, b, i, q, l, first, c, u)
    requires x == a(AIndex(InBlock(s, rep), i, l)) && y == b(BIndex(InBlock(s, rep), i, l, q * UNROLL + u))
    ensures Accumulated(s, rep, a, b, i, q, l + 1, first, c + x * y, u)
  {
  }

  lemma NextTurn(s: Shape, i: nat, q: nat, l: nat, u: nat)
    ensures Turn(s, i, q, l, u + 1) == Turn(s, i, q, l, u) + 1
  {
  }

  /** One instruction of the FREP body: c[u] += ft0 * ft1. */
  method MultiplyAdd(s: Shape, ghost rep: nat, mem: Memory, dm0: DataMover, dm1: DataMover, ghost baseA: nat, ghost baseB: nat,
                     ghost i: nat, ghost q: nat, ghost l: nat, ghost u: nat, ghost first: real, c: real) returns (r: real)
    requires dm0 != dm1 && i < s.m && q < s.Blocks() && l < s.k && u < UNROLL
    requires Ready(s, rep, dm0, dm1, baseA, baseB, Turn(s, i, q, l, u))
    requires Accumulated(s, rep, Doubles(mem, baseA), Doubles(mem, baseB), i, q, l, first, c, u)
    modifies dm0`taken, dm0`stream, dm1`taken, dm1`stream
    ensures Ready(s, rep, dm0, dm1, baseA, baseB, Turn(s, i, q, l, u + 1))
    ensures Accumulated(s, rep, Doubles(mem, baseA), Doubles(mem, baseB), i, q, l + 1, first, r, u)
  {
    var p0 := dm0.Pop();
    var p1 := dm1.Pop();
    var ft0, ft1 := mem(p0), mem(p1);
    r := c + ft0 * ft1;
    OneMoreProduct(s, rep, Doubles(mem, baseA), Doubles(mem, baseB), i, q, l, first, c, u, ft0, ft1);
    NextTurn(s, i, q, l, u);
  }

  // One pass through the FREP body.
  method FrepPass(s: Shape, ghost rep: nat, mem: Memory, dm0: DataMover, dm1: DataMover, ghost baseA: nat, ghost baseB: nat,
                  ghost i: nat, ghost q: nat, ghost l: nat, ghost first: seq<real>, acc: seq<real>) returns (r: seq<real>)
    requires dm0 != dm1 && i < s.m && q < s.Blocks() && l < s.k && |acc| == |first| == UNROLL
    requires Ready(s, rep, dm0, dm1, baseA, baseB, Turn(s, i, q, l, 0))
    requires forall u: nat :: u < UNROLL ==> Accumulated(s, rep, Doubles(mem, baseA), Doubles(mem, baseB), i, q, l, first[u], acc[u], u)
    modifies dm0`taken, dm0`stream, dm1`taken, dm1`stream
    ensures Ready(s, rep, dm0, dm1, baseA, baseB, Turn(s, i, q, l + 1, 0)) && |r| == UNROLL
    ensures forall u: nat :: u < UNROLL ==> Accumulated(s, rep, Doubles(mem, baseA), Doubles(mem, baseB), i, q, l + 1, first[u], r[u], u)
  {
    ghost var a, b := Doubles(mem, baseA), Doubles(mem, baseB);
    r := acc;
    var u := 0;
    while u < UNROLL
      invariant 0 <= u <= UNROLL && |r| == UNROLL
      invariant Ready(s, rep, dm0, dm1, baseA, baseB, Turn(s, i, q, l, u))
      invariant forall x: nat :: x < u ==> Accumulated(s, rep, a, b, i, q, l + 1, first[x], r[x], x)
      invariant forall x: nat :: u <= x < UNROLL ==> r[x] == acc[x]
    {
      assert Accumulated(s, rep, a, b, i, q, l, first[u], acc[u], u);
      var v := MultiplyAdd(s, rep, mem, dm0, dm1, baseA, baseB, i, q, l, u, first[u], r[u]);
      r := r[u := v];
      u := u + 1;
    }
    TurnsInOrder(s, i, q, l, 0);
  }

  /** The FREP loop: k passes through a body of eight multiply-adds. */
  method FrepBlock(s: Shape, ghost rep: nat, mem: Memory, dm0: DataMover, dm1: DataMover, ghost baseA: nat, ghost baseB: nat,
                   ghost i: nat, ghost q: nat, first: seq<real>) returns (r: seq<real>)
    requires dm0 != dm1 && i < s.m && q < s.Blocks() && |first| == UNROLL && 0 < s.k
    requires Ready(s, rep, dm0, dm1, baseA, baseB, Turn(s, i, q, 0, 0))
    modifies dm0`taken, dm0`stream, dm1`taken, dm1`stream
    ensures Ready(s, rep, dm0, dm1, baseA, baseB, Turn(s, i, q + 1, 0, 0)) && |r| == UNROLL
    ensures forall u: nat :: u < UNROLL ==> Accumulated(s, rep, Doubles(mem, baseA), Doubles(mem, baseB), i, q, s.k, first[u], r[u], u)
  {
    ghost var a, b := Doubles(mem, baseA), Doubles(mem, baseB);
    r := first;
    var l := 0;
    while l < s.k
      invariant 0 <= l <= s.k && |r| == UNROLL
      invariant Ready(s, rep, dm0, dm1, baseA, baseB, Turn(s, i, q, l, 0))
      invariant forall u: nat :: u < UNROLL ==> Accumulated(s, rep, a, b, i, q, l, first[u], r[u], u)
    {
      r := FrepPass(s, rep, mem, dm0, dm1, baseA, baseB, i, q, l, first, r);
      l := l + 1;
    }
    TurnsInOrder(s, i, q, 0, 0);
  }

  lemma BlockColumn(s: Shape, rep: nat, q: nat, u: nat)
    requires q < s.Blocks() && u < UNROLL
    ensures q * UNROLL + u < s.Blocks() * UNROLL <= s.n
    ensures Treated(s, rep, q * UNROLL + u) == InBlock(s, rep)
  {
  }

  // The block of C from element `at` on lies within the array.
  predicate Room(s: Shape, c: array<real>, at: nat) {
    at <= c.Length && at + (s.m - 1) * s.ldC + s.n <= c.Length
  }

  method StoreAt(c: array<real>, at: nat, e: nat, v: real)
    requires at + e < c.Length
    modifies c
    ensures c[at..] == old(c[at..])[e := v] && c[..at] == old(c[..at])
  {
    c[at + e] := v;
  }

  // Loading the block's elements of C, or zeros.
  method LoadBlock(s: Shape, ghost rep: nat, c: array<real>, at: nat, beta: nat, i: nat, q: nat, ghost final: seq<real>, ghost was: seq<real>)
    returns (first: seq<real>)
    requires s.Valid() && i < s.m && q < s.Blocks() && Room(s, c, at)
    requires DoneBefore(s, final, was, c[at..], i, q * UNROLL)
    ensures |first| == UNROLL
    ensures forall u: nat, e: nat :: u < UNROLL && e < |was| && At(s, e, i, q * UNROLL + u) ==> first[u] == Start(beta, was[e])
  {
    first := [];
    var u := 0;
    while u < UNROLL
      invariant 0 <= u <= UNROLL && |first| == u
      invariant forall x: nat, e: nat :: x < u && e < |was| && At(s, e, i, q * UNROLL + x) ==> first[x] == Start(beta, was[e])
    {
      BlockColumn(s, rep, q, u);
      ElementOf(s, i, q * UNROLL + u, c.Length - at);
      var here := i * s.ldC + (q * UNROLL + u);
      assert !Before(s, here, i, q * UNROLL);
      var v := if beta != 0 then c[at + here] else 0.0;
      forall e: nat | e < |was| && At(s, e, i, q * UNROLL + u) ensures v == Start(beta, was[e]) {
        SameElement(s, e, here, i, q * UNROLL + u);
      }
      first := first + [v];
      u := u + 1;
    }
  }

  method StoreElement(s: Shape, c: array<real>, at: nat, i: nat, j: nat, v: real, ghost final: seq<real>, ghost was: seq<real>)
    requires s.Valid() && i < s.m && j < s.n && Room(s, c, at)
    requires DoneBefore(s, final, was, c[at..], i, j)
    requires forall e: nat :: e < |final| && At(s, e, i, j) ==> v == final[e]
    modifies c
    ensures c[..at] == old(c[..at])
    ensures DoneBefore(s, final, was, c[at..], i, j + 1)
  {
    ElementOf(s, i, j, c.Length - at);
    var e := i * s.ldC + j;
    ghost var now := c[at..];
    DoneOneMore(s, final, was, now, i, j, e);
    StoreAt(c, at, e, v);
    assert c[at..] == now[e := final[e]];
  }

  // Storing the eight results.
  method StoreBlock(s: Shape, ghost rep: nat, c: array<real>, at: nat, i: nat, q: nat, r: seq<real>, ghost final: seq<real>, ghost was: seq<real>)
    requires s.Valid() && i < s.m && q < s.Blocks() && Room(s, c, at) && |r| == UNROLL
    requires DoneBefore(s, final, was, c[at..], i, q * UNROLL)
    requires forall u: nat, e: nat :: u < UNROLL && e < |final| && At(s, e, i, q * UNROLL + u) ==> r[u] == final[e]
    modifies c
    ensures c[..at] == old(c[..at])
    ensures DoneBefore(s, final, was, c[at..], i, (q + 1) * UNROLL)
  {
    var u := 0;
    while u < UNROLL
      invariant 0 <= u <= UNROLL && DoneBefore(s, final, was, c[at..], i, q * UNROLL + u)
      invariant c[..at] == old(c[..at])
    {
      BlockColumn(s, rep, q, u);
      StoreElement(s, c, at, i, q * UNROLL + u, r[u], final, was);
      u := u + 1;
    }
  }

  /** A leftover column of row i. */
  method Leftover(s: Shape, ghost rep: nat, a: Matrix, b: Matrix, c: array<real>, at: nat, beta: nat, i: nat, j: nat, ghost was: seq<real>)
    requires s.Valid() && i < s.m && s.Blocks() * UNROLL <= j < s.n && Room(s, c, at)
    requires DoneBefore(s, StreamedResult(s, rep, a, b, beta, was), was, c[at..], i, j)
    modifies c
    ensures c[..at] == old(c[..at])
    ensures DoneBefore(s, StreamedResult(s, rep, a, b, beta, was), was, c[at..], i, j + 1)
  {
    ghost var final := StreamedResult(s, rep, a, b, beta, was);
    ElementOf(s, i, j, c.Length - at);
    var e := i * s.ldC + j;
    DoneOneMore(s, final, was, c[at..], i, j, e);
    var v := if beta != 0 then c[at + e] else 0.0;
    StreamedAt(s, rep, a, b, beta, was, i, j, e);
    v := AddProducts(s.(la := ByRows, tb := true, held := 0), a, b, i, j, v);
    forall x: nat | x < |final| && At(s, x, i, j) ensures v == final[x] {
      SameElement(s, x, e, i, j);
    }
    StoreElement(s, c, at, i, j, v, final, was);
  }

  // Eight columns of row i.
  method Block(s: Shape, ghost rep: nat, mem: Memory, dm0: DataMover, dm1: DataMover, ghost baseA: nat, ghost baseB: nat,
               c: array<real>, at: nat, beta: nat, i: nat, q: nat, ghost was: seq<real>)
    requires dm0 != dm1 && s.Valid() && i < s.m && q < s.Blocks() && 0 < s.k && Room(s, c, at)
    requires Ready(s, rep, dm0, dm1, baseA, baseB, Turn(s, i, q, 0, 0))
    requires DoneBefore(s, StreamedResult(s, rep, Doubles(mem, baseA), Doubles(mem, baseB), beta, was), was, c[at..], i, q * UNROLL)
    modifies c, dm0`taken, dm0`stream, dm1`taken, dm1`stream
    ensures c[..at] == old(c[..at])
    ensures Ready(s, rep, dm0, dm1, baseA, baseB, Turn(s, i, q + 1, 0, 0))
    ensures DoneBefore(s, StreamedResult(s, rep, Doubles(mem, baseA), Doubles(mem, baseB), beta, was), was, c[at..], i, (q + 1) * UNROLL)
  {
    ghost var a, b := Doubles(mem, baseA), Doubles(mem, baseB);
    ghost var final := StreamedResult(s, rep, a, b, beta, was);
    var first := LoadBlock(s, rep, c, at, beta, i, q, final, was);
    var r := FrepBlock(s, rep, mem, dm0, dm1, baseA, baseB, i, q, first);
    forall u: nat, e: nat | u < UNROLL && e < |final| && At(s, e, i, q * UNROLL + u) ensures r[u] == final[e] {
      BlockColumn(s, rep, q, u);
      StreamedAt(s, rep, a, b, beta, was, i, q * UNROLL + u, e);
      assert Accumulated(s, rep, a, b, i, q, s.k, first[u], r[u], u);
    }
    StoreBlock(s, rep, c, at, i, q, r, final, was);
  }

  method GemmRow(s: Shape, ghost rep: nat, mem: Memory, dm0: DataMover, dm1: DataMover, baseA: nat, baseB: nat,
                 c: array<real>, at: nat, beta: nat, i: nat, ghost was: seq<real>)
    requires dm0 != dm1 && s.Valid() && i < s.m && 0 < s.k && Room(s, c, at)
    requires Ready(s, rep, dm0, dm1, baseA, baseB, Turn(s, i, 0, 0, 0))
    requires DoneBefore(s, StreamedResult(s, rep, Doubles(mem, baseA), Doubles(mem, baseB), beta, was), was, c[at..], i, 0)
    modifies c, dm0`taken, dm0`stream, dm1`taken, dm1`stream
    ensures c[..at] == old(c[..at])
    ensures Ready(s, rep, dm0, dm1, baseA, baseB, Turn(s, i + 1, 0, 0, 0))
    ensures DoneBefore(s, StreamedResult(s, rep, Doubles(mem, baseA), Doubles(mem, baseB), beta, was), was, c[at..], i + 1, 0)
  {
    var a, b := Doubles(mem, baseA), Doubles(mem, baseB);
    ghost var final := StreamedResult(s, rep, a, b, beta, was);
    var q := 0;
    while q < s.Blocks()
      invariant 0 <= q <= s.Blocks() && Ready(s, rep, dm0, dm1, baseA, baseB, Turn(s, i, q, 0, 0))
      invariant DoneBefore(s, final, was, c[at..], i, q * UNROLL)
      invariant c[..at] == old(c[..at])
    {
      Block(s, rep, mem, dm0, dm1, baseA, baseB, c, at, beta, i, q, was);
      q := q + 1;
    }
    TurnsInOrder(s, i, 0, 0, 0);
    var j := q * UNROLL;
    while j < s.n
      invariant s.Blocks() * UNROLL <= j <= s.n && Ready(s, rep, dm0, dm1, baseA, baseB, Turn(s, i + 1, 0, 0, 0))
      invariant DoneBefore(s, final, was, c[at..], i, j)
      invariant c[..at] == old(c[..at])
    {
      Leftover(s, rep, a, b, c, at, beta, i, j, was);
      j := j + 1;
    }
    DoneRow(s, final, was, c[at..], i);
  }

  // The registers hold what the set-up for this shape writes; it leaves the repetition of the second data mover alone.
  ghost predicate SetUpFor(s: Shape, dm0: DataMover, dm1: DataMover)
    reads dm0, dm1
  {
    && dm0.SetUp(BoundsA(s), StridesA(s)) && dm0.repetition == UNROLL - 1
    && dm1.SetUp(BoundsB(s), StridesB(s))
  }

  method SetUpStreamA(s: Shape, dm0: DataMover)
    requires dm0.Valid()
    modifies dm0`bounds, dm0`strides, dm0`repetition
    ensures dm0.Valid() && dm0.SetUp(BoundsA(s), StridesA(s)) && dm0.repetition == UNROLL - 1
  {
    if s.la.ByRows? {
      dm0.Loop3d(s.k, s.Blocks(), s.m, 8, 0, (8 * s.ldA) % W);
    } else {
      dm0.Loop3d(s.k, s.Blocks(), s.m, (8 * s.ldA) % W, 0, 8 * 8);
    }
    dm0.Repeat(UNROLL);
  }

  method SetUpStreamB(s: Shape, dm1: DataMover)
    requires dm1.Valid()
    modifies dm1`bounds, dm1`strides
    ensures dm1.Valid() && dm1.SetUp(BoundsB(s), StridesB(s))
  {
    if s.tb {
      dm1.Loop4d(UNROLL, s.k, s.Blocks(), s.m, (8 * s.ldB) % W, 8, (8 * s.ldB * UNROLL) % W, 0);
    } else {
      dm1.Loop4d(UNROLL, s.k, s.Blocks(), s.m, 8, (8 * s.ldB) % W, 8 * UNROLL, 0);
    }
  }

  method SetUpStreams(s: Shape, dm0: DataMover, dm1: DataMover)
    requires dm0 != dm1 && dm0.Valid() && dm1.Valid()
    modifies dm0`bounds, dm0`strides, dm0`repetition, dm1`bounds, dm1`strides
    ensures dm0.Valid() && dm1.Valid() && SetUpFor(s, dm0, dm1)
  {
    SetUpStreamA(s, dm0);
    SetUpStreamB(s, dm1);
  }

  // The start addresses are written for every call.
  method StartStreams(s: Shape, baseA: nat, baseB: nat, dm0: DataMover, dm1: DataMover)
    requires FitsWords(s) && dm0 != dm1 && dm0.Valid() && dm1.Valid() && SetUpFor(s, dm0, dm1)
    modifies dm0`config, dm0`base, dm0`taken, dm0`stream, dm1`config, dm1`base, dm1`taken, dm1`stream
    ensures Ready(s, dm1.repetition, dm0, dm1, baseA, baseB, 0)
  {
    StreamA(s, dm0.bounds, dm0.strides, baseA);
    assert dm1.bounds[..4] == dm1.bounds && dm1.strides[..4] == dm1.strides;
    StreamB(s, dm1.bounds, dm1.strides, dm1.repetition, baseB);
    dm0.Read(LOOPS, baseA);
    dm1.Read(LOOPS, baseB);
  }

  method ComputeRows(s: Shape, ghost rep: nat, mem: Memory, dm0: DataMover, dm1: DataMover, baseA: nat, baseB: nat,
                     c: array<real>, at: nat, beta: nat)
    requires dm0 != dm1 && s.Valid() && 0 < s.k && Room(s, c, at) && Ready(s, rep, dm0, dm1, baseA, baseB, 0)
    modifies c, dm0`taken, dm0`stream, dm1`taken, dm1`stream
    ensures dm0.Valid() && dm1.Valid() && c[..at] == old(c[..at])
    ensures c[at..] == StreamedResult(s, rep, Doubles(mem, baseA), Doubles(mem, baseB), beta, old(c[at..]))
  {
    ghost var was := c[at..];
    ghost var final := StreamedResult(s, rep, Doubles(mem, baseA), Doubles(mem, baseB), beta, was);
    NoneDone(s, final, was);
    TurnsInOrder(s, 0, 0, 0, 0);
    var i := 0;
    while i < s.m
      invariant 0 <= i <= s.m && Ready(s, rep, dm0, dm1, baseA, baseB, Turn(s, i, 0, 0, 0))
      invariant DoneBefore(s, final, was, c[at..], i, 0)
      invariant c[..at] == old(c[..at])
    {
      GemmRow(s, rep, mem, dm0, dm1, baseA, baseB, c, at, beta, i, was);
      i := i + 1;
    }
    AllDone(s, final, was, c[at..]);
  }

  /**
   * The kernel; with `setup` false the registers are those of an earlier call for the same shape. How often the second
   * data mover repeats an element is left to whoever last wrote that register.
   */
  method GemmFp64Opt(s: Shape, mem: Memory, baseA: nat, baseB: nat, c: array<real>, at: nat, beta: nat, setup: bool,
                     dm0: DataMover, dm1: DataMover)
    requires s.Valid() && FitsWords(s) && 0 < s.k && Room(s, c, at)
    requires dm0 != dm1 && dm0.Valid() && dm1.Valid()
    requires !setup ==> SetUpFor(s, dm0, dm1)
    modifies c, dm0, dm1
    ensures c[at..] == StreamedResult(s, old(dm1.repetition), Doubles(mem, baseA), Doubles(mem, baseB), beta, old(c[at..]))
    ensures c[..at] == old(c[..at])
    ensures dm0.Valid() && dm1.Valid() && SetUpFor(s, dm0, dm1) && dm1.repetition == old(dm1.repetition)
  {
    ghost var rep := dm1.repetition;
    if setup { SetUpStreams(s, dm0, dm1); }
    StartStreams(s, baseA, baseB, dm0, dm1);
    ComputeRows(s, rep, mem, dm0, dm1, baseA, baseB, c, at, beta);
  }
}
