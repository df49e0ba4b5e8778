// When the streamed kernel computes what the triple loop computes.
module GemmAgreement {
  import opened Arith
  import opened Gemm
  import opened GemmStreams
  import opened GemmKernel

  /** The triple loop multiplies C by beta, the kernel only tests it. */
  ghost predicate Agree(s: Shape, rep: nat, a: Matrix, b: Matrix, beta: nat, was: seq<real>)
    requires s.Valid()
  {
    StreamedResult(s, rep, a, b, beta, was) == Result(s, a, b, beta as real, was)
  }

  // The shapes both kernels are called with.
  predicate Callable(s: Shape) { s.Valid() && 0 < s.k && !s.la.StreamTransposed? && s.held == 0 }

  /** The stream of a transposed A follows the triple loop: there is one row, or eight-element rows of one product. */
  predicate StreamOfAIsRight(s: Shape) { s.la.ByRows? || s.m == 1 || (s.ldA == 8 && s.k == 1) }

  /** No element of B is repeated, or all products take the same one. */
  predicate StreamOfBIsRight(s: Shape, rep: nat) { rep == 0 || (s.tb && s.ldB == 0 && s.k == 1) }

  predicate BlocksAreRight(s: Shape, rep: nat) {
    s.Blocks() == 0 || (StreamOfAIsRight(s) && StreamOfBIsRight(s, rep))
  }

  /** Treating only B as transposed does no harm to the leftover columns: there are none, or the layouts coincide. */
  predicate LeftoverIsRight(s: Shape) {
    || s.n % UNROLL == 0
    || (s.la.ByRows? && (s.tb || s.ldB == 1 || (s.n == 1 && s.k == 1)))
    || (s.la.Transposed? && s.k == 1 && (s.tb || s.ldB == 1 || s.n == 1))
    || (s.la.Transposed? && s.m * s.ldA == 1 && (s.tb || s.ldB == 1))
  }

  /** What a caller can check: the shape, beta, and how often the second data mover has been told to repeat. */
  predicate KernelIsRight(s: Shape, rep: nat, beta: nat) {
    s.m == 0 || s.n == 0 || (beta <= 1 && BlocksAreRight(s, rep) && LeftoverIsRight(s))
  }

  // ---------------------------------------------------------------- they agree

  lemma {:induction false} SameColumns(s: Shape, t: Shape, a: Matrix, b: Matrix, i: nat, j: nat, l: nat, c: real)
    requires forall x: nat :: x < l ==> AIndex(s, i, x) == AIndex(t, i, x) && BIndex(s, i, x, j) == BIndex(t, i, x, j)
    ensures Sum(s, a, b, i, j, l, c) == Sum(t, a, b, i, j, l, c)
  {
    if l == 0 {
    } else {
      SameColumns(s, t, a, b, i, j, l - 1, c);
    }
  }

  // With one product and columns that coincide there is only one element of B.
  lemma OnlyElement(s: Shape, rep: nat, i: nat, l: nat, j: nat)
    requires s.tb && s.ldB == 0 && s.k == 1 && l == 0
    ensures BIndex(InBlock(s, rep), i, l, j) == 0
  {
  }

  lemma OneRow(m: nat, ld: nat)
    requires m * ld == 1
    ensures m == 1 && ld == 1
  {
    if m > 1 { MulMono(ld, 2, m); }
  }

  lemma LayoutsCoincide(s: Shape, rep: nat, i: nat, j: nat, l: nat)
    requires Callable(s) && BlocksAreRight(s, rep) && LeftoverIsRight(s) && i < s.m && j < s.n && l < s.k
    ensures AIndex(Treated(s, rep, j), i, l) == AIndex(s, i, l)
    ensures BIndex(Treated(s, rep, j), i, l, j) == BIndex(s, i, l, j)
  {
    if j < s.Blocks() * UNROLL {
      if rep > 0 { OnlyElement(s, rep, i, l, j); }
    } else if s.la.Transposed? && s.m * s.ldA == 1 {
      OneRow(s.m, s.ldA);
    }
  }

  lemma StartIsProduct(beta: nat, v: real)
    requires beta <= 1
    ensures Start(beta, v) == (beta as real) * v
  {
    if beta == 0 { assert (0 as real) * v == 0.0; } else { assert (1 as real) * v == v; }
  }

  lemma ElementAgrees(s: Shape, rep: nat, a: Matrix, b: Matrix, beta: nat, was: seq<real>, e: nat)
    requires Callable(s) && KernelIsRight(s, rep, beta) && e < |was| && InC(s, e)
    ensures StreamedResult(s, rep, a, b, beta, was)[e] == Result(s, a, b, beta as real, was)[e]
  {
    var i, j, v := Row(s, e), Column(s, e), was[e];
    forall l: nat | l < s.k
      ensures AIndex(Treated(s, rep, j), i, l) == AIndex(s, i, l) && BIndex(Treated(s, rep, j), i, l, j) == BIndex(s, i, l, j)
    {
      LayoutsCoincide(s, rep, i, j, l);
    }
    StreamedAt(s, rep, a, b, beta, was, i, j, e);
    ResultAt(s, a, b, beta as real, was, i, j, e, v);
    StartIsProduct(beta, v);
    SameColumns(Treated(s, rep, j), s, a, b, i, j, s.k, Start(beta, v));
  }

  lemma RightMeansAgree(s: Shape, rep: nat, a: Matrix, b: Matrix, beta: nat, was: seq<real>)
    requires Callable(s) && KernelIsRight(s, rep, beta)
    ensures Agree(s, rep, a, b, beta, was)
  {
    var x, y := StreamedResult(s, rep, a, b, beta, was), Result(s, a, b, beta as real, was);
    forall e: nat | e < |was| ensures x[e] == y[e] {
      if InC(s, e) { ElementAgrees(s, rep, a, b, beta, was, e); }
    }
  }

  // ---------------------------------------------------------------- they differ

  // A matrix with a single one.
  function Unit(at: int): Matrix { (e: int) => if e == at then 1.0 else 0.0 }

  // Product l of element (i, j) multiplies these two elements.
  predicate Uses(s: Shape, i: nat, j: nat, l: nat, x: int, y: int) {
    AIndex(s, i, l) == x && BIndex(s, i, l, j) == y
  }

  lemma {:induction false} SumOfUnits(s: Shape, i: nat, j: nat, n: nat, x: int, y: int)
    ensures Sum(s, Unit(x), Unit(y), i, j, n, 0.0) >= 0.0
    ensures (forall l: nat :: l < n ==> !Uses(s, i, j, l, x, y)) ==> Sum(s, Unit(x), Unit(y), i, j, n, 0.0) == 0.0
    ensures (exists l: nat :: l < n && Uses(s, i, j, l, x, y)) ==> Sum(s, Unit(x), Unit(y), i, j, n, 0.0) >= 1.0
  {
    if n == 0 {
    } else {
      SumOfUnits(s, i, j, n - 1, x, y);
      assert Unit(x)(AIndex(s, i, n - 1)) * Unit(y)(BIndex(s, i, n - 1, j)) == if Uses(s, i, j, n - 1, x, y) then 1.0 else 0.0;
    }
  }

  // One of the kernels multiplies elements x and y for element (i, j), the other does not.
  ghost predicate Differs(s: Shape, rep: nat, i: nat, j: nat, x: int, y: int) {
    && i < s.m && j < s.n
    && (exists l: nat :: l < s.k && Uses(s, i, j, l, x, y)) != (exists l: nat :: l < s.k && Uses(Treated(s, rep, j), i, j, l, x, y))
  }

  lemma OnlyInLoop(s: Shape, rep: nat, i: nat, j: nat, l: nat)
    requires i < s.m && j < s.n && l < s.k
    requires forall x: nat :: x < s.k ==> !Uses(Treated(s, rep, j), i, j, x, AIndex(s, i, l), BIndex(s, i, l, j))
    ensures Differs(s, rep, i, j, AIndex(s, i, l), BIndex(s, i, l, j))
  {
    assert Uses(s, i, j, l, AIndex(s, i, l), BIndex(s, i, l, j));
  }

  lemma OnlyInKernel(s: Shape, rep: nat, i: nat, j: nat, l: nat)
    requires i < s.m && j < s.n && l < s.k
    requires forall x: nat :: x < s.k ==> !Uses(s, i, j, x, AIndex(Treated(s, rep, j), i, l), BIndex(Treated(s, rep, j), i, l, j))
    ensures Differs(s, rep, i, j, AIndex(Treated(s, rep, j), i, l), BIndex(Treated(s, rep, j), i, l, j))
  {
    assert Uses(Treated(s, rep, j), i, j, l, AIndex(Treated(s, rep, j), i, l), BIndex(Treated(s, rep, j), i, l, j));
  }

  lemma WrongBlock(s: Shape, rep: nat) returns (i: nat, j: nat, x: int, y: int)
    requires Callable(s) && 0 < s.m && 0 < s.Blocks() && !StreamOfAIsRight(s)
    ensures Differs(s, rep, i, j, x, y)
  {
    j := 0;
    var t := InBlock(s, rep);
    if s.ldA != 8 {
      // Row 1: the loop starts at element ldA, the stream at element 8.
      i := 1;
      forall l: nat | l < s.k ensures !Uses(t, 1, 0, l, AIndex(s, 1, 0), BIndex(s, 1, 0, 0)) {
        if l > 0 { MulMono(s.ldA, 1, l); }
      }
      OnlyInLoop(s, rep, 1, 0, 0);
      x, y := AIndex(s, 1, 0), BIndex(s, 1, 0, 0);
    } else {
      // Row 0: the last product of the loop lies beyond all that the stream delivers.
      i := 0;
      var last: nat := s.k - 1;
      forall l: nat | l < s.k ensures !Uses(t, 0, 0, l, AIndex(s, 0, last), BIndex(s, 0, last, 0)) {
        MulStrict(last, 1, s.m);
      }
      OnlyInLoop(s, rep, 0, 0, last);
      x, y := AIndex(s, 0, last), BIndex(s, 0, last, 0);
    }
  }

  // The repeated stream is still at the first element of B when column 1 asks for the next.
  lemma SecondColumn(s: Shape, rep: nat)
    requires 0 < s.Blocks() && 0 < s.k && rep > 0
    ensures BIndex(InBlock(s, rep), 0, 0, 1) == 0
  {
    assert Turn(InBlock(s, rep), 0, 0, 0, 1) == 1;
    ModUnique(1, 0, 1, rep + 1);
  }

  // Product l finds it at element l / (rep + 1) at most.
  lemma LaterProduct(s: Shape, rep: nat, l: nat)
    requires 0 < s.Blocks() && s.tb && s.ldB == 0 && rep > 0 && l < s.k && 1 < s.k
    ensures BIndex(InBlock(s, rep), 0, l, 0) < s.k - 1
  {
    var n := Turn(InBlock(s, rep), 0, 0, l, 0);
    assert n == l * UNROLL;
    var r := n / (rep + 1);
    RankBelow(n, rep);
    Split(n, rep + 1);
    MulMono(r, 2, rep + 1);
    var x := r / UNROLL;
    assert x <= l / 2 && x < s.k;
    ModUnique(x, 0, x, s.k);
  }

  lemma WrongStreamOfB(s: Shape, rep: nat) returns (i: nat, j: nat, x: int, y: int)
    requires Callable(s) && 0 < s.m && 0 < s.Blocks() && !StreamOfBIsRight(s, rep)
    ensures Differs(s, rep, i, j, x, y)
  {
    i := 0;
    if !s.tb || s.ldB > 0 {
      // Column 1: the kernel multiplies element 0 of B, the loop has no use for it there.
      j := 1;
      SecondColumn(s, rep);
      forall l: nat | l < s.k ensures BIndex(s, 0, l, 1) != 0 {
        MulMono(s.ldB, 0, l);
      }
      OnlyInKernel(s, rep, 0, 1, 0);
      x, y := AIndex(Treated(s, rep, 1), 0, 0), BIndex(Treated(s, rep, 1), 0, 0, 1);
    } else {
      // Column 0: the kernel never gets to the element of the last product.
      j := 0;
      var last: nat := s.k - 1;
      forall l: nat | l < s.k ensures !Uses(Treated(s, rep, 0), 0, 0, l, AIndex(s, 0, last), BIndex(s, 0, last, 0)) {
        LaterProduct(s, rep, l);
      }
      OnlyInLoop(s, rep, 0, 0, last);
      x, y := AIndex(s, 0, last), BIndex(s, 0, last, 0);
    }
  }

  lemma Distinct(j: nat, ld: nat)
    requires j > 0 && ld != 1
    ensures j * ld != j
  {
    if ld > 1 { MulStrict(j, 1, ld); }
  }

  // The first leftover column, or the second if the first is column 0 and there is only one product.
  lemma WrongLeftover(s: Shape, rep: nat) returns (i: nat, j: nat, x: int, y: int)
    requires Callable(s) && 0 < s.m && s.la.ByRows? && !LeftoverIsRight(s)
    ensures Differs(s, rep, i, j, x, y)
  {
    i, j := 0, s.Blocks() * UNROLL;
    var l: nat := 0;
    if j == 0 && s.k > 1 { l := 1; }
    if j == 0 && s.k == 1 { j := 1; }
    if j > 0 { Distinct(j, s.ldB); }
    OnlyInLoop(s, rep, 0, j, l);
    x, y := AIndex(s, 0, l), BIndex(s, i, l, j);
  }

  lemma WrongOnlyProduct(s: Shape, rep: nat) returns (i: nat, j: nat, x: int, y: int)
    requires Callable(s) && 0 < s.m && s.la.Transposed? && s.k == 1 && !LeftoverIsRight(s)
    ensures Differs(s, rep, i, j, x, y)
  {
    i, j := 0, s.Blocks() * UNROLL;
    if j == 0 { j := 1; }
    Distinct(j, s.ldB);
    OnlyInLoop(s, rep, 0, j, 0);
    x, y := AIndex(s, 0, 0), BIndex(s, i, 0, j);
  }

  lemma WrongTransposed(s: Shape, rep: nat) returns (i: nat, j: nat, x: int, y: int)
    requires Callable(s) && 0 < s.m && s.la.Transposed? && s.k > 1 && !LeftoverIsRight(s)
    ensures Differs(s, rep, i, j, x, y)
  {
    i, j := 0, s.Blocks() * UNROLL;
    if s.tb || s.ldB == 1 {
      // The second product: the loop takes element m * ldA of A, the kernel element 1.
      OnlyInLoop(s, rep, 0, j, 1);
      x, y := AIndex(s, 0, 1), BIndex(s, i, 1, j);
    } else if j > 0 {
      Distinct(j, s.ldB);
      OnlyInLoop(s, rep, 0, j, 0);
      x, y := AIndex(s, 0, 0), BIndex(s, i, 0, j);
    } else {
      // Column 0: the kernel multiplies elements 1 and 1, the loop elements l * m * ldA and l * ldB.
      forall l: nat | l < s.k ensures !Uses(s, 0, 0, l, 1, 1) {
        if l > 1 && s.ldB > 0 { MulBounds(2, 1, l, s.ldB); }
      }
      OnlyInKernel(s, rep, 0, 0, 1);
      x, y := AIndex(Treated(s, rep, 0), 0, 1), BIndex(Treated(s, rep, 0), 0, 1, 0);
    }
  }

  /** A pair of elements that only one of the kernels multiplies, when the layouts do not coincide. */
  lemma WrongElement(s: Shape, rep: nat) returns (i: nat, j: nat, x: int, y: int)
    requires Callable(s) && 0 < s.m && 0 < s.n && !(BlocksAreRight(s, rep) && LeftoverIsRight(s))
    ensures Differs(s, rep, i, j, x, y)
  {
    if !BlocksAreRight(s, rep) {
      if StreamOfAIsRight(s) {
        i, j, x, y := WrongStreamOfB(s, rep);
      } else {
        i, j, x, y := WrongBlock(s, rep);
      }
    } else if s.la.ByRows? {
      i, j, x, y := WrongLeftover(s, rep);
    } else if s.k == 1 {
      i, j, x, y := WrongOnlyProduct(s, rep);
    } else {
      i, j, x, y := WrongTransposed(s, rep);
    }
  }

  // ---------------------------------------------------------------- exactly when

  function Zero(): Matrix { (e: int) => 0.0 }

  lemma {:induction false} SumOfZero(s: Shape, b: Matrix, i: nat, j: nat, l: nat, c: real)
    ensures Sum(s, Zero(), b, i, j, l, c) == c
  {
    if l == 0 {
    } else {
      SumOfZero(s, b, i, j, l - 1, c);
      assert Zero()(AIndex(s, i, l - 1)) * b(BIndex(s, i, l - 1, j)) == 0.0;
    }
  }

  /** With beta of two or more the kernels differ on any shape with an element: C is kept once, not multiplied. */
  lemma BetaIsOnlyTested(s: Shape, rep: nat, b: Matrix, beta: nat, was: seq<real>)
    requires Callable(s) && 0 < s.m && 0 < s.n && beta >= 2
    requires (s.m - 1) * s.ldC + s.n <= |was| && forall e :: 0 <= e < |was| ==> was[e] == 1.0
    ensures StreamedResult(s, rep, Zero(), b, beta, was)[0] == 1.0 && Result(s, Zero(), b, beta as real, was)[0] == beta as real
    ensures !Agree(s, rep, Zero(), b, beta, was)
  {
    ElementOf(s, 0, 0, |was|);
    StreamedAt(s, rep, Zero(), b, beta, was, 0, 0, 0);
    ResultAt(s, Zero(), b, beta as real, was, 0, 0, 0, 1.0);
    SumOfZero(Treated(s, rep, 0), b, 0, 0, s.k, Start(beta, 1.0));
    SumOfZero(s, b, 0, 0, s.k, (beta as real) * 1.0);
  }

  /** Beta = 2, A = 0, C = 1: the kernel leaves 1, the triple loop 2. */
  lemma BetaOfTwo(b: Matrix)
    ensures var s := Shape(1, 8, 1, 1, ByRows, 1, true, 8, 0); var was := seq(8, e => 1.0);
            StreamedResult(s, 0, Zero(), b, 2, was)[0] == 1.0 && Result(s, Zero(), b, 2.0, was)[0] == 2.0
  {
    BetaIsOnlyTested(Shape(1, 8, 1, 1, ByRows, 1, true, 8, 0), 0, b, 2, seq(8, e => 1.0));
  }

  lemma OneProduct(s: Shape, x: int, y: int)
    requires s.k == 1 && Uses(s, 0, 1, 0, x, y)
    ensures Sum(s, Unit(x), Unit(y), 0, 1, 1, 0.0) == 1.0
  {
    assert Sum(s, Unit(x), Unit(y), 0, 1, 0, 0.0) == 0.0;
  }

  /**
   * One row, eight columns, one product, both matrices by rows, and the second data mover left repeating every element
   * eight times: with A = 1 and a one at element 1 of B the triple loop leaves 1 in column 1, the kernel leaves 0.
   */
  lemma RepeatLeftOn()
    ensures var s := Shape(1, 8, 1, 1, ByRows, 8, false, 8, 0); var was := seq(8, e => 0.0);
            StreamedResult(s, 7, Unit(0), Unit(1), 0, was)[1] == 0.0 && Result(s, Unit(0), Unit(1), 0.0, was)[1] == 1.0
  {
    var s, was: seq<real> := Shape(1, 8, 1, 1, ByRows, 8, false, 8, 0), seq(8, e => 0.0);
    SecondColumn(s, 7);
    StreamedAt(s, 7, Unit(0), Unit(1), 0, was, 0, 1, 1);
    ResultAt(s, Unit(0), Unit(1), 0.0, was, 0, 1, 1, 0.0);
    SumOfUnits(Treated(s, 7, 1), 0, 1, 1, 0, 1);
    assert Uses(s, 0, 1, 0, 0, 1);
    OneProduct(s, 0, 1);
  }

  lemma DiffersMeansDisagree(s: Shape, rep: nat, beta: nat, was: seq<real>, i: nat, j: nat, x: int, y: int)
    requires Callable(s) && Differs(s, rep, i, j, x, y)
    requires (s.m - 1) * s.ldC + s.n <= |was| && forall e :: 0 <= e < |was| ==> was[e] == 0.0
    ensures !Agree(s, rep, Unit(x), Unit(y), beta, was)
  {
    ElementOf(s, i, j, |was|);
    var e := i * s.ldC + j;
    StreamedAt(s, rep, Unit(x), Unit(y), beta, was, i, j, e);
    ResultAt(s, Unit(x), Unit(y), beta as real, was, i, j, e, 0.0);
    assert (beta as real) * 0.0 == 0.0;
    SumOfUnits(s, i, j, s.k, x, y);
    SumOfUnits(Treated(s, rep, j), i, j, s.k, x, y);
  }

  lemma WrongMeansDisagree(s: Shape, rep: nat, beta: nat, length: nat) returns (a: Matrix, b: Matrix, was: seq<real>)
    requires Callable(s) && !KernelIsRight(s, rep, beta) && (s.m - 1) * s.ldC + s.n <= length
    ensures |was| == length && !Agree(s, rep, a, b, beta, was)
  {
    if beta >= 2 {
      a, b, was := Zero(), Zero(), seq(length, e => 1.0);
      BetaIsOnlyTested(s, rep, b, beta, was);
    } else {
      var i, j, x, y := WrongElement(s, rep);
      a, b, was := Unit(x), Unit(y), seq(length, e => 0.0);
      DiffersMeansDisagree(s, rep, beta, was, i, j, x, y);
    }
  }

  /**
   * The streamed kernel computes what the triple loop computes, for all contents of the matrices, exactly when there is
   * nothing to compute, or beta is 0 or 1, the streams of the blocks deliver what the loop finds, and so do the layouts
   * the leftover columns are treated as.
   */
  lemma KernelsAgreeIff(s: Shape, rep: nat, beta: nat, length: nat)
    requires Callable(s) && (s.m - 1) * s.ldC + s.n <= length
    ensures KernelIsRight(s, rep, beta) <==>
      forall a: Matrix, b: Matrix, was: seq<real> :: |was| == length ==> Agree(s, rep, a, b, beta, was)
  {
    if KernelIsRight(s, rep, beta) {
      forall a: Matrix, b: Matrix, was: seq<real> | |was| == length ensures Agree(s, rep, a, b, beta, was) {
        RightMeansAgree(s, rep, a, b, beta, was);
      }
    } else {
      var a, b, was := WrongMeansDisagree(s, rep, beta, length);
    }
  }
}
