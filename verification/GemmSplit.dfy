// The product split over the cores against the kernel on the whole shape, with data movers that repeat nothing.
module GemmSplit {
  import opened Arith
  import opened Gemm
  import opened GemmStreams
  import opened GemmKernel
  import opened GemmAgreement
  import opened GemmRows

  // No core's second data mover repeats an element.
  function Once(cores: nat): (reps: seq<nat>)
    ensures |reps| == cores && forall id :: 0 <= id < cores ==> reps[id] == 0
  {
    seq(cores, id => 0)
  }

  // ---------------------------------------------------------------- against the kernel on the whole shape

  /** The strided rows of a core are what its streams deliver: always when A is stored by rows, hardly ever otherwise. */
  predicate StridesAreRight(s: Shape, cores: nat)
    requires 0 < cores
  {
    || s.m / cores == 0
    || s.la.ByRows?
    || s.Blocks() == 0
    || cores == 1
    || (s.m / cores == 1 && s.ldA == 8 && s.k == 1)
  }

  lemma ElementOfRow(s: Shape, cores: nat, id: nat, i: nat, r: nat, j: nat, l: nat)
    requires 0 < cores && StridesAreRight(s, cores) && Covers(s, cores, id, i, r) && j < s.n && l < s.k
    ensures id * s.ldA + AIndex(Treated(Share(s, cores), 0, j), i, l) == AIndex(Treated(s, 0, j), r, l)
  {
    if Treated(s, 0, j).la.ByRows? { StridedRow(id, cores, i, r, s.ldA); }
  }

  /** What a core computes for its row i, from its own pointers, is row r of the whole product. */
  lemma ShareComputesRow(s: Shape, cores: nat, a: Matrix, b: Matrix, id: nat, i: nat, r: nat, j: nat, c: real)
    requires 0 < cores && StridesAreRight(s, cores) && Covers(s, cores, id, i, r) && j < s.n
    ensures Sum(Treated(Share(s, cores), 0, j), Shifted(a, id * s.ldA), b, i, j, s.k, c) == Sum(Treated(s, 0, j), a, b, r, j, s.k, c)
  {
    var t, t', a' := Treated(Share(s, cores), 0, j), Treated(s, 0, j), Shifted(a, id * s.ldA);
    forall x: nat | x < s.k ensures a'(AIndex(t, i, x)) == a(AIndex(t', r, x)) && BIndex(t, i, x, j) == BIndex(t', r, x, j) {
      ElementOfRow(s, cores, id, i, r, j, x);
    }
    SumOfSameElements(t, t', a', a, b, i, r, j, s.k, c);
  }

  // The number of rows does not matter to a row.
  lemma FewerRows(s: Shape, m: nat, a: Matrix, b: Matrix, i: nat, j: nat, c: real)
    ensures Sum(Treated(s.(m := m), 0, j), a, b, i, j, s.k, c) == Sum(Treated(s, 0, j), a, b, i, j, s.k, c)
  {
    var t, t' := Treated(s.(m := m), 0, j), Treated(s, 0, j);
    assert forall x: nat :: AIndex(t, i, x) == AIndex(t', i, x) && BIndex(t, i, x, j) == BIndex(t', i, x, j);
    SumOfSameElements(t, t', a, a, b, i, i, j, s.k, c);
  }

  ghost predicate SplitIsFull(s: Shape, cores: nat, a: Matrix, b: Matrix, beta: nat, was: seq<real>)
    requires s.Valid() && 0 < cores
  {
    SplitResult(s, Once(cores), a, b, beta, was) == StreamedResult(Full(s, cores), 0, a, b, beta, was)
  }

  lemma RightStrides(s: Shape, cores: nat, a: Matrix, b: Matrix, beta: nat, was: seq<real>)
    requires s.Valid() && 0 < cores && (StridesAreRight(s, cores) || s.n == 0)
    ensures SplitIsFull(s, cores, a, b, beta, was)
  {
    var full, share := Full(s, cores), Share(s, cores);
    forall e: nat | e < |was| && InC(full, e)
      ensures SplitResult(s, Once(cores), a, b, beta, was)[e] == StreamedResult(full, 0, a, b, beta, was)[e]
    {
      var id, j := Row(s, e) % cores, Column(s, e);
      OwnPointer(s, cores, e);
      ElementOfShare(s, cores, id, e - id * s.ldC, e);
      var i := Row(share, e - id * s.ldC);
      ShareComputesRow(s, cores, a, b, id, i, Row(s, e), j, Start(beta, was[e]));
      FewerRows(s, full.m, a, b, Row(s, e), j, Start(beta, was[e]));
    }
  }

  // ---------------------------------------------------------------- a transposed A on several cores

  // Core id multiplies element x of A (x' from its own pointer) and y of B for its row i, or the whole product does for
  // that row, r; not both.
  ghost predicate OnlyOneUses(s: Shape, cores: nat, id: nat, i: nat, r: nat, x: int, x': int, y: int)
    requires 0 < cores
  {
    && x' == x - id * s.ldA
    && (exists l: nat :: l < s.k && Uses(InBlock(Share(s, cores), 0), i, 0, l, x', y))
       != (exists l: nat :: l < s.k && Uses(InBlock(s, 0), r, 0, l, x, y))
  }

  lemma OnlyInSplit(s: Shape, cores: nat, id: nat, i: nat, r: nat, l: nat, x: int, x': int)
    requires 0 < cores && l < s.k && x' == x - id * s.ldA == AIndex(InBlock(Share(s, cores), 0), i, l)
    requires forall k: nat :: k < s.k ==> AIndex(InBlock(s, 0), r, k) != x
    ensures OnlyOneUses(s, cores, id, i, r, x, x', Stored(s, l, 0))
  {
    assert Uses(InBlock(Share(s, cores), 0), i, 0, l, x', Stored(s, l, 0));
  }

  lemma OnlyInWhole(s: Shape, cores: nat, id: nat, i: nat, r: nat, l: nat, x: int, x': int)
    requires 0 < cores && l < s.k && x' == x - id * s.ldA && x == AIndex(InBlock(s, 0), r, l)
    requires forall k: nat :: k < s.k ==> AIndex(InBlock(Share(s, cores), 0), i, k) != x'
    ensures OnlyOneUses(s, cores, id, i, r, x, x', Stored(s, l, 0))
  {
    assert Uses(InBlock(s, 0), r, 0, l, x, Stored(s, l, 0));
  }

  // Every element a transposed stream takes for a row lies at or behind its first.
  lemma FirstOfRow(ld: nat, i: nat, l: nat)
    ensures l * ld + i * 8 >= i * 8
  {
    MulMono(ld, 0, l);
  }

  // The second row of core 0 starts at element 8 of A; the whole product finds that row further on.
  lemma SecondRow(s: Shape, cores: nat)
    requires 1 < cores && !s.la.ByRows? && 0 < s.k
    ensures OnlyOneUses(s, cores, 0, 1, cores, 8, 8, Stored(s, 0, 0))
  {
    forall k: nat | k < s.k ensures AIndex(InBlock(s, 0), cores, k) != 8 { FirstOfRow(s.ldA, cores, k); }
    OnlyInSplit(s, cores, 0, 1, cores, 0, 8, 8);
  }

  // The row of core 1 starts at element ldA for that core, at element 8 for the whole product.
  lemma RowOfNextCore(s: Shape, cores: nat) returns (x: int, x': int)
    requires 1 < cores && !s.la.ByRows? && 0 < s.k && s.ldA != 8
    ensures OnlyOneUses(s, cores, 1, 0, 1, x, x', Stored(s, 0, 0))
  {
    if s.ldA < 8 {
      x, x' := s.ldA, 0;
      forall k: nat | k < s.k ensures AIndex(InBlock(s, 0), 1, k) != s.ldA { FirstOfRow(s.ldA, 1, k); }
      OnlyInSplit(s, cores, 1, 0, 1, 0, x, x');
    } else {
      x, x' := 8, 8 - s.ldA;
      forall k: nat | k < s.k ensures AIndex(InBlock(Share(s, cores), 0), 0, k) != x' { FirstOfRow(cores * s.ldA, 0, k); }
      OnlyInWhole(s, cores, 1, 0, 1, 0, x, x');
    }
  }

  // From one product to the next, core 0 goes on by eight elements for every core.
  lemma SecondProduct(s: Shape, cores: nat)
    requires 1 < cores && !s.la.ByRows? && 1 < s.k && s.ldA == 8
    ensures OnlyOneUses(s, cores, 0, 0, 0, 8, 8, Stored(s, 1, 0))
  {
    forall k: nat | k < s.k ensures AIndex(InBlock(Share(s, cores), 0), 0, k) != 8 {
      if k > 0 { MulBounds(1, 16, k, cores * 8); }
    }
    OnlyInWhole(s, cores, 0, 0, 0, 1, 8, 8);
  }

  /** A row and a pair of elements only one of them multiplies. */
  lemma WrongRow(s: Shape, cores: nat) returns (id: nat, i: nat, r: nat, x: int, x': int, y: int)
    requires 0 < cores && !StridesAreRight(s, cores) && 0 < s.k
    ensures Covers(s, cores, id, i, r) && OnlyOneUses(s, cores, id, i, r, x, x', y)
  {
    if s.m / cores > 1 {
      id, i, r, x, x', y := 0, 1, cores, 8, 8, Stored(s, 0, 0);
      SecondRow(s, cores);
    } else if s.ldA != 8 {
      id, i, r, y := 1, 0, 1, Stored(s, 0, 0);
      x, x' := RowOfNextCore(s, cores);
    } else {
      id, i, r, x, x', y := 0, 0, 0, 8, 8, Stored(s, 1, 0);
      SecondProduct(s, cores);
    }
  }

  lemma OneRowDiffers(s: Shape, cores: nat, id: nat, i: nat, r: nat, x: int, x': int, y: int)
    requires 0 < cores && OnlyOneUses(s, cores, id, i, r, x, x', y)
    ensures Sum(InBlock(Share(s, cores), 0), Shifted(Unit(x), id * s.ldA), Unit(y), i, 0, s.k, 0.0)
         != Sum(InBlock(s, 0), Unit(x), Unit(y), r, 0, s.k, 0.0)
  {
    SumOfSame(InBlock(Share(s, cores), 0), Shifted(Unit(x), id * s.ldA), Unit(x'), Unit(y), i, 0, s.k, 0.0);
    SumOfUnits(InBlock(Share(s, cores), 0), i, 0, s.k, x', y);
    SumOfUnits(InBlock(s, 0), r, 0, s.k, x, y);
  }

  lemma SplitAt(s: Shape, cores: nat, a: Matrix, b: Matrix, beta: nat, was: seq<real>, id: nat, i: nat, r: nat, e: nat)
    requires s.Valid() && 0 < cores && e < |was| && Covers(s, cores, id, i, r)
    requires 0 < s.n && At(s, e, r, 0) && was[e] == 0.0
    ensures SplitResult(s, Once(cores), a, b, beta, was)[e]
         == Sum(Treated(Share(s, cores), 0, 0), Shifted(a, id * s.ldA), b, i, 0, s.k, 0.0)
  {
    RowsBelow(s, cores, id, i, r);
    OwnPointer(s, cores, e);
    ElementOfShare(s, cores, id, e - id * s.ldC, e);
    RowsAreDisjoint(s, cores, id, i, id, Row(Share(s, cores), e - id * s.ldC), r);
  }

  lemma WrongStrides(s: Shape, cores: nat, beta: nat, was: seq<real>) returns (a: Matrix, b: Matrix)
    requires s.Valid() && 0 < cores && !StridesAreRight(s, cores) && 0 < s.n && 0 < s.k
    requires (s.m - 1) * s.ldC + s.n <= |was| && forall e :: 0 <= e < |was| ==> was[e] == 0.0
    ensures !SplitIsFull(s, cores, a, b, beta, was)
  {
    var id, i, r, x, x', y := WrongRow(s, cores);
    a, b := Unit(x), Unit(y);
    var full := Full(s, cores);
    RowsBelow(s, cores, id, i, r);
    ElementOf(s, r, 0, |was|);
    var e := r * s.ldC + 0;
    OneRowDiffers(s, cores, id, i, r, x, x', y);
    StreamedAt(full, 0, a, b, beta, was, r, 0, e);
    FewerRows(s, full.m, a, b, r, 0, 0.0);
    SplitAt(s, cores, a, b, beta, was, id, i, r, e);
  }

  /**
   * With data movers that repeat nothing, C is what the kernel leaves on the rows below the last multiple of the number of
   * cores, for all contents of the matrices: exactly when the strides are right or there are no columns.
   */
  lemma SplitIsFullIff(s: Shape, cores: nat, beta: nat, length: nat)
    requires s.Valid() && 0 < cores && 0 < s.k && (s.m - 1) * s.ldC + s.n <= length
    ensures StridesAreRight(s, cores) || s.n == 0 <==>
      forall a: Matrix, b: Matrix, was: seq<real> :: |was| == length ==> SplitIsFull(s, cores, a, b, beta, was)
  {
    if StridesAreRight(s, cores) || s.n == 0 {
      forall a: Matrix, b: Matrix, was: seq<real> | |was| == length ensures SplitIsFull(s, cores, a, b, beta, was) {
        RightStrides(s, cores, a, b, beta, was);
      }
    } else {
      var a, b := WrongStrides(s, cores, beta, seq(length, e => 0.0));
    }
  }

  // ---------------------------------------------------------------- the rows left over

  ghost predicate SplitIsWhole(s: Shape, cores: nat, a: Matrix, b: Matrix, beta: nat, was: seq<real>)
    requires s.Valid() && 0 < cores
  {
    SplitResult(s, Once(cores), a, b, beta, was) == StreamedResult(s, 0, a, b, beta, was)
  }

  lemma LastRowDiffers(s: Shape, cores: nat, beta: nat, was: seq<real>) returns (a: Matrix, b: Matrix)
    requires s.Valid() && 0 < cores && 0 < s.n && 0 < s.k && s.m % cores != 0
    requires (s.m - 1) * s.ldC + s.n <= |was| && forall e :: 0 <= e < |was| ==> was[e] == 0.0
    ensures !SplitIsWhole(s, cores, a, b, beta, was)
  {
    a, b := (e: int) => 1.0, (e: int) => 1.0;
    var i, j: nat := s.m - 1, 0;
    ElementOf(s, i, j, |was|);
    var e := i * s.ldC + j;
    StreamedAt(s, 0, a, b, beta, was, i, j, e);
    SumOfOnes(Treated(s, 0, j), a, b, i, j, s.k);
  }

  lemma FullIsWhole(s: Shape, cores: nat, a: Matrix, b: Matrix, beta: nat, was: seq<real>)
    requires s.Valid() && 0 < cores && (s.n == 0 || s.m % cores == 0)
    ensures StreamedResult(Full(s, cores), 0, a, b, beta, was) == StreamedResult(s, 0, a, b, beta, was)
  {
    if s.n == 0 {
      assert forall e: nat :: e < |was| ==> !InC(s, e) && !InC(Full(s, cores), e);
    } else {
      assert Full(s, cores) == s;
    }
  }

  lemma SomethingIsMissing(s: Shape, cores: nat, beta: nat, was: seq<real>) returns (a: Matrix, b: Matrix)
    requires s.Valid() && 0 < cores && 0 < s.n && 0 < s.k && !(s.m % cores == 0 && StridesAreRight(s, cores))
    requires (s.m - 1) * s.ldC + s.n <= |was| && forall e :: 0 <= e < |was| ==> was[e] == 0.0
    ensures !SplitIsWhole(s, cores, a, b, beta, was)
  {
    if s.m % cores != 0 {
      a, b := LastRowDiffers(s, cores, beta, was);
    } else {
      a, b := WrongStrides(s, cores, beta, was);
      FullIsWhole(s, cores, a, b, beta, was);
    }
  }

  /**
   * The split computes what the kernel computes on the whole shape, for all contents of the matrices, exactly when the
   * cores divide the rows and the strides are right, or there are no columns.
   */
  lemma SplitIsWholeIff(s: Shape, cores: nat, beta: nat, length: nat)
    requires s.Valid() && 0 < cores && 0 < s.k && (s.m - 1) * s.ldC + s.n <= length
    ensures s.n == 0 || (s.m % cores == 0 && StridesAreRight(s, cores)) <==>
      forall a: Matrix, b: Matrix, was: seq<real> :: |was| == length ==> SplitIsWhole(s, cores, a, b, beta, was)
  {
    if s.n == 0 || (s.m % cores == 0 && StridesAreRight(s, cores)) {
      forall a: Matrix, b: Matrix, was: seq<real> | |was| == length ensures SplitIsWhole(s, cores, a, b, beta, was) {
        RightStrides(s, cores, a, b, beta, was);
        FullIsWhole(s, cores, a, b, beta, was);
      }
    } else {
      var a, b := SomethingIsMissing(s, cores, beta, seq(length, e => 0.0));
    }
  }
}
