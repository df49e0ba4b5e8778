// The product split over the cores against the triple loop, and in any interleaving of the accesses to C.
module GemmCluster {
  import opened Arith
  import opened Gemm
  import opened GemmStreams
  import opened GemmKernel
  import opened GemmAgreement
  import opened GemmRows

  /** The cores together leave what the triple loop leaves. */
  ghost predicate ClusterAgrees(s: Shape, reps: seq<nat>, a: Matrix, b: Matrix, beta: nat, was: seq<real>)
    requires s.Valid() && 0 < |reps|
  {
    SplitResult(s, reps, a, b, beta, was) == Result(s, a, b, beta as real, was)
  }

  /** What a caller can check: the cores divide the rows, and the kernel is right for the share of every core. */
  predicate ClusterIsRight(s: Shape, reps: seq<nat>, beta: nat)
    requires 0 < |reps|
  {
    || s.m == 0
    || s.n == 0
    || (s.m % |reps| == 0 && forall id :: 0 <= id < |reps| ==> KernelIsRight(Share(s, |reps|), reps[id], beta))
  }

  // ---------------------------------------------------------------- the loop on a share

  lemma TransposedRow(m: nat, q: nat, cores: nat, l: nat, ld: nat)
    requires m == q * cores
    ensures (l * q) * (cores * ld) == (l * m) * ld
  {
    Assoc(l, q, cores);
    Assoc(l * q, cores, ld);
  }

  // The triple loop on a share, from the core's pointer, multiplies what it multiplies on the whole shape.
  lemma LoopElement(s: Shape, cores: nat, id: nat, i: nat, r: nat, l: nat)
    requires Callable(s) && 0 < cores && s.m % cores == 0 && Covers(s, cores, id, i, r)
    ensures id * s.ldA + AIndex(Share(s, cores), i, l) == AIndex(s, r, l)
  {
    StridedRow(id, cores, i, r, s.ldA);
    if s.la.Transposed? {
      Split(s.m, cores);
      TransposedRow(s.m, s.m / cores, cores, l, s.ldA);
    }
  }

  lemma LoopOnShare(s: Shape, cores: nat, a: Matrix, b: Matrix, id: nat, i: nat, r: nat, j: nat, c: real)
    requires Callable(s) && 0 < cores && s.m % cores == 0 && Covers(s, cores, id, i, r)
    ensures Sum(Share(s, cores), Shifted(a, id * s.ldA), b, i, j, s.k, c) == Sum(s, a, b, r, j, s.k, c)
  {
    var t, a' := Share(s, cores), Shifted(a, id * s.ldA);
    forall x: nat | x < s.k ensures a'(AIndex(t, i, x)) == a(AIndex(s, r, x)) && BIndex(t, i, x, j) == BIndex(s, r, x, j) {
      LoopElement(s, cores, id, i, r, x);
    }
    SumOfSameElements(t, s, a', a, b, i, r, j, s.k, c);
  }

  // Element x behind a core's pointer: the loop on its share and the loop on the whole shape leave the same there.
  lemma SameElementOfLoop(s: Shape, cores: nat, a: Matrix, b: Matrix, beta: real, id: nat, x: nat, e: nat, c: real)
    requires Callable(s) && id < cores && s.m % cores == 0 && e == id * s.ldC + x
    requires Share(s, cores).Valid() && InC(Share(s, cores), x)
    ensures InC(s, e) && Row(s, e) % cores == id
    ensures Updated(Share(s, cores), Shifted(a, id * s.ldA), b, beta, x, c) == Updated(s, a, b, beta, e, c)
  {
    ElementOfShare(s, cores, id, x, e);
    assert Full(s, cores) == s;
    LoopOnShare(s, cores, a, b, id, Row(Share(s, cores), x), Row(s, e), Column(s, e), beta * c);
  }

  // ---------------------------------------------------------------- they agree

  lemma ClusterElement(s: Shape, reps: seq<nat>, a: Matrix, b: Matrix, beta: nat, was: seq<real>, id: nat, e: nat)
    requires Callable(s) && 0 < |reps| && s.m % |reps| == 0 && Full(s, |reps|) == s
    requires e < |was| && InC(s, e) && id == Row(s, e) % |reps|
    requires KernelIsRight(Share(s, |reps|), reps[id], beta)
    ensures SplitResult(s, reps, a, b, beta, was)[e] == Result(s, a, b, beta as real, was)[e]
  {
    var share, a' := Share(s, |reps|), Shifted(a, id * s.ldA);
    OwnPointer(s, |reps|, e);
    var x := e - id * s.ldC;
    ElementOfShare(s, |reps|, id, x, e);
    ElementAgrees(share, reps[id], a', b, beta, was[id * s.ldC..], x);
    SameElementOfLoop(s, |reps|, a, b, beta as real, id, x, e, was[e]);
  }

  lemma RightMeansClusterAgrees(s: Shape, reps: seq<nat>, a: Matrix, b: Matrix, beta: nat, was: seq<real>)
    requires Callable(s) && 0 < |reps| && ClusterIsRight(s, reps, beta)
    ensures ClusterAgrees(s, reps, a, b, beta, was)
  {
    forall e: nat | e < |was|
      ensures SplitResult(s, reps, a, b, beta, was)[e] == Result(s, a, b, beta as real, was)[e]
    {
      if InC(s, e) {
        assert Full(s, |reps|) == s;
        ClusterElement(s, reps, a, b, beta, was, Row(s, e) % |reps|, e);
      }
    }
  }

  // ---------------------------------------------------------------- they differ

  lemma LastRowIsMissing(s: Shape, reps: seq<nat>, beta: nat, was: seq<real>) returns (a: Matrix, b: Matrix)
    requires Callable(s) && 0 < |reps| && 0 < s.n && s.m % |reps| != 0
    requires (s.m - 1) * s.ldC + s.n <= |was| && forall e :: 0 <= e < |was| ==> was[e] == 0.0
    ensures !ClusterAgrees(s, reps, a, b, beta, was)
  {
    a, b := (e: int) => 1.0, (e: int) => 1.0;
    var i: nat := s.m - 1;
    ElementOf(s, i, 0, |was|);
    var e := i * s.ldC + 0;
    ResultAt(s, a, b, beta as real, was, i, 0, e, 0.0);
    assert (beta as real) * 0.0 == 0.0;
    SumOfOnes(s, a, b, i, 0, s.k);
  }

  // An element at which a kernel and the loop disagree lies in the block of C.
  lemma DisagreesInC(s: Shape, rep: nat, a: Matrix, b: Matrix, beta: nat, was: seq<real>) returns (x: nat)
    requires s.Valid() && !Agree(s, rep, a, b, beta, was)
    ensures x < |was| && InC(s, x)
    ensures Streamed(s, rep, a, b, beta, x, was[x]) != Updated(s, a, b, beta as real, x, was[x])
  {
    var p, q := StreamedResult(s, rep, a, b, beta, was), Result(s, a, b, beta as real, was);
    x :| x < |was| && p[x] != q[x];
  }

  // Where a core's kernel and the loop on its share differ, so do the cluster and the loop on the whole shape.
  lemma FoundBehindPointer(s: Shape, reps: seq<nat>, a: Matrix, b: Matrix, beta: nat, was: seq<real>, id: nat, x: nat, e: nat)
    requires Callable(s) && id < |reps| && s.m % |reps| == 0 && e == id * s.ldC + x && e < |was|
    requires Share(s, |reps|).Valid() && InC(Share(s, |reps|), x)
    requires Streamed(Share(s, |reps|), reps[id], Shifted(a, id * s.ldA), b, beta, x, was[e])
          != Updated(Share(s, |reps|), Shifted(a, id * s.ldA), b, beta as real, x, was[e])
    ensures !ClusterAgrees(s, reps, a, b, beta, was)
  {
    SameElementOfLoop(s, |reps|, a, b, beta as real, id, x, e, was[e]);
    assert Full(s, |reps|) == s;
    assert Result(s, a, b, beta as real, was)[e] == Updated(s, a, b, beta as real, e, was[e]);
    assert SplitResult(s, reps, a, b, beta, was)[e] == SplitElement(s, reps, a, b, beta, e, was[e]);
  }

  lemma StreamedOfSame(s: Shape, rep: nat, a: Matrix, a': Matrix, b: Matrix, beta: nat, x: nat, c: real)
    requires s.Valid() && forall e: int :: a(e) == a'(e)
    ensures Streamed(s, rep, a, b, beta, x, c) == Streamed(s, rep, a', b, beta, x, c)
  {
    SumOfSame(Treated(s, rep, Column(s, x)), a, a', b, Row(s, x), Column(s, x), s.k, Start(beta, c));
  }

  lemma UpdatedOfSame(s: Shape, a: Matrix, a': Matrix, b: Matrix, beta: real, x: nat, c: real)
    requires s.Valid() && forall e: int :: a(e) == a'(e)
    ensures Updated(s, a, b, beta, x, c) == Updated(s, a', b, beta, x, c)
  {
    SumOfSame(s, a, a', b, Row(s, x), Column(s, x), s.k, beta * c);
  }

  // A matrix that looks like this one from a pointer further on.
  lemma SeenFrom(a: Matrix, offset: int) returns (a': Matrix)
    ensures forall e: int :: a(e) == Shifted(a', offset)(e)
  {
    a' := Shifted(a, -offset);
  }

  lemma StillDiffers(s: Shape, rep: nat, a: Matrix, a': Matrix, b: Matrix, beta: nat, x: nat, c: real)
    requires s.Valid() && forall e: int :: a(e) == a'(e)
    requires Streamed(s, rep, a, b, beta, x, c) != Updated(s, a, b, beta as real, x, c)
    ensures Streamed(s, rep, a', b, beta, x, c) != Updated(s, a', b, beta as real, x, c)
  {
    StreamedOfSame(s, rep, a, a', b, beta, x, c);
    UpdatedOfSame(s, a, a', b, beta as real, x, c);
  }

  lemma Behind(before: seq<real>, rest: seq<real>, at: nat, x: nat)
    requires |before| == at && x < |rest|
    ensures (before + rest)[at + x] == rest[x]
  {
  }

  // C as a core sees it, put behind its pointer.
  lemma Padded(rest: seq<real>, at: nat) returns (was: seq<real>)
    ensures |was| == at + |rest| && was == was[..at] + rest
  {
    was := seq(at, e => 0.0) + rest;
  }

  lemma WrongBehindPointer(s: Shape, reps: seq<nat>, a: Matrix, b: Matrix, beta: nat, rest: seq<real>, was: seq<real>, id: nat, at: nat)
    returns (a': Matrix)
    requires Callable(s) && id < |reps| && s.m % |reps| == 0 && at == id * s.ldC <= |was| && was == was[..at] + rest
    requires Share(s, |reps|).Valid() && !Agree(Share(s, |reps|), reps[id], a, b, beta, rest)
    ensures !ClusterAgrees(s, reps, a', b, beta, was)
  {
    a' := SeenFrom(a, id * s.ldA);
    var x := DisagreesInC(Share(s, |reps|), reps[id], a, b, beta, rest);
    Behind(was[..at], rest, at, x);
    StillDiffers(Share(s, |reps|), reps[id], a, Shifted(a', id * s.ldA), b, beta, x, rest[x]);
    FoundBehindPointer(s, reps, a', b, beta, was, id, x, at + x);
  }

  // Matrices a core gets wrong on its share, put where the core finds them.
  lemma WrongShare(s: Shape, reps: seq<nat>, beta: nat, length: nat, id: nat, at: nat) returns (a: Matrix, b: Matrix, was: seq<real>)
    requires Callable(s) && id < |reps| && 0 < s.m && s.m % |reps| == 0 && (s.m - 1) * s.ldC + s.n <= length
    requires at == id * s.ldC && !KernelIsRight(Share(s, |reps|), reps[id], beta)
    ensures |was| == length && !ClusterAgrees(s, reps, a, b, beta, was)
  {
    ShareIsValid(s, |reps|);
    ShareFits(s, |reps|, id, length);
    var a', rest;
    a', b, rest := WrongMeansDisagree(Share(s, |reps|), reps[id], beta, length - at);
    was := Padded(rest, at);
    a := WrongBehindPointer(s, reps, a', b, beta, rest, was, id, at);
  }

  lemma WrongMeansClusterDisagrees(s: Shape, reps: seq<nat>, beta: nat, length: nat) returns (a: Matrix, b: Matrix, was: seq<real>)
    requires Callable(s) && 0 < |reps| && !ClusterIsRight(s, reps, beta) && (s.m - 1) * s.ldC + s.n <= length
    ensures |was| == length && !ClusterAgrees(s, reps, a, b, beta, was)
  {
    if s.m % |reps| != 0 {
      was := seq(length, e => 0.0);
      a, b := LastRowIsMissing(s, reps, beta, was);
    } else {
      var id :| 0 <= id < |reps| && !KernelIsRight(Share(s, |reps|), reps[id], beta);
      a, b, was := WrongShare(s, reps, beta, length, id, id * s.ldC);
    }
  }

  /**
   * The cores leave what the triple loop leaves on the whole shape, for all contents of the matrices, exactly when there
   * is nothing to compute, or the cores divide the rows and every core's share is one the kernel gets right.
   */
  lemma ClusterAgreesIff(s: Shape, reps: seq<nat>, beta: nat, length: nat)
    requires Callable(s) && 0 < |reps| && (s.m - 1) * s.ldC + s.n <= length
    ensures ClusterIsRight(s, reps, beta) <==>
      forall a: Matrix, b: Matrix, was: seq<real> :: |was| == length ==> ClusterAgrees(s, reps, a, b, beta, was)
  {
    if ClusterIsRight(s, reps, beta) {
      forall a: Matrix, b: Matrix, was: seq<real> | |was| == length ensures ClusterAgrees(s, reps, a, b, beta, was) {
        RightMeansClusterAgrees(s, reps, a, b, beta, was);
      }
    } else {
      var a, b, was := WrongMeansClusterDisagrees(s, reps, beta, length);
    }
  }

  // ---------------------------------------------------------------- in any interleaving

  // How far the core of its row is with an element of C.
  datatype Progress = Untouched | Fetched(value: real) | Written

  datatype State = State(c: seq<real>, at: seq<Progress>)

  datatype Product = Product(s: Shape, reps: seq<nat>, a: Matrix, b: Matrix, beta: nat)
  {
    predicate Valid() { s.Valid() && 0 < |reps| }

    predicate Computed(e: nat)
      requires Valid()
    {
      InC(Full(s, |reps|), e)
    }

    function Element(e: nat, c: real): real
      requires Valid()
    {
      SplitElement(s, reps, a, b, beta, e, c)
    }
  }

  ghost predicate Init(was: seq<real>, t: State) {
    t.c == was && |t.at| == |was| && forall e :: 0 <= e < |was| ==> t.at[e] == Untouched
  }

  // A core loads an element of one of its rows; without beta it never does.
  ghost predicate Fetch(p: Product, t: State, e: nat, t': State)
    requires p.Valid()
  {
    && e < |t.c| == |t.at| && p.Computed(e) && p.beta != 0 && t.at[e].Untouched?
    && t' == t.(at := t.at[e := Fetched(t.c[e])])
  }

  // It stores the element, computed from what it loaded and from A and B, which do not change.
  ghost predicate Write(p: Product, t: State, e: nat, t': State)
    requires p.Valid()
  {
    && e < |t.c| == |t.at| && p.Computed(e) && (if p.beta != 0 then t.at[e].Fetched? else t.at[e].Untouched?)
    && t' == State(t.c[e := p.Element(e, if t.at[e].Fetched? then t.at[e].value else 0.0)], t.at[e := Written])
  }

  ghost predicate Next(p: Product, t: State, t': State)
    requires p.Valid()
  {
    exists e: nat :: Fetch(p, t, e, t') || Write(p, t, e, t')
  }

  /** Loads and stores of all cores, in any order in which each element is loaded before it is stored. */
  ghost predicate IsRun(p: Product, was: seq<real>, run: seq<State>)
    requires p.Valid()
  {
    run != [] && Init(was, run[0]) && forall i :: 0 <= i < |run| - 1 ==> Next(p, run[i], run[i + 1])
  }

  ghost predicate Inv(p: Product, was: seq<real>, t: State)
    requires p.Valid()
  {
    && |t.c| == |t.at| == |was|
    && forall e: nat :: e < |was| ==>
         match t.at[e]
         case Untouched => t.c[e] == was[e]
         case Fetched(v) => t.c[e] == was[e] == v && p.beta != 0
         case Written => t.c[e] == p.Element(e, was[e])
  }

  lemma NothingAdded(s: Shape, rep: nat, a: Matrix, b: Matrix, e: nat, c: real, c': real)
    requires s.Valid() && InC(s, e)
    ensures Streamed(s, rep, a, b, 0, e, c) == Streamed(s, rep, a, b, 0, e, c')
  {
  }

  // Without beta the old value does not matter.
  lemma OldValueUnused(p: Product, e: nat, c: real, c': real)
    requires p.Valid() && p.beta == 0 && p.Computed(e)
    ensures p.Element(e, c) == p.Element(e, c')
  {
    var s, cores, id := p.s, |p.reps|, Row(p.s, e) % |p.reps|;
    OwnPointer(s, cores, e);
    ElementOfShare(s, cores, id, e - id * s.ldC, e);
    NothingAdded(Share(s, cores), p.reps[id], Shifted(p.a, id * s.ldA), p.b, e - id * s.ldC, c, c');
  }

  lemma {:induction false} RunInvariant(p: Product, was: seq<real>, run: seq<State>, n: nat)
    requires p.Valid() && IsRun(p, was, run) && n < |run|
    ensures Inv(p, was, run[n])
  {
    if n == 0 {
    } else {
      RunInvariant(p, was, run, n - 1);
      var e: nat :| Fetch(p, run[n - 1], e, run[n]) || Write(p, run[n - 1], e, run[n]);
      if p.beta == 0 { OldValueUnused(p, e, 0.0, was[e]); }
    }
  }

  ghost predicate Finished(p: Product, t: State)
    requires p.Valid()
  {
    forall e: nat :: e < |t.at| && p.Computed(e) ==> t.at[e].Written?
  }

  lemma {:induction false} NeverElsewhere(p: Product, was: seq<real>, run: seq<State>, n: nat)
    requires p.Valid() && IsRun(p, was, run) && n < |run|
    ensures |run[n].at| == |was| && forall e: nat :: e < |was| && !p.Computed(e) ==> run[n].at[e].Untouched?
  {
    if n == 0 {
    } else {
      NeverElsewhere(p, was, run, n - 1);
      assert Next(p, run[n - 1], run[n]);
    }
  }

  /** However the accesses of the cores interleave, C ends as it does when the cores run one after the other. */
  lemma AnyInterleaving(p: Product, was: seq<real>, run: seq<State>, n: nat)
    requires p.Valid() && IsRun(p, was, run) && n < |run| && Finished(p, run[n])
    ensures run[n].c == SplitResult(p.s, p.reps, p.a, p.b, p.beta, was)
  {
    RunInvariant(p, was, run, n);
    NeverElsewhere(p, was, run, n);
  }

  // ---------------------------------------------------------------- every interleaving ends

  function AccessesLeft(at: seq<Progress>): nat {
    if at == [] then 0 else (match at[0] case Untouched => 2 case Fetched(_) => 1 case Written => 0) + AccessesLeft(at[1..])
  }

  lemma {:induction false} OneAccess(at: seq<Progress>, e: nat, now: Progress)
    requires e < |at| && ((now.Written? && !at[e].Written?) || (now.Fetched? && at[e].Untouched?))
    ensures AccessesLeft(at[e := now]) < AccessesLeft(at)
  {
    if e == 0 {
      assert at[e := now][1..] == at[1..];
    } else {
      assert at[e := now][1..] == at[1..][e - 1 := now];
      OneAccess(at[1..], e - 1, now);
    }
  }

  lemma {:induction false} AllLeft(at: seq<Progress>)
    requires forall e :: 0 <= e < |at| ==> at[e].Untouched?
    ensures AccessesLeft(at) == 2 * |at|
  {
    if at == [] {
    } else {
      AllLeft(at[1..]);
    }
  }

  lemma AccessUsesUp(p: Product, t: State, t': State)
    requires p.Valid() && Next(p, t, t')
    ensures AccessesLeft(t'.at) < AccessesLeft(t.at)
  {
    var e: nat :| Fetch(p, t, e, t') || Write(p, t, e, t');
    OneAccess(t.at, e, t'.at[e]);
  }

  /** The cores make at most two accesses to each element of C, and as long as they have not finished they can make another. */
  lemma {:induction false} AccessesEnd(p: Product, was: seq<real>, run: seq<State>, n: nat)
    requires p.Valid() && IsRun(p, was, run) && n < |run|
    ensures n + AccessesLeft(run[n].at) <= 2 * |was|
    ensures !Finished(p, run[n]) ==> exists t' :: Next(p, run[n], t')
  {
    RunInvariant(p, was, run, n);
    if n == 0 {
      AllLeft(run[0].at);
    } else {
      AccessesEnd(p, was, run, n - 1);
      AccessUsesUp(p, run[n - 1], run[n]);
    }
    if !Finished(p, run[n]) {
      var t := run[n];
      var e: nat :| e < |t.at| && p.Computed(e) && !t.at[e].Written?;
      var before := if t.at[e].Fetched? then t.at[e].value else 0.0;
      if p.beta != 0 && t.at[e].Untouched? {
        assert Fetch(p, t, e, t.(at := t.at[e := Fetched(t.c[e])]));
        assert Next(p, t, t.(at := t.at[e := Fetched(t.c[e])]));
      } else {
        assert Write(p, t, e, State(t.c[e := p.Element(e, before)], t.at[e := Written]));
        assert Next(p, t, State(t.c[e := p.Element(e, before)], t.at[e := Written]));
      }
    }
  }
}
