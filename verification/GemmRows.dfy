// The whole product on a cluster: every core runs the kernel on every cores-th row, from its own row on, with pointers
// and leading dimensions of its own.
module GemmRows {
  import opened Arith
  import opened Ssr
  import opened Gemm
  import opened GemmStreams
  import opened GemmKernel

  /** The part of the product each core computes. */
  function Share(s: Shape, cores: nat): Shape
    requires 0 < cores
  {
    s.(m := s.m / cores, ldA := cores * s.ldA, ldC := cores * s.ldC)
  }

  /** The rows that some core computes. */
  function Full(s: Shape, cores: nat): Shape
    requires 0 < cores
  {
    s.(m := s.m - s.m % cores)
  }

  function Shifted(a: Matrix, offset: int): Matrix { (e: int) => a(offset + e) }

  lemma ShareIsValid(s: Shape, cores: nat)
    requires s.Valid() && 0 < cores
    ensures Share(s, cores).Valid()
  {
    MulMono(s.ldC, 1, cores);
  }

  // ---------------------------------------------------------------- which core computes which row

  // Row r of C is computed by core id as its row i.
  ghost predicate Covers(s: Shape, cores: nat, id: nat, i: nat, r: nat)
    requires 0 < cores
  {
    id < cores && i < Share(s, cores).m && r == id + cores * i
  }

  /** No row is computed twice. */
  lemma RowsAreDisjoint(s: Shape, cores: nat, id: nat, i: nat, id2: nat, i2: nat, r: nat)
    requires 0 < cores && Covers(s, cores, id, i, r) && Covers(s, cores, id2, i2, r)
    ensures id == id2 && i == i2
  {
    ModUnique(r, i, id, cores);
    ModUnique(r, i2, id2, cores);
  }

  /** The rows computed are those below the last multiple of the number of cores. */
  lemma RowIsCovered(s: Shape, cores: nat, r: nat)
    requires 0 < cores
    ensures r < Full(s, cores).m <==> Covers(s, cores, r % cores, r / cores, r)
    ensures Full(s, cores).m <= s.m
  {
    Split(r, cores);
    Split(s.m, cores);
    var q := s.m / cores;
    assert Full(s, cores).m == q * cores;
    if r / cores >= q { MulMono(cores, q, r / cores); } else { MulMono(cores, r / cores + 1, q); }
  }

  lemma RowsBelow(s: Shape, cores: nat, id: nat, i: nat, r: nat)
    requires 0 < cores && Covers(s, cores, id, i, r)
    ensures r < Full(s, cores).m <= s.m && r % cores == id && r / cores == i
  {
    ModUnique(r, i, id, cores);
    RowIsCovered(s, cores, r);
  }

  lemma StridedRow(id: nat, cores: nat, i: nat, r: nat, ld: nat)
    requires r == id + cores * i
    ensures id * ld + i * (cores * ld) == r * ld
  {
    Distribute(id, cores * i, ld);
  }

  // Column j of a core's row i, found from the core's pointer and from the whole matrix.
  lemma ElementInRow(s: Shape, cores: nat, id: nat, i: nat, j: nat, e: nat)
    requires s.Valid() && id < cores && j < s.ldC && e - id * s.ldC == i * (cores * s.ldC) + j
    ensures At(s, e, id + cores * i, j)
  {
    StridedRow(id, cores, i, id + cores * i, s.ldC);
    ModUnique(e, id + cores * i, j, s.ldC);
  }

  lemma ElementFromPointer(s: Shape, cores: nat, id: nat, i: nat, j: nat, e: nat)
    requires s.Valid() && id < cores && Share(s, cores).Valid() && At(s, e, id + cores * i, j) && id * s.ldC <= e
    ensures At(Share(s, cores), e - id * s.ldC, i, j)
  {
    Split(e, s.ldC);
    StridedRow(id, cores, i, id + cores * i, s.ldC);
    MulMono(s.ldC, 1, cores);
    ModUnique(e - id * s.ldC, i, j, cores * s.ldC);
  }

  // An element x behind a core's own pointer, in that core's share and in the whole matrix.
  lemma ShareIsInC(s: Shape, cores: nat, id: nat, x: nat, e: nat)
    requires s.Valid() && id < cores && e == id * s.ldC + x && Share(s, cores).Valid() && InC(Share(s, cores), x)
    ensures Covers(s, cores, id, Row(Share(s, cores), x), Row(s, e)) && Column(Share(s, cores), x) == Column(s, e)
    ensures InC(Full(s, cores), e) && Row(s, e) % cores == id
  {
    var i, j := Row(Share(s, cores), x), Column(Share(s, cores), x);
    Split(x, cores * s.ldC);
    ElementInRow(s, cores, id, i, j, e);
    RowsBelow(s, cores, id, i, id + cores * i);
  }

  lemma OwnRowIsInShare(s: Shape, cores: nat, id: nat, x: nat, e: nat)
    requires s.Valid() && id < cores && e == id * s.ldC + x && Share(s, cores).Valid()
    requires InC(Full(s, cores), e) && Row(s, e) % cores == id
    ensures InC(Share(s, cores), x)
  {
    RowIsCovered(s, cores, Row(s, e));
    ElementFromPointer(s, cores, id, Row(s, e) / cores, Column(s, e), e);
  }

  // An element of C, found from a core's own pointer.
  lemma ElementOfShare(s: Shape, cores: nat, id: nat, x: nat, e: nat)
    requires s.Valid() && id < cores && e == id * s.ldC + x
    ensures Share(s, cores).Valid()
    ensures InC(Share(s, cores), x) <==> InC(Full(s, cores), e) && Row(s, e) % cores == id
    ensures InC(Share(s, cores), x) ==>
              Covers(s, cores, id, Row(Share(s, cores), x), Row(s, e)) && Column(Share(s, cores), x) == Column(s, e)
  {
    ShareIsValid(s, cores);
    if InC(Share(s, cores), x) { ShareIsInC(s, cores, id, x, e); }
    if InC(Full(s, cores), e) && Row(s, e) % cores == id { OwnRowIsInShare(s, cores, id, x, e); }
  }

  // Elements before a core's own pointer are in rows of lower cores.
  lemma BeforeOwnRow(s: Shape, cores: nat, id: nat, e: nat)
    requires s.Valid() && id < cores && e < id * s.ldC
    ensures Row(s, e) % cores != id
  {
    Split(e, s.ldC);
    if Row(s, e) >= id { MulMono(s.ldC, id, Row(s, e)); }
    ModUnique(Row(s, e), 0, Row(s, e), cores);
  }

  lemma OwnPointer(s: Shape, cores: nat, e: nat)
    requires s.Valid() && 0 < cores
    ensures (Row(s, e) % cores) * s.ldC <= e
  {
    Split(Row(s, e), cores);
    Split(e, s.ldC);
    var q := Row(s, e) / cores;
    MulMono(cores, 0, q);
    MulMono(s.ldC, Row(s, e) % cores, Row(s, e));
  }

  // ---------------------------------------------------------------- the whole product

  /** Element e after all cores: what the core of its row leaves there. Core id's second data mover repeats reps[id] times. */
  function SplitElement(s: Shape, reps: seq<nat>, a: Matrix, b: Matrix, beta: nat, e: nat, c: real): real
    requires s.Valid() && 0 < |reps|
  {
    if InC(Full(s, |reps|), e) then
      var id := Row(s, e) % |reps|;
      OwnPointer(s, |reps|, e);
      ShareIsValid(s, |reps|);
      Streamed(Share(s, |reps|), reps[id], Shifted(a, id * s.ldA), b, beta, e - id * s.ldC, c)
    else c
  }

  function SplitResult(s: Shape, reps: seq<nat>, a: Matrix, b: Matrix, beta: nat, was: seq<real>): (r: seq<real>)
    requires s.Valid() && 0 < |reps|
    ensures |r| == |was|
  {
    seq(|was|, e requires 0 <= e < |was| => SplitElement(s, reps, a, b, beta, e, was[e]))
  }

  // The rows of the cores that have run have their final value.
  ghost predicate DoneBy(s: Shape, cores: nat, final: seq<real>, was: seq<real>, now: seq<real>, ran: set<nat>)
    requires s.Valid() && 0 < cores
  {
    |now| == |was| == |final|
    && forall e :: 0 <= e < |now| ==>
         now[e] == if InC(Full(s, cores), e) && Row(s, e) % cores in ran then final[e] else was[e]
  }

  lemma OneCoreMore(s: Shape, reps: seq<nat>, a: Matrix, b: Matrix, beta: nat, was: seq<real>, now: seq<real>, now': seq<real>,
                    ran: set<nat>, id: nat)
    requires s.Valid() && id < |reps| && id !in ran && id * s.ldC <= |now| == |now'|
    requires DoneBy(s, |reps|, SplitResult(s, reps, a, b, beta, was), was, now, ran)
    requires Share(s, |reps|).Valid() && now'[..id * s.ldC] == now[..id * s.ldC]
    requires now'[id * s.ldC..] == StreamedResult(Share(s, |reps|), reps[id], Shifted(a, id * s.ldA), b, beta, now[id * s.ldC..])
    ensures DoneBy(s, |reps|, SplitResult(s, reps, a, b, beta, was), was, now', ran + {id})
  {
    var cores, at, final := |reps|, id * s.ldC, SplitResult(s, reps, a, b, beta, was);
    forall e: nat | e < |now'|
      ensures now'[e] == if InC(Full(s, cores), e) && Row(s, e) % cores in ran + {id} then final[e] else was[e]
    {
      if e < at {
        BeforeOwnRow(s, cores, id, e);
        assert now'[e] == now'[..at][e] && now[e] == now[..at][e];
      } else {
        ElementOfShare(s, cores, id, e - id * s.ldC, e);
        assert now'[e] == now'[at..][e - at] && now[e] == now[at..][e - at];
      }
    }
  }

  // Nothing happens without rows.
  lemma NoRows(s: Shape, cores: nat, final: seq<real>, was: seq<real>, now: seq<real>, ran: set<nat>, id: nat)
    requires s.Valid() && 0 < cores && s.m / cores == 0 && DoneBy(s, cores, final, was, now, ran)
    ensures DoneBy(s, cores, final, was, now, ran + {id})
  {
    Split(s.m, cores);
  }

  lemma EveryoneRan(s: Shape, reps: seq<nat>, a: Matrix, b: Matrix, beta: nat, was: seq<real>, now: seq<real>, ran: set<nat>)
    requires s.Valid() && 0 < |reps| && (forall id: nat :: id < |reps| ==> id in ran)
    requires DoneBy(s, |reps|, SplitResult(s, reps, a, b, beta, was), was, now, ran)
    ensures now == SplitResult(s, reps, a, b, beta, was)
    ensures forall e: nat :: e < |now| && s.m - s.m % |reps| <= Row(s, e) ==> now[e] == was[e]
  {
  }

  lemma LastOfShare(s: Shape, cores: nat, id: nat, i: nat, r: nat)
    requires id < cores && i + 1 == s.m / cores && r == id + cores * i
    ensures id <= r < s.m
  {
    Split(s.m, cores);
    Distribute(i, 1, cores);
  }

  lemma ShareFits(s: Shape, cores: nat, id: nat, length: nat)
    requires s.Valid() && id < cores && 0 < s.m / cores && (s.m - 1) * s.ldC + s.n <= length
    ensures id * s.ldC + (Share(s, cores).m - 1) * Share(s, cores).ldC + s.n <= length && id * s.ldC <= length
  {
    var i: nat := s.m / cores - 1;
    var r := id + cores * i;
    LastOfShare(s, cores, id, i, r);
    StridedRow(id, cores, i, r, s.ldC);
    MulMono(s.ldC, r, s.m - 1);
    MulMono(s.ldC, id, r);
  }

  lemma SamePointer(mem: Memory, base: nat, offset: nat)
    ensures forall e: int :: Doubles(mem, base + 8 * offset)(e) == Shifted(Doubles(mem, base), offset)(e)
  {
  }

  // The data movers of one core, before it runs: how often the second one repeats, and set up unless that is still to come.
  ghost predicate CoreReady(share: Shape, setup: bool, rep: nat, dm0: DataMover, dm1: DataMover)
    reads dm0, dm1
  {
    dm0.Valid() && dm1.Valid() && dm1.repetition == rep && (!setup ==> SetUpFor(share, dm0, dm1))
  }

  // Every core has two data movers of its own.
  predicate OwnMovers(dm0s: seq<DataMover>, dm1s: seq<DataMover>) {
    && |dm0s| == |dm1s|
    && (forall x, y :: 0 <= x < |dm0s| && 0 <= y < |dm1s| ==> dm0s[x] != dm1s[y])
    && (forall x, y :: 0 <= x < y < |dm0s| ==> dm0s[x] != dm0s[y] && dm1s[x] != dm1s[y])
  }

  // The cores that have not run are as they were.
  ghost predicate OthersReady(share: Shape, setup: bool, reps: seq<nat>, dm0s: seq<DataMover>, dm1s: seq<DataMover>, ran: set<nat>)
    requires |dm0s| == |dm1s| == |reps|
    reads dm0s, dm1s
  {
    forall id: nat :: id < |reps| && id !in ran ==> CoreReady(share, setup, reps[id], dm0s[id], dm1s[id])
  }

  lemma {:induction false} SumOfSame(s: Shape, a: Matrix, a': Matrix, b: Matrix, i: nat, j: nat, l: nat, c: real)
    requires forall e: int :: a(e) == a'(e)
    ensures Sum(s, a, b, i, j, l, c) == Sum(s, a', b, i, j, l, c)
  {
    if l == 0 {
    } else {
      SumOfSame(s, a, a', b, i, j, l - 1, c);
      var x := AIndex(s, i, l - 1);
      assert a(x) == a'(x);
    }
  }

  lemma {:induction false} SumOfSameElements(s: Shape, s': Shape, a: Matrix, a': Matrix, b: Matrix, i: nat, i': nat, j: nat, l: nat,
                                             c: real)
    requires forall x: nat :: x < l ==> a(AIndex(s, i, x)) == a'(AIndex(s', i', x)) && BIndex(s, i, x, j) == BIndex(s', i', x, j)
    ensures Sum(s, a, b, i, j, l, c) == Sum(s', a', b, i', j, l, c)
  {
    if l == 0 {
    } else {
      SumOfSameElements(s, s', a, a', b, i, i', j, l - 1, c);
    }
  }

  lemma ResultOfSame(s: Shape, rep: nat, a: Matrix, a': Matrix, b: Matrix, beta: nat, was: seq<real>)
    requires s.Valid() && forall e: int :: a(e) == a'(e)
    ensures StreamedResult(s, rep, a, b, beta, was) == StreamedResult(s, rep, a', b, beta, was)
  {
    forall e: nat | e < |was| ensures Streamed(s, rep, a, b, beta, e, was[e]) == Streamed(s, rep, a', b, beta, e, was[e]) {
      SumOfSame(Treated(s, rep, Column(s, e)), a, a', b, Row(s, e), Column(s, e), s.k, Start(beta, was[e]));
    }
  }

  // The kernel with its pointers into A and C.
  method RunKernel(s: Shape, ghost rep: nat, mem: Memory, baseA: nat, offset: nat, baseB: nat, c: array<real>, at: nat, beta: nat,
                   setup: bool, dm0: DataMover, dm1: DataMover)
    requires s.Valid() && FitsWords(s) && 0 < s.k && Room(s, c, at) && dm0 != dm1 && CoreReady(s, setup, rep, dm0, dm1)
    modifies c, dm0, dm1
    ensures c[..at] == old(c[..at])
    ensures c[at..] == StreamedResult(s, rep, Shifted(Doubles(mem, baseA), offset), Doubles(mem, baseB), beta, old(c[at..]))
  {
    SamePointer(mem, baseA, offset);
    ResultOfSame(s, rep, Doubles(mem, baseA + 8 * offset), Shifted(Doubles(mem, baseA), offset), Doubles(mem, baseB), beta, c[at..]);
    GemmFp64Opt(s, mem, baseA + 8 * offset, baseB, c, at, beta, setup, dm0, dm1);
  }

  method GemmOnCore(s: Shape, mem: Memory, baseA: nat, baseB: nat, c: array<real>, beta: nat, setup: bool, cores: nat, id: nat,
                    dm0: DataMover, dm1: DataMover, ghost reps: seq<nat>, ghost was: seq<real>, ghost ran: set<nat>)
    requires s.Valid() && FitsWords(s) && 0 < s.k && id < cores == |reps| && id !in ran
    requires (s.m - 1) * s.ldC + s.n <= c.Length
    requires dm0 != dm1 && CoreReady(Share(s, cores), setup, reps[id], dm0, dm1)
    requires DoneBy(s, cores, SplitResult(s, reps, Doubles(mem, baseA), Doubles(mem, baseB), beta, was), was, c[..], ran)
    modifies c, dm0, dm1
    ensures DoneBy(s, cores, SplitResult(s, reps, Doubles(mem, baseA), Doubles(mem, baseB), beta, was), was, c[..], ran + {id})
  {
    ghost var now, a, b := c[..], Doubles(mem, baseA), Doubles(mem, baseB);
    var share := Share(s, cores);
    if share.m == 0 {
      NoRows(s, cores, SplitResult(s, reps, a, b, beta, was), was, now, ran, id);
    } else {
      ShareIsValid(s, cores);
      ShareFits(s, cores, id, c.Length);
      RunKernel(share, reps[id], mem, baseA, id * s.ldA, baseB, c, id * s.ldC, beta, setup, dm0, dm1);
      OneCoreMore(s, reps, a, b, beta, was, now, c[..], ran, id);
    }
  }

  method RunNext(s: Shape, mem: Memory, baseA: nat, baseB: nat, c: array<real>, beta: nat, setup: bool,
                 dm0s: seq<DataMover>, dm1s: seq<DataMover>, id: nat, ghost reps: seq<nat>, ghost was: seq<real>, ghost ran: set<nat>)
    requires s.Valid() && FitsWords(s) && 0 < s.k && (s.m - 1) * s.ldC + s.n <= c.Length
    requires OwnMovers(dm0s, dm1s) && id < |dm0s| == |reps| && id !in ran
    requires OthersReady(Share(s, |reps|), setup, reps, dm0s, dm1s, ran)
    requires DoneBy(s, |reps|, SplitResult(s, reps, Doubles(mem, baseA), Doubles(mem, baseB), beta, was), was, c[..], ran)
    modifies c, dm0s[id], dm1s[id]
    ensures DoneBy(s, |reps|, SplitResult(s, reps, Doubles(mem, baseA), Doubles(mem, baseB), beta, was), was, c[..], ran + {id})
    ensures OthersReady(Share(s, |reps|), setup, reps, dm0s, dm1s, ran + {id})
  {
    GemmOnCore(s, mem, baseA, baseB, c, beta, setup, |dm0s|, id, dm0s[id], dm1s[id], reps, was, ran);
    assert forall x: nat :: x < |reps| && x !in ran + {id} ==>
      CoreReady(Share(s, |reps|), setup, reps[x], dm0s[x], dm1s[x]) == old(CoreReady(Share(s, |reps|), setup, reps[x], dm0s[x], dm1s[x]));
  }

  // Every core once.
  ghost predicate IsOrder(order: seq<nat>, cores: nat) {
    (forall x, y :: 0 <= x < y < |order| ==> order[x] != order[y]) && (forall id: nat :: id < cores <==> id in order)
  }

  ghost function RanBefore(order: seq<nat>, x: nat): set<nat>
    requires x <= |order|
  {
    set id | id in order[..x]
  }

  lemma NextInOrder(order: seq<nat>, cores: nat, x: nat)
    requires IsOrder(order, cores) && x < |order|
    ensures order[x] < cores && order[x] !in RanBefore(order, x)
    ensures RanBefore(order, x + 1) == RanBefore(order, x) + {order[x]}
  {
    assert order[x] in order && order[..x + 1] == order[..x] + [order[x]];
  }

  lemma AllInOrder(order: seq<nat>, cores: nat)
    requires IsOrder(order, cores)
    ensures forall id: nat :: id < cores ==> id in RanBefore(order, |order|)
  {
    assert order[..|order|] == order;
  }

  /**
   * The cores run in the given order. Whatever their data movers have been used for before, C becomes what the shares
   * leave, and the last rows, as many as the remainder, keep what they held.
   */
  method GemmOnCluster(s: Shape, mem: Memory, baseA: nat, baseB: nat, c: array<real>, beta: nat, setup: bool,
                       dm0s: seq<DataMover>, dm1s: seq<DataMover>, order: seq<nat>, ghost reps: seq<nat>)
    requires s.Valid() && FitsWords(s) && 0 < s.k && (s.m - 1) * s.ldC + s.n <= c.Length
    requires OwnMovers(dm0s, dm1s) && |dm0s| == |reps| > 0 && IsOrder(order, |reps|)
    requires OthersReady(Share(s, |reps|), setup, reps, dm0s, dm1s, {})
    modifies c, dm0s, dm1s
    ensures c[..] == SplitResult(s, reps, Doubles(mem, baseA), Doubles(mem, baseB), beta, old(c[..]))
    ensures forall e: nat :: e < c.Length && s.m - s.m % |reps| <= Row(s, e) ==> c[e] == old(c[e])
  {
    ghost var was, a, b := c[..], Doubles(mem, baseA), Doubles(mem, baseB);
    var x := 0;
    while x < |order|
      invariant 0 <= x <= |order|
      invariant DoneBy(s, |reps|, SplitResult(s, reps, a, b, beta, was), was, c[..], RanBefore(order, x))
      invariant OthersReady(Share(s, |reps|), setup, reps, dm0s, dm1s, RanBefore(order, x))
    {
      NextInOrder(order, |reps|, x);
      RunNext(s, mem, baseA, baseB, c, beta, setup, dm0s, dm1s, order[x], reps, was, RanBefore(order, x));
      x := x + 1;
    }
    AllInOrder(order, |reps|);
    EveryoneRan(s, reps, a, b, beta, was, c[..], RanBefore(order, x));
  }
}
