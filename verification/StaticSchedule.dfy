// The static loop schedule of the OpenMP runtime: which thread runs which iteration.
//
// Quantities are exact: bounds, increments and spans whose products fit the 32-bit variables of the source. Only the
// loop size of a loop without iterations wraps.
module StaticSchedule {
  import Arith

  datatype Kind = Static | StaticChunked

  datatype Bounds = Bounds(lower: int, upper: int, stride: int, last: bool)

  // Division and remainder as in C, rounding toward zero.
  function Quotient(a: int, b: int): int
    requires b != 0
  {
    var q := (if a >= 0 then a else -a) / (if b > 0 then b else -b);
    if (a >= 0) == (b > 0) then q else -q
  }

  function Remainder(a: int, b: int): int
    requires b != 0
  {
    a - Quotient(a, b) * b
  }

  lemma Negated(a: int, b: int)
    requires b != 0
    ensures Quotient(-a, -b) == Quotient(a, b) && Remainder(-a, -b) == -Remainder(a, b)
  {
  }

  /** A loop that counts up or down and has at least one iteration. */
  predicate Counts(lower: int, upper: int, incr: int) { (incr > 0 && lower <= upper) || (incr < 0 && upper <= lower) }

  function LoopSize(lower: int, upper: int, incr: int): int
    requires incr != 0
  {
    Quotient(upper - lower, incr) + 1
  }

  /** The loop size is unsigned: a negative one becomes a large word. */
  function SizeWord(lower: int, upper: int, incr: int): nat
    requires incr != 0
  {
    var n := LoopSize(lower, upper, incr);
    if n < 0 then n % Arith.W else n
  }

  // Without a chunk size: n iterations, the first threads with one more than the others.
  function StaticShare(lower: int, upper: int, incr: int, n: nat, thread: nat, threads: nat): Bounds
    requires threads > 0
  {
    var each := n / threads;
    var leftOver := n - each * threads;
    var mine := if thread < leftOver then each + 1 else each;
    var l := lower + thread * mine * incr + if thread < leftOver then 0 else leftOver;
    var u := l + mine * incr - incr;
    Bounds(l, u, n, u == upper && l <= upper)
  }

  lemma Positive(incr: nat, chunk: nat, threads: nat)
    requires incr > 0 && chunk > 0 && threads > 0
    ensures incr * chunk > 0 && incr * chunk * threads > 0
  {
    Arith.MulStrict(incr, 0, chunk);
    Arith.MulStrict(incr * chunk, 0, threads);
  }

  lemma NonZero(incr: int, chunk: nat, threads: nat)
    requires incr != 0 && chunk > 0 && threads > 0
    ensures incr * chunk != 0 && incr * chunk * threads != 0
  {
    if incr > 0 {
      Positive(incr, chunk, threads);
    } else {
      Positive(-incr, chunk, threads);
      assert incr * chunk == -((-incr) * chunk);
      assert incr * chunk * threads == -((-incr) * chunk * threads);
    }
  }

  /** A thread's share of the loop lower, lower + incr, .. up or down to upper. */
  function Share(kind: Kind, lower: int, upper: int, incr: int, chunk: nat, thread: nat, threads: nat): Bounds
    requires incr != 0 && threads > 0 && (kind.StaticChunked? ==> chunk > 0)
  {
    match kind
    case StaticChunked =>
      NonZero(incr, chunk, threads);
      var span := incr * chunk;
      var l := lower + span * thread;
      Bounds(l, l + span - incr, span * threads,
             Remainder(upper - Remainder(upper, span) - l, span * threads) == 0)
    case Static =>
      StaticShare(lower, upper, incr, SizeWord(lower, upper, incr), thread, threads)
  }

  /** The variables the caller passes by reference. */
  class LoopVariables {
    var lower: int
    var upper: int
    var stride: int
    var last: bool

    constructor (l: int, u: int)
      ensures lower == l && upper == u
    {
      lower, upper, stride, last := l, u, 0, false;
    }

    method ForStaticInit4(kind: Kind, incr: int, chunk: nat, thread: nat, threads: nat)
      requires incr != 0 && threads > 0 && (kind.StaticChunked? ==> chunk > 0)
      modifies this
      ensures Bounds(lower, upper, stride, last) == Share(kind, old(lower), old(upper), incr, chunk, thread, threads)
    {
      var loopSize := SizeWord(lower, upper, incr);
      var globalUpper := upper;
      if kind.StaticChunked? {
        NonZero(incr, chunk, threads);
        var span := incr * chunk;
        stride := span * threads;
        lower := lower + span * thread;
        upper := lower + span - incr;
        var beginLastChunk := globalUpper - Remainder(globalUpper, span);
        last := Remainder(beginLastChunk - lower, stride) == 0;
      } else {
        var mine := loopSize / threads;
        var leftOver := loopSize - mine * threads;
        if thread < leftOver {
          mine := mine + 1;
          lower := lower + thread * mine * incr;
        } else {
          lower := lower + thread * mine * incr + leftOver;
        }
        upper := lower + mine * incr - incr;
        last := upper == globalUpper && lower <= globalUpper;
        stride := loopSize;
      }
    }
  }

  // ---------------------------------------------------------------- what a thread runs

  /** Iteration j of the loop is run for this value of the loop variable. */
  function Value(lower: int, incr: int, j: nat): int { lower + j * incr }

  /** The thread runs v between its bounds, in steps of incr; in chunked loops again one stride further on, round after round. */
  predicate Runs(b: Bounds, incr: int, v: int)
    requires incr != 0
  {
    if incr > 0 then b.lower <= v <= b.upper && (v - b.lower) % incr == 0
    else b.upper <= v <= b.lower && (b.lower - v) % (-incr) == 0
  }

  predicate RunsInRound(b: Bounds, incr: int, round: nat, v: int)
    requires incr != 0
  {
    Runs(Bounds(b.lower + round * b.stride, b.upper + round * b.stride, b.stride, b.last), incr, v)
  }

  // The loop counted the other way.
  lemma SizeIsMirrored(lower: int, upper: int, incr: int)
    requires Counts(lower, upper, incr)
    ensures Counts(-lower, -upper, -incr) && LoopSize(-lower, -upper, -incr) == LoopSize(lower, upper, incr)
  {
    Negated(upper - lower, incr);
    assert -(upper - lower) == -upper - -lower;
  }

  lemma SizeOfRisingLoop(lower: int, upper: int, incr: nat)
    requires incr > 0 && lower <= upper
    ensures LoopSize(lower, upper, incr) >= 1
    ensures Value(lower, incr, LoopSize(lower, upper, incr) - 1) <= upper < Value(lower, incr, LoopSize(lower, upper, incr))
  {
    Arith.Split(upper - lower, incr);
    Arith.Distribute((upper - lower) / incr, 1, incr);
  }

  lemma MirroredValue(lower: int, incr: int, j: nat)
    ensures Value(-lower, -incr, j) == -Value(lower, incr, j)
  {
  }

  /** The iterations are those whose values do not pass the upper bound. */
  lemma SizeOfLoop(lower: int, upper: int, incr: int)
    requires Counts(lower, upper, incr)
    ensures LoopSize(lower, upper, incr) >= 1
    ensures var n := LoopSize(lower, upper, incr);
            Counts(Value(lower, incr, n - 1), upper, incr) && !Counts(Value(lower, incr, n), upper, incr)
  {
    if incr > 0 {
      SizeOfRisingLoop(lower, upper, incr);
    } else {
      SizeIsMirrored(lower, upper, incr);
      SizeOfRisingLoop(-lower, -upper, -incr);
      MirroredValue(lower, incr, LoopSize(lower, upper, incr) - 1);
      MirroredValue(lower, incr, LoopSize(lower, upper, incr));
    }
  }

  // ---------------------------------------------------------------- without a chunk size

  // The first iteration of a thread, and how many it runs, when `over` threads run one more than `each`.
  function First(each: nat, over: nat, thread: nat): nat { thread * each + if thread < over then thread else over }
  function Count(each: nat, over: nat, thread: nat): nat { if thread < over then each + 1 else each }

  function Each(n: nat, threads: nat): nat requires threads > 0 { n / threads }

  function Over(n: nat, threads: nat): (r: nat)
    requires threads > 0
    ensures r < threads && n == threads * Each(n, threads) + r
  {
    Arith.Split(n, threads);
    n % threads
  }

  lemma FirstNext(each: nat, over: nat, thread: nat)
    ensures First(each, over, thread + 1) == First(each, over, thread) + Count(each, over, thread)
  {
    Arith.Distribute(thread, 1, each);
  }

  lemma {:induction false} FirstRises(each: nat, over: nat, t: nat, t': nat)
    requires t < t'
    ensures First(each, over, t) + Count(each, over, t) <= First(each, over, t')
    decreases t'
  {
    FirstNext(each, over, t' - 1);
    if t + 1 == t' {
    } else {
      FirstRises(each, over, t, t' - 1);
    }
  }

  lemma {:induction false} FindThread(each: nat, over: nat, threads: nat, j: nat) returns (t: nat)
    requires j < First(each, over, threads)
    ensures t < threads && First(each, over, t) <= j < First(each, over, t) + Count(each, over, t)
    decreases threads
  {
    if threads == 0 {
      assert false;
    } else {
      FirstNext(each, over, threads - 1);
      if j < First(each, over, threads - 1) {
        t := FindThread(each, over, threads - 1, j);
      } else {
        t := threads - 1;
      }
    }
  }

  /** No iteration is lost to the leftover, which is counted in iterations but added to the loop variable. */
  predicate LeftoverIsRight(n: nat, incr: int, threads: nat)
    requires threads > 0
  {
    incr == 1 || Over(n, threads) == 0 || Each(n, threads) == 0
  }

  // How far before its first iteration a thread starts.
  function Shortfall(n: nat, incr: int, thread: nat, threads: nat): int
    requires threads > 0
  {
    if thread < Over(n, threads) then 0 else Over(n, threads) * incr - Over(n, threads)
  }

  // Values against iterations.
  lemma ValueInRange(lower: int, incr: nat, first: nat, count: nat, j: nat, low: int, high: int)
    requires incr > 0 && low == lower + first * incr && high == low + count * incr - incr
    ensures low <= Value(lower, incr, j) <= high <==> first <= j < first + count
    ensures (Value(lower, incr, j) - low) % incr == 0
  {
    Arith.Distribute(first, count, incr);
    if first <= j { Arith.MulMono(incr, first, j); } else { Arith.MulMono(incr, j + 1, first); Arith.Distribute(j, 1, incr); }
    if j < first + count { Arith.MulMono(incr, j + 1, first + count); Arith.Distribute(j, 1, incr); }
    else { Arith.MulMono(incr, first + count, j); }
    Arith.Distribute(j, -(first as int), incr);
    Arith.ModUnique((j - first) * incr, j - first, 0, incr);
  }

  // Between these bounds lie `count` iterations from `first` on.
  lemma RunsIterations(b: Bounds, lower: int, incr: int, first: nat, count: nat, j: nat)
    requires incr != 0 && b.lower == lower + first * incr && b.upper == b.lower + count * incr - incr
    ensures Runs(b, incr, Value(lower, incr, j)) <==> first <= j < first + count
  {
    if incr > 0 {
      ValueInRange(lower, incr, first, count, j, b.lower, b.upper);
    } else {
      MirroredValue(lower, incr, first);
      MirroredValue(b.lower, incr, count);
      MirroredValue(lower, incr, j);
      ValueInRange(-lower, -incr, first, count, j, -b.lower, -b.upper);
    }
  }

  lemma BoundsOfSize(lower: int, upper: int, incr: int, thread: nat, threads: nat, n: nat)
    requires thread < threads
    ensures var b := StaticShare(lower, upper, incr, n, thread, threads);
            var e, o := Each(n, threads), Over(n, threads);
            && b.upper == b.lower + Count(e, o, thread) * incr - incr
            && b.lower == lower - Shortfall(n, incr, thread, threads) + First(e, o, thread) * incr
  {
    var e, o := Each(n, threads), Over(n, threads);
    var first := First(e, o, thread);
    if thread < o {
      assert thread * (e + 1) == first;
    } else {
      Arith.Distribute(thread * e, o, incr);
      assert first == thread * e + o;
    }
  }

  lemma StaticBounds(lower: int, upper: int, incr: int, thread: nat, threads: nat, n: nat)
    requires Counts(lower, upper, incr) && thread < threads && n == LoopSize(lower, upper, incr)
    ensures var b := Share(Static, lower, upper, incr, 0, thread, threads);
            var e, o := Each(n, threads), Over(n, threads);
            && b == StaticShare(lower, upper, incr, n, thread, threads)
            && b.upper == b.lower + Count(e, o, thread) * incr - incr
            && b.lower == lower - Shortfall(n, incr, thread, threads) + First(e, o, thread) * incr
  {
    BoundsOfSize(lower, upper, incr, thread, threads, n);
  }

  /** A thread runs as many iterations as its count, from its first one on, of the loop moved back by its shortfall. */
  lemma StaticRuns(lower: int, upper: int, incr: int, thread: nat, threads: nat, n: nat, j: nat)
    requires Counts(lower, upper, incr) && thread < threads && n == LoopSize(lower, upper, incr)
    ensures var e, o := Each(n, threads), Over(n, threads);
            Runs(Share(Static, lower, upper, incr, 0, thread, threads), incr, Value(lower - Shortfall(n, incr, thread, threads), incr, j))
            <==> First(e, o, thread) <= j < First(e, o, thread) + Count(e, o, thread)
  {
    var b := Share(Static, lower, upper, incr, 0, thread, threads);
    var e, o := Each(n, threads), Over(n, threads);
    StaticBounds(lower, upper, incr, thread, threads, n);
    RunsIterations(b, lower - Shortfall(n, incr, thread, threads), incr, First(e, o, thread), Count(e, o, thread), j);
  }

  // Where the leftover does no harm, these are iterations of the loop itself.
  lemma RunsOwn(lower: int, upper: int, incr: int, thread: nat, threads: nat, n: nat, j: nat)
    requires Counts(lower, upper, incr) && thread < threads && n == LoopSize(lower, upper, incr)
    requires LeftoverIsRight(n, incr, threads)
    ensures var e, o := Each(n, threads), Over(n, threads);
            Runs(Share(Static, lower, upper, incr, 0, thread, threads), incr, Value(lower, incr, j))
            <==> First(e, o, thread) <= j < First(e, o, thread) + Count(e, o, thread)
  {
    StaticRuns(lower, upper, incr, thread, threads, n, j);
    StaticBounds(lower, upper, incr, thread, threads, n);
  }

  ghost predicate OnlyRunner(lower: int, upper: int, incr: int, threads: nat, j: nat, t: nat)
    requires Counts(lower, upper, incr) && threads > 0
  {
    t < threads && forall u: nat :: u < threads ==>
      (Runs(Share(Static, lower, upper, incr, 0, u, threads), incr, Value(lower, incr, j)) <==> u == t)
  }

  ghost predicate RunByOne(lower: int, upper: int, incr: int, threads: nat, j: nat)
    requires Counts(lower, upper, incr) && threads > 0
  {
    exists t: nat :: OnlyRunner(lower, upper, incr, threads, j, t)
  }

  lemma RightMeansOnce(lower: int, upper: int, incr: int, threads: nat, n: nat, j: nat)
    requires Counts(lower, upper, incr) && threads > 0 && n == LoopSize(lower, upper, incr) && j < n
    requires LeftoverIsRight(n, incr, threads)
    ensures RunByOne(lower, upper, incr, threads, j)
  {
    var e, o := Each(n, threads), Over(n, threads);
    var t := FindThread(e, o, threads, j);
    forall u: nat | u < threads
      ensures Runs(Share(Static, lower, upper, incr, 0, u, threads), incr, Value(lower, incr, j)) <==> u == t
    {
      RunsOwn(lower, upper, incr, u, threads, n, j);
      if u < t { FirstRises(e, o, u, t); }
      if t < u { FirstRises(e, o, t, u); }
    }
    assert OnlyRunner(lower, upper, incr, threads, j, t);
  }

  // No thread ends after the last iteration, and threads with one more iteration end before it.
  lemma EndOf(each: nat, over: nat, thread: nat, threads: nat)
    requires 0 < each && thread < threads && over < threads
    ensures First(each, over, thread + 1) <= threads * each + over
    ensures thread < over ==> First(each, over, thread + 1) < threads * each + over
  {
    Arith.MulMono(each, thread + 1, threads);
    if thread < over { Arith.MulStrict(each, thread + 1, threads); }
  }

  // The bound of a thread whose share ends at iteration `end`, `short` short of where it should be.
  lemma BoundsBelow(lower: int, incr: nat, end: nat, short: int, n: nat)
    requires n > 0 && end <= n && (end < n || short > 0) && incr > 0 && short >= 0
    ensures lower + end * incr - incr - short < Value(lower, incr, n - 1)
  {
    Arith.Distribute(n - 1, 1, incr);
    Arith.MulMono(incr, end, n);
    if end < n { Arith.MulStrict(incr, end, n); }
  }

  // A thread that ends at iteration `end`, or at the last one but with a shortfall, does not reach the last value.
  lemma EndsBefore(lower: int, incr: int, end: nat, over: nat, n: nat, high: int)
    requires incr != 0 && incr != 1 && n > 0 && end <= n && (end < n || over > 0)
    requires high == lower + end * incr - incr - (over * incr - over)
    ensures if incr > 0 then high < Value(lower, incr, n - 1) else Value(lower, incr, n - 1) < high
  {
    if incr > 0 {
      if over > 0 { Arith.MulStrict(over, 1, incr); }
      BoundsBelow(lower, incr, end, over * incr - over, n);
    } else {
      var k: nat := -incr;
      assert over * incr == -(over * k) && end * incr == -(end * k);
      BoundsBelow(-lower, k, end, over * k + over, n);
      MirroredValue(lower, incr, n - 1);
    }
  }

  // Otherwise the last iteration is run by nobody.
  lemma WrongMeansDropped(lower: int, upper: int, incr: int, thread: nat, threads: nat, n: nat)
    requires Counts(lower, upper, incr) && thread < threads && n == LoopSize(lower, upper, incr) && n > 0
    requires !LeftoverIsRight(n, incr, threads)
    ensures !Runs(Share(Static, lower, upper, incr, 0, thread, threads), incr, Value(lower, incr, n - 1))
  {
    var e, o := Each(n, threads), Over(n, threads);
    StaticBounds(lower, upper, incr, thread, threads, n);
    FirstNext(e, o, thread);
    EndOf(e, o, thread, threads);
    Arith.Distribute(First(e, o, thread), Count(e, o, thread), incr);
    EndsBefore(lower, incr, First(e, o, thread + 1), if thread < o then 0 else o, n,
               Share(Static, lower, upper, incr, 0, thread, threads).upper);
  }

  /** Without a chunk size every iteration is run by exactly one thread exactly when the leftover does no harm. */
  lemma StaticPartitionsIff(lower: int, upper: int, incr: int, threads: nat, n: nat)
    requires Counts(lower, upper, incr) && threads > 0 && n == LoopSize(lower, upper, incr)
    ensures LeftoverIsRight(n, incr, threads) <==> forall j: nat :: j < n ==> RunByOne(lower, upper, incr, threads, j)
  {
    SizeOfLoop(lower, upper, incr);
    if LeftoverIsRight(n, incr, threads) {
      forall j: nat | j < n ensures RunByOne(lower, upper, incr, threads, j) {
        RightMeansOnce(lower, upper, incr, threads, n, j);
      }
    } else {
      var last: nat := n - 1;
      forall t: nat ensures !OnlyRunner(lower, upper, incr, threads, last, t) {
        if t < threads { WrongMeansDropped(lower, upper, incr, t, threads, n); }
      }
      assert !RunByOne(lower, upper, incr, threads, last);
    }
  }

  /** Five iterations on two threads in steps of two: the second thread runs 5 and 7, and nobody runs 8. */
  lemma LastIsDropped()
    ensures Share(Static, 0, 9, 2, 0, 0, 2) == Bounds(0, 4, 5, false) && Share(Static, 0, 9, 2, 0, 1, 2) == Bounds(5, 7, 5, false)
    ensures !RunByOne(0, 9, 2, 2, 4)
  {
    forall t: nat ensures !OnlyRunner(0, 9, 2, 2, 4, t) {
      if t < 2 { WrongMeansDropped(0, 9, 2, t, 2, 5); }
    }
  }

  lemma OneQuotient(d: nat, k: nat)
    requires k > 0
    ensures d / k == 1 <==> k <= d < 2 * k
  {
    Arith.Split(d, k);
    if d / k >= 2 { Arith.MulMono(k, 2, d / k); }
    if k <= d < 2 * k { Arith.ModUnique(d, 1, d - k, k); }
  }

  lemma NoIterations(lower: int, upper: int, incr: int)
    requires incr != 0 && !Counts(lower, upper, incr) && -(Arith.W as int) < LoopSize(lower, upper, incr)
    ensures SizeWord(lower, upper, incr) == 0
       <==> if incr > 0 then -2 * incr < upper - lower <= -incr else -incr <= upper - lower < -2 * incr
  {
    var d, k := if incr > 0 then lower - upper else upper - lower, if incr > 0 then incr else -incr;
    OneQuotient(d, k);
    Arith.Split(d, k);
    assert LoopSize(lower, upper, incr) == 1 - d / k;
  }

  lemma EmptyShare(lower: int, upper: int, incr: int, thread: nat, threads: nat)
    requires incr != 0 && threads > 0 && SizeWord(lower, upper, incr) == 0
    ensures forall v: int :: !Runs(Share(Static, lower, upper, incr, 0, thread, threads), incr, v)
  {
    var b := Share(Static, lower, upper, incr, 0, thread, threads);
    assert b.lower == lower && b.upper == lower - incr;
  }

  lemma FirstRunsLower(lower: int, upper: int, incr: int, n: nat, threads: nat)
    requires incr != 0 && threads > 0 && n > 0
    ensures Runs(StaticShare(lower, upper, incr, n, 0, threads), incr, lower)
  {
    BoundsOfSize(lower, upper, incr, 0, threads, n);
    var count := Count(Each(n, threads), Over(n, threads), 0);
    assert count > 0 by {
      if Each(n, threads) == 0 { assert threads * Each(n, threads) == 0; }
    }
    if incr > 0 { Arith.MulMono(incr, 1, count); } else { Arith.MulMono(-incr, 1, count); assert (-incr) * count == -(incr * count); }
  }

  /** A loop without iterations is handed out as one exactly when its upper bound is not two increments behind. */
  lemma NothingToRunIff(lower: int, upper: int, incr: int, threads: nat)
    requires incr != 0 && threads > 0 && !Counts(lower, upper, incr) && -(Arith.W as int) < LoopSize(lower, upper, incr)
    ensures (if incr > 0 then -2 * incr < upper - lower <= -incr else -incr <= upper - lower < -2 * incr)
       <==> forall t: nat, v: int :: t < threads ==> !Runs(Share(Static, lower, upper, incr, 0, t, threads), incr, v)
  {
    var n := SizeWord(lower, upper, incr);
    NoIterations(lower, upper, incr);
    if n == 0 {
      forall t: nat, v: int | t < threads ensures !Runs(Share(Static, lower, upper, incr, 0, t, threads), incr, v) {
        EmptyShare(lower, upper, incr, t, threads);
      }
    } else {
      FirstRunsLower(lower, upper, incr, n, threads);
      assert Runs(Share(Static, lower, upper, incr, 0, 0, threads), incr, lower);
    }
  }

  // ---------------------------------------------------------------- the flag without a chunk size

  lemma MultipleEitherWay(x: int, span: nat)
    requires span > 0
    ensures x % span == 0 <==> (-x) % span == 0
  {
    Arith.Split(x, span);
    Arith.Split(-x, span);
    if x % span == 0 { Arith.ModUnique(-x, -(x / span), 0, span); }
    if (-x) % span == 0 { Arith.ModUnique(x, -(-x / span), 0, span); }
  }

  /** One thread alone runs the last of the n iterations, and it has the flag and no other. */
  ghost predicate LastIsMarked(lower: int, upper: int, incr: int, threads: nat, n: nat, t: nat)
    requires Counts(lower, upper, incr) && threads > 0 && n > 0
  {
    && OnlyRunner(lower, upper, incr, threads, n - 1, t)
    && forall u: nat :: u < threads ==> (Share(Static, lower, upper, incr, 0, u, threads).last <==> u == t)
  }

  /** The loop reaches its upper bound; if it counts down, no thread runs more than one iteration. */
  predicate FlagCanBeRight(lower: int, upper: int, incr: int, threads: nat, n: nat)
    requires incr != 0 && threads > 0
  {
    && (upper - lower) % incr == 0
    && if incr > 0 then LeftoverIsRight(n, incr, threads) else n <= threads
  }

  lemma ReachesUpper(lower: int, upper: int, incr: int, n: nat)
    requires Counts(lower, upper, incr) && n == LoopSize(lower, upper, incr)
    ensures n > 0 && (Value(lower, incr, n - 1) == upper <==> (upper - lower) % incr == 0)
  {
    SizeOfLoop(lower, upper, incr);
    var d, k := if incr > 0 then upper - lower else lower - upper, if incr > 0 then incr else -incr;
    Arith.Split(d, k);
    MultipleEitherWay(d, k);
    assert (n - 1) * incr == if incr > 0 then (n - 1) * k else -((n - 1) * k);
  }

  // How many iterations the thread of the last one has.
  lemma OneEach(n: nat, incr: int, thread: nat, threads: nat)
    requires incr < 0 && thread < threads && LeftoverIsRight(n, incr, threads) && 0 < Count(Each(n, threads), Over(n, threads), thread)
    ensures Count(Each(n, threads), Over(n, threads), thread) == 1 <==> n <= threads
  {
    var e, o := Each(n, threads), Over(n, threads);
    if e >= 2 { Arith.MulMono(threads, 2, e); }
  }

  lemma EndOfLast(each: nat, over: nat, thread: nat, threads: nat, n: nat)
    requires thread < threads && over < threads && n == threads * each + over
    requires First(each, over, thread) <= n - 1 < First(each, over, thread) + Count(each, over, thread)
    ensures First(each, over, thread) + Count(each, over, thread) == n
  {
    FirstNext(each, over, thread);
    if thread + 1 < threads { FirstRises(each, over, thread + 1, threads); }
  }

  // The bounds of the thread that runs the last iteration.
  lemma LastRunner(lower: int, upper: int, incr: int, thread: nat, threads: nat, n: nat)
    requires Counts(lower, upper, incr) && thread < threads && n == LoopSize(lower, upper, incr) && n > 0
    requires LeftoverIsRight(n, incr, threads)
    requires Runs(Share(Static, lower, upper, incr, 0, thread, threads), incr, Value(lower, incr, n - 1))
    ensures var b, count := Share(Static, lower, upper, incr, 0, thread, threads), Count(Each(n, threads), Over(n, threads), thread);
            count > 0 && b.upper == Value(lower, incr, n - 1) && b.lower == b.upper - (count - 1) * incr
  {
    var e, o := Each(n, threads), Over(n, threads);
    RunsOwn(lower, upper, incr, thread, threads, n, n - 1);
    EndOfLast(e, o, thread, threads, n);
    StaticBounds(lower, upper, incr, thread, threads, n);
    Arith.Distribute(First(e, o, thread), Count(e, o, thread), incr);
    Arith.Distribute(n - 1, 1, incr);
    Arith.Distribute(Count(e, o, thread) - 1, 1, incr);
  }

  lemma SignOfProduct(count: nat, incr: int)
    requires incr != 0 && count > 0
    ensures 0 <= (count - 1) * incr <==> incr > 0 || count == 1
  {
    if incr > 0 {
      Arith.MulMono(incr, 0, count - 1);
    } else {
      assert (count - 1) * incr == -((count - 1) * (-incr));
      if count > 1 { Arith.MulStrict(-incr, 0, count - 1); }
    }
  }

  lemma FlagOfRunner(lower: int, upper: int, incr: int, thread: nat, threads: nat, n: nat)
    requires Counts(lower, upper, incr) && thread < threads && n == LoopSize(lower, upper, incr) && n > 0
    requires LeftoverIsRight(n, incr, threads)
    requires Runs(Share(Static, lower, upper, incr, 0, thread, threads), incr, Value(lower, incr, n - 1))
    ensures Share(Static, lower, upper, incr, 0, thread, threads).last
       <==> Value(lower, incr, n - 1) == upper && (incr > 0 || n <= threads)
  {
    LastRunner(lower, upper, incr, thread, threads, n);
    StaticBounds(lower, upper, incr, thread, threads, n);
    SignOfProduct(Count(Each(n, threads), Over(n, threads), thread), incr);
    if incr < 0 { OneEach(n, incr, thread, threads); }
  }

  // A thread without iterations of a falling loop starts above the loop.
  lemma IdleIsAbove(lower: int, upper: int, incr: int, thread: nat, threads: nat, n: nat)
    requires Counts(lower, upper, incr) && incr < 0 && thread < threads && n == LoopSize(lower, upper, incr) && n <= threads
    ensures var b := Share(Static, lower, upper, incr, 0, thread, threads); b.lower == b.upper || b.upper > upper
  {
    var e, o := Each(n, threads), Over(n, threads);
    StaticBounds(lower, upper, incr, thread, threads, n);
    if e >= 2 { Arith.MulMono(threads, 2, e); }
    if e == 1 { assert threads * e == threads; }
    if e == 0 { assert threads * e == 0 && thread * e == 0; }
  }

  // A share that ends at its own upper bound and does not start after it.
  lemma RunsItsUpper(b: Bounds, incr: int, count: nat)
    requires incr > 0 && b.upper == b.lower + count * incr - incr && b.lower <= b.upper
    ensures Runs(b, incr, b.upper)
  {
    Arith.Distribute(count - 1, 1, incr);
    Arith.ModUnique((count - 1) * incr, count - 1, 0, incr);
  }

  lemma FlagMeansRuns(lower: int, upper: int, incr: int, thread: nat, threads: nat, n: nat)
    requires Counts(lower, upper, incr) && thread < threads && n == LoopSize(lower, upper, incr)
    requires (incr > 0 || n <= threads) && Share(Static, lower, upper, incr, 0, thread, threads).last
    ensures Runs(Share(Static, lower, upper, incr, 0, thread, threads), incr, upper)
  {
    var b := Share(Static, lower, upper, incr, 0, thread, threads);
    if incr > 0 {
      StaticBounds(lower, upper, incr, thread, threads, n);
      RunsItsUpper(b, incr, Count(Each(n, threads), Over(n, threads), thread));
    } else {
      IdleIsAbove(lower, upper, incr, thread, threads, n);
      assert b.lower == b.upper == upper;
    }
  }

  lemma FewMeansRight(n: nat, incr: int, threads: nat)
    requires threads > 0 && (n <= threads || LeftoverIsRight(n, incr, threads))
    ensures LeftoverIsRight(n, incr, threads)
  {
    var e := Each(n, threads);
    if e >= 1 { Arith.MulMono(threads, 1, e); }
  }

  lemma MarkedWhenRight(lower: int, upper: int, incr: int, threads: nat, n: nat)
    requires Counts(lower, upper, incr) && threads > 0 && n == LoopSize(lower, upper, incr) && n > 0
    requires LeftoverIsRight(n, incr, threads) && FlagCanBeRight(lower, upper, incr, threads, n)
    ensures exists t: nat :: LastIsMarked(lower, upper, incr, threads, n, t)
  {
    RightMeansOnce(lower, upper, incr, threads, n, n - 1);
    var t: nat :| OnlyRunner(lower, upper, incr, threads, n - 1, t);
    ReachesUpper(lower, upper, incr, n);
    FlagOfRunner(lower, upper, incr, t, threads, n);
    forall u: nat | u < threads ensures Share(Static, lower, upper, incr, 0, u, threads).last <==> u == t {
      if Share(Static, lower, upper, incr, 0, u, threads).last { FlagMeansRuns(lower, upper, incr, u, threads, n); }
    }
    assert LastIsMarked(lower, upper, incr, threads, n, t);
  }

  /**
   * Without a chunk size, the flag marks the one thread that runs the last iteration, exactly when the loop reaches its
   * upper bound and either counts up with a harmless leftover or counts down with a thread for every iteration.
   */
  lemma StaticLastFlagIff(lower: int, upper: int, incr: int, threads: nat, n: nat)
    requires Counts(lower, upper, incr) && threads > 0 && n == LoopSize(lower, upper, incr)
    ensures n > 0
    ensures FlagCanBeRight(lower, upper, incr, threads, n) <==> exists t: nat :: LastIsMarked(lower, upper, incr, threads, n, t)
  {
    ReachesUpper(lower, upper, incr, n);
    if FlagCanBeRight(lower, upper, incr, threads, n) {
      FewMeansRight(n, incr, threads);
      MarkedWhenRight(lower, upper, incr, threads, n);
    }
    forall t: nat | LastIsMarked(lower, upper, incr, threads, n, t) ensures FlagCanBeRight(lower, upper, incr, threads, n) {
      if !LeftoverIsRight(n, incr, threads) { WrongMeansDropped(lower, upper, incr, t, threads, n); }
      FlagOfRunner(lower, upper, incr, t, threads, n);
    }
  }

  /** With increment one the flag is right for all bounds and threads. */
  lemma StaticLastFlag(lower: int, upper: int, thread: nat, threads: nat)
    requires thread < threads && lower <= upper
    ensures Share(Static, lower, upper, 1, 0, thread, threads).last
       <==> Runs(Share(Static, lower, upper, 1, 0, thread, threads), 1, upper)
  {
    var n := LoopSize(lower, upper, 1);
    StaticBounds(lower, upper, 1, thread, threads, n);
    var e, o := Each(n, threads), Over(n, threads);
    if thread + 1 < threads { FirstRises(e, o, thread + 1, threads); }
    FirstNext(e, o, thread);
  }

  /** Alone with a loop that does not reach its upper bound, or that counts down, a thread runs it all and has no flag. */
  lemma NobodyIsMarked()
    ensures Share(Static, 0, 9, 2, 0, 0, 1) == Bounds(0, 8, 5, false) && Share(Static, 9, 0, -1, 0, 0, 1) == Bounds(9, 0, 10, false)
    ensures !FlagCanBeRight(0, 9, 2, 1, 5) && !FlagCanBeRight(9, 0, -1, 1, 10)
  {
  }

  // ---------------------------------------------------------------- with a chunk size

  lemma RoundBounds(lower: int, incr: int, chunk: nat, thread: nat, threads: nat, round: nat)
    ensures lower + incr * chunk * thread + round * (incr * chunk * threads)
         == lower + ((round * threads + thread) * chunk) * incr
  {
    var span := incr * chunk;
    Arith.Distribute(round * threads, thread, span);
    Arith.Swap(round, span, threads);
    Arith.Assoc(round * threads + thread, chunk, incr);
  }

  lemma InChunk(j: nat, c: nat, chunk: nat)
    requires chunk > 0
    ensures c * chunk <= j < c * chunk + chunk <==> j / chunk == c
  {
    Arith.Split(j, chunk);
    if c * chunk <= j < c * chunk + chunk { Arith.ModUnique(j, c, j - c * chunk, chunk); }
  }

  lemma InRound(c: nat, round: nat, thread: nat, threads: nat)
    requires thread < threads
    ensures c == round * threads + thread <==> c % threads == thread && c / threads == round
  {
    Arith.Split(c, threads);
    if c == round * threads + thread { Arith.ModUnique(c, round, thread, threads); }
  }

  /** Iteration j is run by thread (j / chunk) mod threads, in round (j / chunk) / threads, and by no other. */
  lemma ChunkedRuns(lower: int, upper: int, incr: int, chunk: nat, thread: nat, threads: nat, round: nat, j: nat)
    requires Counts(lower, upper, incr) && chunk > 0 && thread < threads
    ensures RunsInRound(Share(StaticChunked, lower, upper, incr, chunk, thread, threads), incr, round, Value(lower, incr, j))
       <==> (j / chunk) % threads == thread && (j / chunk) / threads == round
  {
    NonZero(incr, chunk, threads);
    var b := Share(StaticChunked, lower, upper, incr, chunk, thread, threads);
    var c := round * threads + thread;
    RoundBounds(lower, incr, chunk, thread, threads, round);
    RunsIterations(Bounds(b.lower + round * b.stride, b.upper + round * b.stride, b.stride, b.last), lower, incr, c * chunk, chunk, j);
    InChunk(j, c, chunk);
    InRound(j / chunk, round, thread, threads);
  }

  lemma RemainderZero(a: int, b: nat)
    requires b > 0
    ensures Remainder(a, b) == 0 <==> a % b == 0
  {
    Arith.Split(a, b);
    Arith.Split(-a, b);
    if a < 0 && Remainder(a, b) == 0 { Arith.ModUnique(a, Quotient(a, b), 0, b); }
    if a < 0 && a % b == 0 { Arith.ModUnique(-a, -(a / b), 0, b); }
  }

  // The chunk of the last iteration, counted from the start of the loop.
  function LastChunk(lower: int, upper: int, incr: int, chunk: nat): int
    requires incr != 0 && chunk > 0
  {
    (LoopSize(lower, upper, incr) - 1) / chunk
  }

  // Spans of the bounds when the lower one is a multiple of the span.
  lemma SpanOfUpper(lower: int, upper: int, incr: nat, chunk: nat, a: int)
    requires incr > 0 && chunk > 0 && lower <= upper && lower == a * (incr * chunk)
    ensures var span := incr * chunk; span > 0 && upper / span == a + LastChunk(lower, upper, incr, chunk)
  {
    Positive(incr, chunk, 1);
    var span, d := incr * chunk, upper - lower;
    var n, c := d / incr, (d / incr) / chunk;
    Arith.Split(d, incr);
    Arith.Split(n, chunk);
    Arith.Distribute(c * chunk, n % chunk, incr);
    Arith.Assoc(c, chunk, incr);
    Arith.MulMono(incr, n % chunk, chunk - 1);
    Arith.Distribute(chunk - 1, 1, incr);
    Arith.Distribute(a, c, span);
    Arith.ModUnique(upper, a + c, (n % chunk) * incr + d % incr, span);
  }

  lemma ScaledMod(x: int, span: nat, m: nat)
    requires span > 0 && m > 0
    ensures span * m > 0 && ((x * span) % (span * m) == 0 <==> x % m == 0)
  {
    Positive(span, m, 1);
    Arith.Split(x, m);
    var q, r := x / m, x % m;
    Arith.Distribute(q * m, r, span);
    Arith.Assoc(q, m, span);
    Arith.MulMono(span, 0, r);
    Arith.MulStrict(span, r, m);
    if r > 0 { Arith.MulStrict(span, 0, r); }
    Arith.ModUnique(x * span, q, r * span, span * m);
  }

  lemma MultipleOfProduct(x: int, span: nat, m: nat)
    requires span > 0 && m > 0 && span * m > 0 && x % (span * m) == 0
    ensures x % span == 0
  {
    var q := x / (span * m);
    Arith.Split(x, span * m);
    Arith.Assoc(q, m, span);
    Arith.ModUnique(x, q * m, 0, span);
  }

  // The start of the chunk the flag looks for, in spans: rounded toward zero.
  lemma QuotientOf(upper: int, span: nat)
    requires span > 0
    ensures Quotient(upper, span) == upper / span + if upper < 0 && upper % span != 0 then 1 else 0
  {
    Arith.Split(upper, span);
    Arith.Split(-upper, span);
    if upper < 0 {
      var q, r := upper / span, upper % span;
      if r == 0 { Arith.ModUnique(-upper, -q, 0, span); } else {
        Arith.Distribute(-q - 1, 1, span);
        Arith.ModUnique(-upper, -q - 1, span - r, span);
      }
    }
  }

  // How many chunks too far the flag looks, when the upper bound is negative and not on a chunk boundary.
  function Late(upper: int, span: nat): nat
    requires span > 0
  {
    if upper < 0 && upper % span != 0 then 1 else 0
  }

  lemma InSpans(lower: int, upper: int, span: nat, thread: nat)
    requires span > 0
    ensures upper - Remainder(upper, span) - (lower + span * thread)
         == (Quotient(upper, span) - lower / span - thread) * span - lower % span
  {
    var q, a := Quotient(upper, span), lower / span;
    Arith.Split(lower, span);
    Arith.Distribute(q, -a, span);
    Arith.Distribute(q - a, -(thread as int), span);
  }

  // The distance between the chunk looked for and the thread's first chunk, as a multiple of all threads' spans.
  lemma FlagDistance(lower: int, upper: int, span: nat, thread: nat, threads: nat)
    requires span > 0 && threads > 0 && span * threads > 0
    ensures (upper - Remainder(upper, span) - (lower + span * thread)) % (span * threads) == 0
       <==> lower % span == 0 && (Quotient(upper, span) - lower / span - thread) % threads == 0
  {
    var x, r := Quotient(upper, span) - lower / span - thread, lower % span;
    InSpans(lower, upper, span, thread);
    if r == 0 {
      ScaledMod(x, span, threads);
    } else {
      Arith.Distribute(x, -1, span);
      Arith.ModUnique(x * span - r, x - 1, span - r, span);
      if (x * span - r) % (span * threads) == 0 { MultipleOfProduct(x * span - r, span, threads); }
    }
  }

  lemma Congruent(x: int, t: nat, m: nat)
    requires t < m
    ensures (x - t) % m == 0 <==> t == x % m
  {
    Arith.Split(x, m);
    Arith.Split(x - t, m);
    if (x - t) % m == 0 { Arith.ModUnique(x, (x - t) / m, t, m); }
    if t == x % m { Arith.ModUnique(x - t, x / m, 0, m); }
  }

  lemma RisingLastFlag(lower: int, upper: int, incr: nat, chunk: nat, thread: nat, threads: nat)
    requires incr > 0 && chunk > 0 && thread < threads && lower <= upper
    ensures incr * chunk > 0
    ensures Share(StaticChunked, lower, upper, incr, chunk, thread, threads).last
       <==> lower % (incr * chunk) == 0
            && thread == (LastChunk(lower, upper, incr, chunk) + Late(upper, incr * chunk)) % threads
  {
    Positive(incr, chunk, threads);
    var span := incr * chunk;
    RemainderZero(upper - Remainder(upper, span) - (lower + span * thread), span * threads);
    FlagDistance(lower, upper, span, thread, threads);
    if lower % span == 0 {
      Arith.Split(lower, span);
      SpanOfUpper(lower, upper, incr, chunk, lower / span);
      QuotientOf(upper, span);
      Congruent(Quotient(upper, span) - lower / span, thread, threads);
    }
  }

  lemma FlagOfNegated(l: int, upper: int, span: int, stride: int)
    requires span != 0 && stride != 0
    ensures Remainder(upper - Remainder(upper, span) - l, stride) == 0
       <==> Remainder(-upper - Remainder(-upper, -span) - (-l), -stride) == 0
  {
    Negated(upper, span);
    Negated(upper - Remainder(upper, span) - l, stride);
  }

  // The flag of a falling loop is that of the loop counted the other way.
  lemma FlagIsMirrored(lower: int, upper: int, incr: int, chunk: nat, thread: nat, threads: nat)
    requires Counts(lower, upper, incr) && chunk > 0 && threads > 0
    ensures Counts(-lower, -upper, -incr)
    ensures Share(StaticChunked, lower, upper, incr, chunk, thread, threads).last
       <==> Share(StaticChunked, -lower, -upper, -incr, chunk, thread, threads).last
  {
    NonZero(incr, chunk, threads);
    NonZero(-incr, chunk, threads);
    var span, span' := incr * chunk, (-incr) * chunk;
    assert span' == -span && span' * thread == -(span * thread) && span' * threads == -(span * threads);
    FlagOfNegated(lower + span * thread, upper, span, span * threads);
  }

  // A chunk's extent in the loop variable, and the upper bound as seen in the direction of counting.
  function Span(incr: int, chunk: nat): (span: nat)
    requires incr != 0 && chunk > 0
    ensures span > 0
  {
    Positive(if incr > 0 then incr else -incr, chunk, 1);
    (if incr > 0 then incr else -incr) * chunk
  }

  function Ahead(upper: int, incr: int): int { if incr > 0 then upper else -upper }

  /** Which thread gets the last-iteration flag of a chunked loop, for all bounds. */
  lemma ChunkedLastFlag(lower: int, upper: int, incr: int, chunk: nat, thread: nat, threads: nat)
    requires Counts(lower, upper, incr) && chunk > 0 && thread < threads
    ensures Share(StaticChunked, lower, upper, incr, chunk, thread, threads).last
       <==> lower % Span(incr, chunk) == 0
            && thread == (LastChunk(lower, upper, incr, chunk) + Late(Ahead(upper, incr), Span(incr, chunk))) % threads
  {
    if incr > 0 {
      RisingLastFlag(lower, upper, incr, chunk, thread, threads);
    } else {
      FlagIsMirrored(lower, upper, incr, chunk, thread, threads);
      SizeIsMirrored(lower, upper, incr);
      RisingLastFlag(-lower, -upper, -incr, chunk, thread, threads);
      MultipleEitherWay(lower, Span(incr, chunk));
    }
  }

  ghost predicate FlagIsRight(lower: int, upper: int, incr: int, chunk: nat, thread: nat, threads: nat)
    requires Counts(lower, upper, incr) && chunk > 0 && threads > 0
  {
    var owner := LastChunk(lower, upper, incr, chunk) % threads;
    Share(StaticChunked, lower, upper, incr, chunk, thread, threads).last <==> thread == owner
  }

  lemma NextOwner(c: int, threads: nat)
    requires threads > 1
    ensures c % threads != (c + 1) % threads
  {
    Congruent(c + 1, c % threads, threads);
    Arith.Split(c, threads);
    Arith.ModUnique(c + 1 - c % threads, c / threads, 1, threads);
  }

  /**
   * The flag marks the thread that runs the last iteration, and no other, exactly when the lower bound is a multiple
   * of the span and rounding the upper bound to one is not upset by its sign.
   */
  lemma ChunkedLastFlagIff(lower: int, upper: int, incr: int, chunk: nat, threads: nat)
    requires Counts(lower, upper, incr) && chunk > 0 && threads > 0
    ensures lower % Span(incr, chunk) == 0 && (threads == 1 || Ahead(upper, incr) >= 0 || upper % Span(incr, chunk) == 0)
       <==> forall t: nat :: t < threads ==> FlagIsRight(lower, upper, incr, chunk, t, threads)
  {
    var span, c := Span(incr, chunk), LastChunk(lower, upper, incr, chunk);
    var late := Late(Ahead(upper, incr), span);
    MultipleEitherWay(upper, span);
    forall t: nat | t < threads
      ensures Share(StaticChunked, lower, upper, incr, chunk, t, threads).last <==> lower % span == 0 && t == (c + late) % threads
    {
      ChunkedLastFlag(lower, upper, incr, chunk, t, threads);
    }
    var owner: nat := c % threads;
    if late == 1 && threads > 1 { NextOwner(c, threads); }
    assert FlagIsRight(lower, upper, incr, chunk, owner, threads) <==> lower % span == 0 && owner == (c + late) % threads;
  }

  /** The iterations 1 to 8 in chunks of two on two threads: the second one runs the last, and nobody has the flag. */
  lemma NoChunkIsMarked(lower: int, upper: int, chunk: nat, threads: nat)
    requires lower == 1 && upper == 8 && chunk == 2 && threads == 2
    ensures RunsInRound(Share(StaticChunked, lower, upper, 1, chunk, 1, threads), 1, 1, 8)
    ensures forall t: nat :: t < 2 ==> !Share(StaticChunked, lower, upper, 1, chunk, t, threads).last
  {
    ChunkedRuns(lower, upper, 1, chunk, 1, threads, 1, 7);
    forall t: nat | t < 2 ensures !Share(StaticChunked, lower, upper, 1, chunk, t, threads).last {
      ChunkedLastFlag(lower, upper, 1, chunk, t, threads);
    }
  }
}
