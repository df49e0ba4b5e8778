// The Monte Carlo estimate of pi: every core draws pairs from two leapfrog streams and counts those inside the circle.
// Together the cores draw what one core stepping through the base sequence would draw, and count what it would count.
module PiEstimation {
  import opened Arith
  import opened Leapfrog

  /** A word as a number in [0, 1); exact, since the divisor is a power of two. */
  function Normalize(x: nat): (u: real)
    ensures x < W ==> 0.0 <= u < 1.0
  {
    (x as real) / 4294967296.0
  }

  // Whether the point lies inside the circle, with exact sums and products.
  predicate InCircle(u1: real, u2: real) { u1 * u1 + u2 * u2 < 1.0 }

  /** The test the cores apply to a point, in double precision with whatever roundings. */
  type Test = (real, real) -> bool

  const SLACK: real := 1.0 / 1125899906842624.0

  // So close to the circle that the roundings of the squares and their sum may matter; they stay below 2^-50 in all.
  predicate OnTheEdge(u1: real, u2: real) { 1.0 - SLACK <= u1 * u1 + u2 * u2 < 1.0 + SLACK }

  ghost predicate IsCircleTest(inside: Test) {
    forall u1: real, u2: real :: 0.0 <= u1 < 1.0 && 0.0 <= u2 < 1.0 && !OnTheEdge(u1, u2) ==> inside(u1, u2) == InCircle(u1, u2)
  }

  function Hit(inside: Test, x1: nat, x2: nat): nat { if inside(Normalize(x1), Normalize(x2)) then 1 else 0 }

  // ---------------------------------------------------------------- hits in terms of the words drawn

  const SQUARE: nat := 0x1_0000_0000_0000_0000   // of the radius, 2^32
  const EDGE: nat := 0x4000

  function SumOfSquares(x1: nat, x2: nat): nat { x1 * x1 + x2 * x2 }

  lemma {:induction false} CastProduct(x: nat, y: nat)
    ensures (x * y) as real == (x as real) * (y as real)
  {
    if x == 0 {
    } else {
      CastProduct(x - 1, y);
      assert x * y == (x - 1) * y + y;
    }
  }

  lemma SquareOf(x: nat, u: real)
    requires u == Normalize(x)
    ensures (u * u) * (SQUARE as real) == (x * x) as real
  {
    CastProduct(x, x);
    assert u * 4294967296.0 == x as real;
    assert (u * 4294967296.0) * (u * 4294967296.0) == (u * u) * 18446744073709551616.0;
  }

  lemma AddScaled(a: real, b: real, k: real)
    ensures a * k + b * k == (a + b) * k
  {
  }

  lemma SumIs(x1: nat, x2: nat, u1: real, u2: real)
    requires u1 == Normalize(x1) && u2 == Normalize(x2)
    ensures u1 * u1 + u2 * u2 == (SumOfSquares(x1, x2) as real) / (SQUARE as real)
  {
    SquareOf(x1, u1);
    SquareOf(x2, u2);
    AddScaled(u1 * u1, u2 * u2, SQUARE as real);
  }

  lemma Quotient(n: nat)
    ensures (n as real) / (SQUARE as real) < 1.0 <==> n < SQUARE
    ensures (n as real) / (SQUARE as real) < 1.0 - SLACK <==> n < SQUARE - EDGE
    ensures (n as real) / (SQUARE as real) < 1.0 + SLACK <==> n < SQUARE + EDGE
  {
  }

  /**
   * What a hit is: for words whose squares do not add up to within 2^14 of 2^64, two that add up to less, whatever the
   * roundings of the test.
   */
  lemma HitByWords(inside: Test, x1: nat, x2: nat)
    requires IsCircleTest(inside) && x1 < W && x2 < W
    requires SumOfSquares(x1, x2) < SQUARE - EDGE || SQUARE + EDGE <= SumOfSquares(x1, x2)
    ensures Hit(inside, x1, x2) == if SumOfSquares(x1, x2) < SQUARE then 1 else 0
  {
    var u1, u2, n := Normalize(x1), Normalize(x2), SumOfSquares(x1, x2);
    SumIs(x1, x2, u1, u2);
    Quotient(n);
    assert !OnTheEdge(u1, u2);
  }

  // ---------------------------------------------------------------- one core

  /** The hits among the first n pairs of two streams. */
  function Hits(inside: Test, ap: nat, cp: nat, seed0: nat, seed1: nat, n: nat): (r: nat)
    ensures r <= n
  {
    if n == 0 then 0
    else Hits(inside, ap, cp, seed0, seed1, n - 1) + Hit(inside, Draw(ap, cp, seed0, n - 1), Draw(ap, cp, seed1, n - 1))
  }

  method CalculatePartialSum(inside: Test, seed0: nat, seed1: nat, ap: nat, cp: nat, samples: nat) returns (result: nat)
    ensures result == Hits(inside, ap, cp, seed0, seed1, samples)
  {
    var x1, x2 := seed0, seed1;
    result := 0;
    var i := 0;
    while i < samples
      invariant 0 <= i <= samples
      invariant x1 == Draw(ap, cp, seed0, i) && x2 == Draw(ap, cp, seed1, i)
      invariant result == Hits(inside, ap, cp, seed0, seed1, i)
    {
      var u1, u2 := Normalize(x1), Normalize(x2);
      x1 := Lcg(ap, cp, x1);
      x2 := Lcg(ap, cp, x2);
      if inside(u1, u2) {
        result := result + 1;
      }
      i := i + 1;
    }
  }

  // ---------------------------------------------------------------- streams and the sequence they share

  // The sum over the first n elements of stream r of m, each counted with its weight in the base sequence.
  function StreamSum(weight: nat -> nat, m: nat, r: nat, n: nat): nat {
    if n == 0 then 0 else StreamSum(weight, m, r, n - 1) + weight(r + (n - 1) * m)
  }

  lemma OneMoreOfStream(weight: nat -> nat, m: nat, r: nat, n: nat, j: nat)
    requires j == r + n * m
    ensures StreamSum(weight, m, r, n + 1) == StreamSum(weight, m, r, n) + weight(j)
  {
  }

  // The same over the first k streams.
  function StreamsSum(weight: nat -> nat, m: nat, k: nat, n: nat): nat {
    if k == 0 then 0 else StreamsSum(weight, m, k - 1, n) + StreamSum(weight, m, k - 1, n)
  }

  function PrefixSum(weight: nat -> nat, j: nat): nat {
    if j == 0 then 0 else PrefixSum(weight, j - 1) + weight(j - 1)
  }

  lemma {:induction false} EmptyStreams(weight: nat -> nat, m: nat, k: nat)
    ensures StreamsSum(weight, m, k, 0) == 0
  {
    if k == 0 {
    } else {
      EmptyStreams(weight, m, k - 1);
    }
  }

  // With one element more of each of the first k streams come the next k elements of the sequence.
  lemma {:induction false} OneRowMore(weight: nat -> nat, m: nat, k: nat, n: nat, j: nat)
    requires j == n * m
    ensures StreamsSum(weight, m, k, n + 1) - StreamsSum(weight, m, k, n) == PrefixSum(weight, j + k) - PrefixSum(weight, j)
  {
    if k == 0 {
    } else {
      OneRowMore(weight, m, k - 1, n, j);
      assert StreamSum(weight, m, k - 1, n + 1) == StreamSum(weight, m, k - 1, n) + weight(j + k - 1);
    }
  }

  lemma {:induction false} StreamsAreThePrefix(weight: nat -> nat, m: nat, n: nat, j: nat)
    requires j == n * m
    ensures StreamsSum(weight, m, m, n) == PrefixSum(weight, j)
  {
    if n == 0 {
      EmptyStreams(weight, m, m);
    } else {
      StreamsAreThePrefix(weight, m, n - 1, (n - 1) * m);
      OneRowMore(weight, m, m, n - 1, (n - 1) * m);
      Distribute(n - 1, 1, m);
    }
  }

  // ---------------------------------------------------------------- the hits of all cores

  /** The generator all cores share. */
  datatype Generator = Generator(a: nat, c: nat, seed: nat)
  {
    predicate Valid() { seed < W }
    function Element(j: nat): nat { Base(a, c, seed, j) }
    // Whether pair j of the base sequence is a hit.
    function PairHit(inside: Test): nat -> nat { (j: nat) => Hit(inside, Element(2 * j), Element(2 * j + 1)) }
    // Whether the squares of pair j add up to less than the bound.
    function PairBelow(bound: nat): nat -> nat {
      (j: nat) => if SumOfSquares(Element(2 * j), Element(2 * j + 1)) < bound then 1 else 0
    }
    // Whether element j is the value v.
    function IsValue(v: nat): nat -> nat { (j: nat) => if Element(j) == v then 1 else 0 }
  }

  // Pair i of a core is a pair of the base sequence.
  lemma PairOfCore(g: Generator, cores: nat, core: nat, ap: nat, cp: nat, i: nat, j: nat)
    requires g.Valid() && Jumps(g.a, g.c, 2 * cores, ap, cp) && j == core + i * cores
    ensures Draw(ap, cp, g.Element(2 * core), i) == g.Element(2 * j)
    ensures Draw(ap, cp, g.Element(2 * core + 1), i) == g.Element(2 * j + 1)
  {
    DrawIsBase(g.a, g.c, g.seed, cores, core, 0, ap, cp, i);
    DrawIsBase(g.a, g.c, g.seed, cores, core, 1, ap, cp, i);
    Swap(i, 2, cores);
    Assoc(i, 2, cores);
  }

  lemma HitOfCore(g: Generator, inside: Test, cores: nat, core: nat, ap: nat, cp: nat, i: nat, j: nat)
    requires g.Valid() && Jumps(g.a, g.c, 2 * cores, ap, cp) && j == core + i * cores
    ensures Hit(inside, Draw(ap, cp, g.Element(2 * core), i), Draw(ap, cp, g.Element(2 * core + 1), i)) == g.PairHit(inside)(j)
  {
    PairOfCore(g, cores, core, ap, cp, i, j);
  }

  lemma {:induction false} HitsOfCore(g: Generator, inside: Test, cores: nat, core: nat, ap: nat, cp: nat, n: nat)
    requires g.Valid() && Jumps(g.a, g.c, 2 * cores, ap, cp)
    ensures Hits(inside, ap, cp, g.Element(2 * core), g.Element(2 * core + 1), n) == StreamSum(g.PairHit(inside), cores, core, n)
  {
    if n == 0 {
    } else {
      var i, j := n - 1, core + (n - 1) * cores;
      HitsOfCore(g, inside, cores, core, ap, cp, i);
      HitOfCore(g, inside, cores, core, ap, cp, i, j);
      OneMoreOfStream(g.PairHit(inside), cores, core, i, j);
    }
  }

  /** A core: its two seeds, the leapfrog constants, its partial sum. */
  method PartialSumOnCore(g: Generator, inside: Test, cores: nat, core: nat, samples: nat) returns (result: nat)
    requires g.Valid()
    ensures result == StreamSum(g.PairHit(inside), cores, core, samples)
  {
    var seed0 := RightSeed(g.seed, g.a, g.c, 2 * core);
    var seed1 := RightSeed(g.seed, g.a, g.c, 2 * core + 1);
    var ap, cp := LeapfrogConstants(2 * cores, g.a, g.c);
    result := CalculatePartialSum(inside, seed0, seed1, ap, cp, samples);
    HitsOfCore(g, inside, cores, core, ap, cp, samples);
  }

  /** What a single core stepping through the base sequence counts in its first m pairs. */
  function BaseHits(g: Generator, inside: Test, m: nat): nat { PrefixSum(g.PairHit(inside), m) }

  /** How many of the first m pairs have squares that add up to less than the bound. */
  function PairsBelow(g: Generator, bound: nat, m: nat): nat { PrefixSum(g.PairBelow(bound), m) }

  lemma PairBetween(g: Generator, inside: Test, j: nat)
    requires g.Valid() && IsCircleTest(inside)
    ensures g.PairBelow(SQUARE - EDGE)(j) <= g.PairHit(inside)(j) <= g.PairBelow(SQUARE + EDGE)(j)
  {
    var x1, x2 := g.Element(2 * j), g.Element(2 * j + 1);
    BaseIsWord(g.a, g.c, g.seed, 2 * j);
    BaseIsWord(g.a, g.c, g.seed, 2 * j + 1);
    if SumOfSquares(x1, x2) < SQUARE - EDGE || SQUARE + EDGE <= SumOfSquares(x1, x2) { HitByWords(inside, x1, x2); }
  }

  /** The hits of a circle test are the pairs inside the circle, but for those on its edge. */
  lemma {:induction false} HitsBetween(g: Generator, inside: Test, m: nat)
    requires g.Valid() && IsCircleTest(inside)
    ensures PairsBelow(g, SQUARE - EDGE, m) <= BaseHits(g, inside, m) <= PairsBelow(g, SQUARE + EDGE, m)
  {
    if m == 0 {
    } else {
      HitsBetween(g, inside, m - 1);
      PairBetween(g, inside, m - 1);
    }
  }

  method PartialSums(g: Generator, inside: Test, cores: nat, samples: nat) returns (partial: array<nat>)
    requires g.Valid()
    ensures fresh(partial) && partial.Length == cores
    ensures forall k: nat :: k < cores ==> partial[k] == StreamSum(g.PairHit(inside), cores, k, samples)
  {
    partial := new nat[cores];
    var core := 0;
    while core < cores
      invariant 0 <= core <= cores
      invariant forall k: nat :: k < core ==> partial[k] == StreamSum(g.PairHit(inside), cores, k, samples)
    {
      var result := PartialSumOnCore(g, inside, cores, core, samples);
      partial[core] := result;
      core := core + 1;
    }
  }

  /** The pairs the cores draw: the samples, but for those left over when they are shared out. */
  function DrawnPairs(cores: nat, samples: nat): (m: nat)
    requires 0 < cores
    ensures m == samples / cores * cores <= samples
  {
    Split(samples, cores);
    samples - samples % cores
  }

  /** Four times the share of the hits. */
  function FourTimes(hits: nat, points: nat): real
    requires 0 < points
  {
    ((4 * hits) as real) / (points as real)
  }

  /** The whole program on one cluster: partial sums, their reduction by core 0, the estimate. */
  method EstimatePi(g: Generator, inside: Test, cores: nat, samples: nat) returns (sum: nat, estimate: real)
    requires g.Valid() && 0 < cores && 0 < samples
    ensures sum == BaseHits(g, inside, DrawnPairs(cores, samples))
    ensures estimate == FourTimes(sum, samples)
    ensures IsCircleTest(inside) ==>
      var drawn := DrawnPairs(cores, samples); PairsBelow(g, SQUARE - EDGE, drawn) <= sum <= PairsBelow(g, SQUARE + EDGE, drawn)
  {
    var perCore := samples / cores;
    var partial := PartialSums(g, inside, cores, perCore);
    sum := 0;
    var i := 0;
    while i < cores
      invariant 0 <= i <= cores && sum == StreamsSum(g.PairHit(inside), cores, i, perCore)
    {
      sum := sum + partial[i];
      i := i + 1;
    }
    StreamsAreThePrefix(g.PairHit(inside), cores, perCore, DrawnPairs(cores, samples));
    ghost var right := IsCircleTest(inside);
    if right { HitsBetween(g, inside, DrawnPairs(cores, samples)); }
    estimate := ((4 * sum) as real) / (samples as real);
  }

  // ---------------------------------------------------------------- when the estimate is the share of hits

  /** Points were drawn, and the estimate is four times the share of hits among them. */
  ghost predicate EstimateIsShare(g: Generator, inside: Test, cores: nat, samples: nat)
    requires 0 < cores && 0 < samples
  {
    var drawn, sum := DrawnPairs(cores, samples), BaseHits(g, inside, DrawnPairs(cores, samples));
    0 < drawn && FourTimes(sum, samples) == FourTimes(sum, drawn)
  }

  lemma OtherDivisor(hits: nat, m: nat, n: nat)
    requires 0 < m < n
    ensures FourTimes(hits, m) == FourTimes(hits, n) <==> hits == 0
  {
    var q, p := FourTimes(hits, m), FourTimes(hits, n);
    assert q * (m as real) == (4 * hits) as real == p * (n as real);
    if q == p {
      assert q * ((n - m) as real) == 0.0;
    }
  }

  lemma MulPositive(samples: nat, cores: nat, drawn: nat)
    requires 0 < cores && drawn == samples - samples % cores
    ensures 0 < drawn <==> cores <= samples
  {
    if cores <= samples {
      assert samples % cores < cores;
    }
  }

  /** For one generator: exactly when the cores divide the samples, or some points were drawn and none was a hit. */
  lemma EstimateIsShareIff(g: Generator, inside: Test, cores: nat, samples: nat)
    requires 0 < cores && 0 < samples
    ensures EstimateIsShare(g, inside, cores, samples) <==>
      samples % cores == 0 || (cores <= samples && BaseHits(g, inside, DrawnPairs(cores, samples)) == 0)
  {
    var drawn := DrawnPairs(cores, samples);
    MulPositive(samples, cores, drawn);
    if 0 < drawn < samples {
      OtherDivisor(BaseHits(g, inside, drawn), drawn, samples);
    }
  }

  lemma CentreIsInside(inside: Test)
    requires IsCircleTest(inside)
    ensures inside(0.0, 0.0)
  {
    assert !OnTheEdge(0.0, 0.0) && InCircle(0.0, 0.0);
  }

  // The generator that stands still at zero draws the centre of the circle again and again.
  lemma {:induction false} StandsStill(n: nat)
    ensures Base(0, 0, 0, n) == 0
  {
    if n == 0 {
    } else {
      StandsStill(n - 1);
    }
  }

  lemma {:induction false} AlwaysHits(inside: Test, m: nat)
    requires inside(0.0, 0.0)
    ensures BaseHits(Generator(0, 0, 0), inside, m) == m
  {
    if m == 0 {
    } else {
      AlwaysHits(inside, m - 1);
      StandsStill(2 * (m - 1));
      StandsStill(2 * (m - 1) + 1);
    }
  }

  /** Whatever the generator, the estimate is four times the share of hits exactly when the cores divide the samples. */
  lemma EstimateIsAlwaysShareIff(inside: Test, cores: nat, samples: nat)
    requires IsCircleTest(inside) && 0 < cores && 0 < samples
    ensures samples % cores == 0 <==> forall g: Generator :: g.Valid() ==> EstimateIsShare(g, inside, cores, samples)
  {
    if samples % cores == 0 {
      forall g: Generator | g.Valid() ensures EstimateIsShare(g, inside, cores, samples) {
        EstimateIsShareIff(g, inside, cores, samples);
      }
    } else {
      EstimateIsShareIff(Generator(0, 0, 0), inside, cores, samples);
      CentreIsInside(inside);
      AlwaysHits(inside, DrawnPairs(cores, samples));
      MulPositive(samples, cores, DrawnPairs(cores, samples));
    }
  }

  /** 1024 samples on three cores: 1023 points are drawn, and if all of them are hits the estimate is not four. */
  lemma ThreeCores(inside: Test, cores: nat, samples: nat, drawn: nat)
    requires IsCircleTest(inside) && cores == 3 && samples == 1024 && drawn == DrawnPairs(cores, samples)
    ensures drawn == 1023 && BaseHits(Generator(0, 0, 0), inside, drawn) == drawn
    ensures FourTimes(drawn, drawn) == 4.0 != FourTimes(drawn, samples)
    ensures !EstimateIsShare(Generator(0, 0, 0), inside, cores, samples)
  {
    EstimateIsShareIff(Generator(0, 0, 0), inside, cores, samples);
    CentreIsInside(inside);
    AlwaysHits(inside, drawn);
  }

  // ---------------------------------------------------------------- the values drawn

  /** How often a stream draws the value v in its first n draws. */
  function Drawn(ap: nat, cp: nat, seed: nat, v: nat, n: nat): nat {
    if n == 0 then 0 else Drawn(ap, cp, seed, v, n - 1) + if Draw(ap, cp, seed, n - 1) == v then 1 else 0
  }

  /** How often the streams of the first k cores do. */
  function AllDrawn(g: Generator, ap: nat, cp: nat, v: nat, k: nat, n: nat): nat {
    if k == 0 then 0
    else AllDrawn(g, ap, cp, v, k - 1, n) + Drawn(ap, cp, g.Element(2 * k - 2), v, n) + Drawn(ap, cp, g.Element(2 * k - 1), v, n)
  }

  lemma DrawOfStream(g: Generator, cores: nat, core: nat, s: nat, ap: nat, cp: nat, i: nat, j: nat)
    requires g.Valid() && Jumps(g.a, g.c, 2 * cores, ap, cp) && j == 2 * core + s + i * (2 * cores)
    ensures Draw(ap, cp, g.Element(2 * core + s), i) == g.Element(j)
  {
    DrawIsBase(g.a, g.c, g.seed, cores, core, s, ap, cp, i);
  }

  lemma {:induction false} DrawnIsStream(g: Generator, cores: nat, core: nat, s: nat, ap: nat, cp: nat, v: nat, n: nat)
    requires g.Valid() && Jumps(g.a, g.c, 2 * cores, ap, cp)
    ensures Drawn(ap, cp, g.Element(2 * core + s), v, n) == StreamSum(g.IsValue(v), 2 * cores, 2 * core + s, n)
  {
    if n == 0 {
    } else {
      DrawnIsStream(g, cores, core, s, ap, cp, v, n - 1);
      var j := 2 * core + s + (n - 1) * (2 * cores);
      DrawOfStream(g, cores, core, s, ap, cp, n - 1, j);
      OneMoreOfStream(g.IsValue(v), 2 * cores, 2 * core + s, n - 1, j);
    }
  }

  lemma TwoStreams(weight: nat -> nat, m: nat, k: nat, n: nat)
    requires 2 <= k
    ensures StreamsSum(weight, m, k, n) == StreamsSum(weight, m, k - 2, n) + StreamSum(weight, m, k - 2, n) + StreamSum(weight, m, k - 1, n)
  {
  }

  lemma {:induction false} AllDrawnAreStreams(g: Generator, cores: nat, ap: nat, cp: nat, v: nat, k: nat, n: nat)
    requires g.Valid() && Jumps(g.a, g.c, 2 * cores, ap, cp)
    ensures AllDrawn(g, ap, cp, v, k, n) == StreamsSum(g.IsValue(v), 2 * cores, 2 * k, n)
  {
    if k == 0 {
    } else {
      AllDrawnAreStreams(g, cores, ap, cp, v, k - 1, n);
      DrawnIsStream(g, cores, k - 1, 0, ap, cp, v, n);
      DrawnIsStream(g, cores, k - 1, 1, ap, cp, v, n);
      TwoStreams(g.IsValue(v), 2 * cores, 2 * k, n);
    }
  }

  /** All draws of all cores together are the first 2P * n elements of the base sequence: each value as often. */
  lemma AllDrawsAreThePrefix(g: Generator, cores: nat, ap: nat, cp: nat, v: nat, n: nat)
    requires g.Valid() && Jumps(g.a, g.c, 2 * cores, ap, cp)
    ensures AllDrawn(g, ap, cp, v, cores, n) == PrefixSum(g.IsValue(v), n * (2 * cores))
  {
    AllDrawnAreStreams(g, cores, ap, cp, v, cores, n);
    StreamsAreThePrefix(g.IsValue(v), 2 * cores, n, n * (2 * cores));
  }
}
