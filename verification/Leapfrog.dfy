// The leapfrog method of the parallel random number generator: each core steps through the base sequence of the
// linear congruential generator in strides, and together the cores draw every base value once.
module Leapfrog {
  import opened Arith

  /** One step of the generator, on 32 bits. */
  function Lcg(a: nat, c: nat, x: nat): nat { (x * a + c) % W }

  /** Element n of the base sequence. */
  function Base(a: nat, c: nat, seed: nat, n: nat): nat {
    if n == 0 then seed else Lcg(a, c, Base(a, c, seed, n - 1))
  }

  lemma {:induction false} BaseSplits(a: nat, c: nat, seed: nat, m: nat, n: nat)
    ensures Base(a, c, seed, m + n) == Base(a, c, Base(a, c, seed, m), n)
  {
    if n == 0 {
    } else {
      BaseSplits(a, c, seed, m, n - 1);
    }
  }

  // ---------------------------------------------------------------- n steps at once

  function Power(a: nat, n: nat): nat { if n == 0 then 1 else Power(a, n - 1) * a }

  // The sum of the powers below n.
  function Geometric(a: nat, n: nat): nat { if n == 0 then 0 else Geometric(a, n - 1) + Power(a, n - 1) }

  lemma {:induction false} GeometricShift(a: nat, n: nat)
    ensures Geometric(a, n + 1) == Geometric(a, n) * a + 1
  {
    if n == 0 {
    } else {
      GeometricShift(a, n - 1);
      Arith.Distribute(Geometric(a, n - 1), Power(a, n - 1), a);
    }
  }

  // Applying one more step to x * p + g * c.
  lemma OneMoreStep(x: nat, p: nat, g: nat, a: nat, c: nat)
    ensures Lcg(a, c, (x * p + g * c) % W) == (x * (p * a) + (g * a + 1) * c) % W
  {
    var y := x * p + g * c;
    Arith.ModMulMod(y, a, W);
    Arith.ModAddMod((y % W) * a, c, W);
    Arith.ModAddMod(y * a, c, W);
    assert y * a == x * (p * a) + g * a * c;
    assert (g * a + 1) * c == g * a * c + c;
  }

  // n steps of the generator, as multiplier p and sum of powers g.
  function Affine(x: nat, p: nat, g: nat, c: nat): nat { (x * p + g * c) % W }

  lemma AffineStep(x: nat, p: nat, g: nat, a: nat, c: nat, p': nat, g': nat)
    requires p' == p * a && g' == g * a + 1
    ensures Lcg(a, c, Affine(x, p, g, c)) == Affine(x, p', g', c)
  {
    OneMoreStep(x, p, g, a, c);
  }

  lemma {:induction false} BaseIsAffine(a: nat, c: nat, x: nat, n: nat)
    requires x < W
    ensures Base(a, c, x, n) == Affine(x, Power(a, n), Geometric(a, n), c)
  {
    if n == 0 {
    } else {
      BaseIsAffine(a, c, x, n - 1);
      GeometricShift(a, n - 1);
      AffineStep(x, Power(a, n - 1), Geometric(a, n - 1), a, c, Power(a, n), Geometric(a, n));
    }
  }

  /** Multiplier and increment that advance the generator n steps at once. */
  ghost predicate Jumps(a: nat, c: nat, n: nat, ap: nat, cp: nat) {
    forall x: nat :: x < W ==> Lcg(ap, cp, x) == Base(a, c, x, n)
  }

  lemma ReducedConstants(a: nat, c: nat, n: nat, x: nat, ap: nat, cp: nat)
    requires x < W && ap == Power(a, n) % W && cp == (Geometric(a, n) * c) % W
    ensures Lcg(ap, cp, x) == Base(a, c, x, n)
  {
    BaseIsAffine(a, c, x, n);
    var p, g := Power(a, n), Geometric(a, n) * c;
    Arith.ModMulMod(p, x, W);
    Arith.ModAddMod(x * ap, g % W, W);
    Arith.ModAddMod(x * p, g, W);
    assert x * ap == ap * x && x * p == p * x;
  }

  lemma OneMoreTerm(a: nat, p: nat)
    ensures (Geometric(a, p) % W + Power(a, p) % W) % W == Geometric(a, p + 1) % W
    ensures (Power(a, p) % W * a) % W == Power(a, p + 1) % W
  {
    Arith.ModAddMod(Geometric(a, p), Power(a, p), W);
    Arith.ModMulMod(Power(a, p), a, W);
  }

  // Multiplying the reduced sum of powers.
  method Scaled(ghost g: nat, cp: nat, c: nat) returns (r: nat)
    requires cp == g % W
    ensures r < W && r == (g * c) % W
  {
    Arith.ModMulMod(g, c, W);
    r := (cp * c) % W;
  }

  method LeapfrogConstants(numSequences: nat, a: nat, c: nat) returns (ap: nat, cp: nat)
    ensures ap < W && cp < W && Jumps(a, c, numSequences, ap, cp)
  {
    ap, cp := 1, 0;
    var p := 0;
    while p < numSequences
      invariant 0 <= p <= numSequences
      invariant ap == Power(a, p) % W && cp == Geometric(a, p) % W
    {
      OneMoreTerm(a, p);
      cp := (cp + ap) % W;
      ap := (ap * a) % W;
      p := p + 1;
    }
    cp := Scaled(Geometric(a, p), cp, c);
    forall x: nat | x < W ensures Lcg(ap, cp, x) == Base(a, c, x, numSequences) {
      ReducedConstants(a, c, numSequences, x, ap, cp);
    }
  }

  method RightSeed(leftSeed: nat, a: nat, c: nat, sequence: nat) returns (seed: nat)
    ensures seed == Base(a, c, leftSeed, sequence)
  {
    seed := leftSeed;
    var p := 1;
    while p <= sequence
      invariant 1 <= p <= sequence + 1 && seed == Base(a, c, leftSeed, p - 1)
    {
      seed := Lcg(a, c, seed);
      p := p + 1;
    }
  }

  // ---------------------------------------------------------------- all cores together

  /** Draw i of a stream started at `seed` and stepped by the leapfrog constants. */
  function Draw(ap: nat, cp: nat, seed: nat, i: nat): nat {
    if i == 0 then seed else Lcg(ap, cp, Draw(ap, cp, seed, i - 1))
  }

  lemma {:induction false} BaseIsWord(a: nat, c: nat, seed: nat, n: nat)
    requires seed < W
    ensures Base(a, c, seed, n) < W
  {
  }

  lemma OneStride(x: nat, i: nat, m: nat)
    requires i > 0
    ensures x + (i - 1) * m + m == x + i * m
  {
    Arith.Distribute(i - 1, 1, m);
  }

  // One draw advances the base sequence by one stride.
  lemma DrawStep(a: nat, c: nat, seed: nat, m: nat, ap: nat, cp: nat, at: nat)
    requires seed < W && Jumps(a, c, m, ap, cp)
    ensures Lcg(ap, cp, Base(a, c, seed, at)) == Base(a, c, seed, at + m)
  {
    BaseIsWord(a, c, seed, at);
    BaseSplits(a, c, seed, at, m);
  }

  /** Draw i of stream s on a core is element 2P * i + 2 * core + s of the base sequence. */
  lemma {:induction false} DrawIsBase(a: nat, c: nat, seed: nat, cores: nat, core: nat, s: nat, ap: nat, cp: nat, i: nat)
    requires seed < W && Jumps(a, c, 2 * cores, ap, cp)
    ensures Draw(ap, cp, Base(a, c, seed, 2 * core + s), i) == Base(a, c, seed, 2 * core + s + i * (2 * cores))
  {
    if i == 0 {
    } else {
      DrawIsBase(a, c, seed, cores, core, s, ap, cp, i - 1);
      DrawStep(a, c, seed, 2 * cores, ap, cp, 2 * core + s + (i - 1) * (2 * cores));
      OneStride(2 * core + s, i, 2 * cores);
    }
  }

  ghost predicate Draws(cores: nat, n: nat, core: nat, s: nat, i: nat, j: nat) {
    core < cores && s < 2 && i < n && j == 2 * core + s + i * (2 * cores)
  }

  // The base element determines who draws it.
  lemma DrawnBy(cores: nat, n: nat, core: nat, s: nat, i: nat, j: nat)
    requires Draws(cores, n, core, s, i, j)
    ensures 0 < cores && j < n * (2 * cores)
    ensures i == j / (2 * cores) && core == (j % (2 * cores)) / 2 && s == (j % (2 * cores)) % 2
  {
    Arith.ModUnique(j, i, 2 * core + s, 2 * cores);
    Arith.MulMono(2 * cores, i + 1, n);
    Arith.Distribute(i, 1, 2 * cores);
  }

  lemma InRow(n: nat, m: nat, j: nat) returns (i: nat, r: nat)
    requires 0 < m && j < n * m
    ensures i < n && r < m && j == r + i * m
  {
    i, r := j / m, j % m;
    Arith.Split(j, m);
    if i >= n { Arith.MulMono(m, n, i); }
  }

  lemma SomeoneDraws(cores: nat, n: nat, j: nat) returns (core: nat, s: nat, i: nat)
    requires 0 < cores && j < n * (2 * cores)
    ensures Draws(cores, n, core, s, i, j)
  {
    var r;
    i, r := InRow(n, 2 * cores, j);
    core, s := r / 2, r % 2;
  }

  /** The first n draws of all streams are the first 2P * n base values, each drawn once. */
  lemma DrawnExactlyOnce(cores: nat, n: nat, j: nat)
    requires 0 < cores
    ensures (exists core: nat, s: nat, i: nat :: Draws(cores, n, core, s, i, j)) <==> j < n * (2 * cores)
    ensures forall core: nat, s: nat, i: nat, core': nat, s': nat, i': nat ::
              Draws(cores, n, core, s, i, j) && Draws(cores, n, core', s', i', j) ==> core == core' && s == s' && i == i'
  {
    if j < n * (2 * cores) {
      var core, s, i := SomeoneDraws(cores, n, j);
    }
    forall core: nat, s: nat, i: nat | Draws(cores, n, core, s, i, j)
      ensures j < n * (2 * cores) && i == j / (2 * cores) && core == (j % (2 * cores)) / 2 && s == (j % (2 * cores)) % 2
    {
      DrawnBy(cores, n, core, s, i, j);
    }
  }
}
