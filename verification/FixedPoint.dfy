// Truncating fixed-point arithmetic on unsigned words, and the error analysis of
// one Goldschmidt step for 1/sqrt(m) and sqrt(m).
//
// Everything is stated over exact integers: no square root, no rational number.
// A word x stands for x / 2^30 (m, s, d, u) or x / 2^32 (r).
module FixedPoint {
  import opened Arith

  const Q: nat := 0x4000_0000
  // The constant `three` of both kernels, in format 2.30.
  const THREE: nat := 0xc000_0000

  /** The high half of the 64-bit product of two 32-bit words. */
  function Mul32(a: nat, b: nat): (r: nat)
    requires a < W && b < W
    ensures r < W
  {
    assert a * b < W * W by { MulBounds(a, b, W - 1, W - 1); }
    a * b / W
  }

  lemma Mul32Truncates(a: nat, b: nat)
    requires a < W && b < W
    ensures Mul32(a, b) * W <= a * b < (Mul32(a, b) + 1) * W
  {
  }

  // (Q+a)(2Q-a)^2 = 4Q^3 - a^2(3Q-a): the linear error term of d cancels.
  lemma Cubic(q: int, a: int)
    ensures (q + a) * ((2 * q - a) * (2 * q - a)) == 4 * q * q * q - (a * a) * (3 * q - a)
  {
    var u := 2 * q - a;
    assert u * u == 4 * q * q - 4 * (q * a) + a * a;
    calc {
      (q + a) * (u * u);
      q * (u * u) + a * (u * u);
      q * (4 * q * q - 4 * (q * a) + a * a) + a * (4 * q * q - 4 * (q * a) + a * a);
      4 * q * q * q - 4 * q * (q * a) + q * (a * a) + 4 * a * q * q - 4 * a * (q * a) + a * (a * a);
      4 * q * q * q - (a * a) * (3 * q - a);
    }
  }

  /**
   * A table entry t, read as r = t * 2^16, that is good enough for m: its square brings
   * m to within 2^-7 of one, and no shift of the first step wraps.
   */
  predicate GoodSeed(m: nat, t: nat)
  {
    && Q <= m < W
    && 0x8000 <= t < 0x1_0000
    && 0x3f80_0000_0000_0000 <= t * t * m <= 0x4080_0000_0000_0000
    && t * (THREE + 2 - t * t / 4) < 0x8000_0000_0000
    && m * t < 0xc000_0000_0000
  }

  /** What holds between m and a pair (s, r) with s ~ m*r: the pair stays synchronised. */
  predicate InStep(m: nat, s: nat, r: nat)
  {
    W * (s - 2) < m * r < W * (s + 4)
  }

  lemma SeedProducts(m: nat, t: nat, s: nat, d: nat)
    requires t < 0x1_0000
    requires s * W <= m * (t * 0x1_0000) < (s + 1) * W
    requires d * W <= s * (t * 0x1_0000) < (d + 1) * W
    ensures d * W <= t * t * m < (d + 2) * W
    ensures s * 0x1_0000 <= m * t
  {
    assert s * 0x1_0000 <= m * t < (s + 1) * 0x1_0000;
    assert d * 0x1_0000 <= s * t < (d + 1) * 0x1_0000;
    calc {
      d * W;
    <=
      (s * t) * 0x1_0000;
    ==  { Swap(t, s, 0x1_0000); }
      t * (s * 0x1_0000);
    <=  { MulMono(t, s * 0x1_0000, m * t); }
      t * (m * t);
    ==
      t * t * m;
    }
    calc {
      t * t * m;
    ==
      t * (m * t);
    <=  { MulMono(t, m * t, (s + 1) * 0x1_0000); }
      t * ((s + 1) * 0x1_0000);
    ==
      (s * t) * 0x1_0000 + t * 0x1_0000;
    <
      (d + 2) * W;
    }
  }

  lemma SeedStep(m: nat, t: nat, s: nat, d: nat)
    requires GoodSeed(m, t)
    requires s == Mul32(m, t * 0x1_0000) && d == Mul32(s, t * 0x1_0000)
    ensures -0x80_0002 <= d - Q <= 0x80_0000
    ensures d <= t * t * m / W <= d + 2
    ensures s < 0xc000_0000
  {
    Mul32Truncates(m, t * 0x1_0000);
    Mul32Truncates(s, t * 0x1_0000);
    SeedProducts(m, t, s, d);
  }

  lemma ScaledTruncation(m: nat, r': nat, x: nat)
    requires 0 < m && r' * 0x8000_0000 <= x < (r' + 2) * 0x8000_0000
    ensures (m * r') * 0x8000_0000 <= m * x < (m * r') * 0x8000_0000 + m * W
  {
    MulMono(m, r' * 0x8000_0000, x);
    MulStrict(m, x, (r' + 2) * 0x8000_0000);
    assert m * ((r' + 2) * 0x8000_0000) == (m * r') * 0x8000_0000 + m * W;
  }

  lemma ScaledPair(m: nat, r: nat, s: nat, u: nat)
    requires 0 < u && s * W <= m * r < (s + 1) * W
    ensures (s * u) * W <= m * (r * u) < (s * u) * W + u * W
  {
    assert m * (r * u) == u * (m * r);
    MulMono(u, s * W, m * r);
    MulStrict(u, m * r, (s + 1) * W);
    assert u * ((s + 1) * W) == (s * u) * W + u * W;
  }

  /** One refinement r' = r(3-d)/2, s' = s(3-d)/2 by truncating products keeps s and r in step with m. */
  lemma StepKeepsInStep(m: nat, r: nat, s: nat, u: nat, r': nat, s': nat)
    requires 0 < m < W && 0 < u <= 0x8100_0000
    requires s * W <= m * r < (s + 1) * W
    requires r' * 0x8000_0000 <= r * u < (r' + 2) * 0x8000_0000
    requires s' * 0x8000_0000 <= s * u < (s' + 2) * 0x8000_0000
    ensures InStep(m, s', r')
  {
    assert (m * r') * 0x8000_0000 <= m * (r * u) < (m * r') * 0x8000_0000 + m * W by { ScaledTruncation(m, r', r * u); }
    assert (s * u) * W <= m * (r * u) < (s * u) * W + u * W by { ScaledPair(m, r, s, u); }
  }

  // The product of two truncated products, against the product of the exact ones.
  lemma TruncatedProduct(x: nat, y: nat, x': nat, y': nat)
    requires x' * 0x8000_0000 <= x < (x' + 2) * 0x8000_0000
    requires y' * 0x8000_0000 <= y < (y' + 2) * 0x8000_0000
    ensures (x' * y') * 0x4000_0000_0000_0000 <= x * y
    ensures x * y <= (x' * y' + 2 * x' + 2 * y' + 4) * 0x4000_0000_0000_0000
  {
    MulBounds(x' * 0x8000_0000, y' * 0x8000_0000, x, y);
    MulBounds(x, y, (x' + 2) * 0x8000_0000, (y' + 2) * 0x8000_0000);
    Scale(x', y', 0x8000_0000);
    Scale(x' + 2, y' + 2, 0x8000_0000);
    assert (x' + 2) * (y' + 2) == x' * y' + 2 * x' + 2 * y' + 4;
  }

  lemma ScaledBounds(k: nat, d: nat, x: nat, e: nat)
    requires d * W <= x < (d + e) * W
    ensures (k * d) * W <= k * x <= (k * d + k * e) * W
  {
    MulMono(k, d * W, x);
    MulMono(k, x, (d + e) * W);
    assert k * (d * W) == (k * d) * W;
    assert k * ((d + e) * W) == (k * d + k * e) * W;
  }

  lemma Square(a: int, n: nat)
    requires -(n as int) <= a <= n
    ensures 0 <= a * a <= n * n
  {
    if 0 <= a { MulBounds(a, a, n, n); } else { MulBounds(-a, -a, n, n); }
  }

  lemma SquareTimes(a: int, n: nat, k: nat)
    requires -(n as int) <= a <= n <= k
    ensures 0 <= (a * a) * (k - a) <= (n * n) * (k + n)
  {
    Square(a, n);
    MulBounds(a * a, k - a, n * n, k + n);
  }

  lemma CubicBounds(q: nat, a: int, n: nat, u: int)
    requires -(n as int) <= a <= n <= q && u == 2 * q - a
    ensures 4 * q * q * q - (n * n) * (3 * q + n) <= (u * u) * (q + a) <= 4 * q * q * q
    ensures 0 <= u * u <= (2 * q + n) * (2 * q + n)
  {
    assert (u * u) * (q + a) == 4 * q * q * q - (a * a) * (3 * q - a) by { Cubic(q, a); }
    assert 0 <= (a * a) * (3 * q - a) <= (n * n) * (3 * q + n) by { SquareTimes(a, n, 3 * q); }
    assert 0 <= u * u <= (2 * q + n) * (2 * q + n) by { Square(u, 2 * q + n); }
  }

  // The linear part of StepConverges, over the products it names.
  lemma ConvergesLinear(u2: nat, u2d: nat, u2sr: nat, sr': nat, s': nat, r': nat, d': nat)
    requires u2 <= (2 * Q + 0x80_0002) * (2 * Q + 0x80_0002)
    requires 4 * Q * Q * Q - (0x80_0002 * 0x80_0002) * (3 * Q + 0x80_0002) <= u2d <= 4 * Q * Q * Q
    requires u2d * W <= u2sr <= (u2d + u2 * 1) * W
    requires sr' * 0x4000_0000_0000_0000 <= u2sr <= (sr' + 2 * s' + 2 * r' + 4) * 0x4000_0000_0000_0000
    requires d' * W <= sr' < (d' + 1) * W
    requires r' < W && s' < W
    ensures -0x1_0000 <= d' - Q <= 2
  {
  }

  lemma ConvergesProducts(sr: nat, d: nat, u2: nat, sr': nat, r': nat, s': nat, d': nat)
    requires u2 <= (2 * Q + 0x80_0002) * (2 * Q + 0x80_0002)
    requires 4 * Q * Q * Q - (0x80_0002 * 0x80_0002) * (3 * Q + 0x80_0002) <= u2 * d <= 4 * Q * Q * Q
    requires d * W <= sr < (d + 1) * W
    requires r' < W && s' < W
    requires sr' * 0x4000_0000_0000_0000 <= u2 * sr <= (sr' + 2 * s' + 2 * r' + 4) * 0x4000_0000_0000_0000
    requires d' * W <= sr' < (d' + 1) * W
    ensures -0x1_0000 <= d' - Q <= 2
  {
    ScaledBounds(u2, d, sr, 1);
    ConvergesLinear(u2, u2 * d, u2 * sr, sr', s', r', d');
  }

  /** If d = 1 + a/Q, then the next d is 1 up to O(a^2): the quadratic convergence of the iteration. */
  lemma StepConverges(r: nat, s: nat, d: nat, u: nat, r': nat, s': nat, d': nat)
    requires -0x80_0002 <= d - Q <= 0x80_0000 && u == THREE - d
    requires d * W <= s * r < (d + 1) * W
    requires r' < W && s' < W
    requires r' * 0x8000_0000 <= r * u < (r' + 2) * 0x8000_0000
    requires s' * 0x8000_0000 <= s * u < (s' + 2) * 0x8000_0000
    requires d' * W <= s' * r' < (d' + 1) * W
    ensures -0x1_0000 <= d' - Q <= 2
  {
    TruncatedProduct(s * u, r * u, s', r');
    assert (s * u) * (r * u) == (u * u) * (s * r) by { Scale(s, r, u); }
    CubicBounds(Q, d - Q, 0x80_0002, u);
    ConvergesProducts(s * r, d, u * u, s' * r', r', s', d');
  }

  lemma InStepTimesS(m: nat, s: nat, r: nat)
    requires InStep(m, s, r)
    ensures (s * s - 2 * s) * W <= m * (s * r) <= (s * s + 4 * s) * W
  {
    MulMono(s, W * (s - 2), m * r);
    MulMono(s, m * r, W * (s + 4));
    assert s * (m * r) == m * (s * r);
    assert s * (W * (s - 2)) == (s * s - 2 * s) * W;
    assert s * (W * (s + 4)) == (s * s + 4 * s) * W;
  }

  /** s*s against m*d: what ties the square of the approximation to its radicand. */
  lemma SquareInStep(m: nat, s: nat, r: nat, d: nat)
    requires InStep(m, s, r) && 2 <= s
    requires d * W <= s * r < (d + 1) * W
    ensures m * d - 4 * s <= s * s <= m * (d + 1) + 2 * s
  {
    assert (s * s - 2 * s) * W <= m * (s * r) <= (s * s + 4 * s) * W by { InStepTimesS(m, s, r); }
    ScaledBounds(m, d, s * r, 1);
    assert m * (d + 1) == m * d + m * 1;
  }

  // 4*Q^3, and what d within 2^-14 of one can take from it: the product d*u*u with u = 3 - d.
  const CUBE: nat := 4 * Q * Q * Q
  const LOSS: nat := (0x1_0000 * 0x1_0000) * (3 * Q + 0x1_0000)
  const USQ: nat := (2 * Q + 0x1_0000) * (2 * Q + 0x1_0000)

  lemma Spread(u2: int, m: int, d: int, k: int)
    ensures u2 * (m * d + k) == m * (u2 * d) + k * u2
  {
    Assoc(u2, m, d);
    Assoc(m, u2, d);
  }

  // If x ~ m*d and u2*d ~ cube then x*u2 ~ m*cube.
  lemma ProductBounds(m: nat, d: nat, x: nat, u2: nat, lo: nat, up: nat, cube: nat, loss: nat, usq: nat)
    requires m * d - lo <= x <= m * d + up
    requires cube - loss <= u2 * d <= cube && u2 <= usq
    ensures x * u2 <= m * cube + up * usq
    ensures m * (cube - loss) <= x * u2 + lo * usq
  {
    calc {
      x * u2;
    <=  { MulMono(u2, x, m * d + up); }
      u2 * (m * d + up);
    ==  { Spread(u2, m, d, up); }
      m * (u2 * d) + up * u2;
    <=  { MulMono(m, u2 * d, cube); MulMono(up, u2, usq); }
      m * cube + up * usq;
    }
    calc {
      m * (cube - loss);
    <=  { MulMono(m, cube - loss, u2 * d); }
      m * (u2 * d);
    ==  { Spread(u2, m, d, -(lo as int)); }
      u2 * (m * d - lo) + lo * u2;
    <=  { MulMono(u2, m * d - lo, x); MulMono(lo, u2, usq); }
      x * u2 + lo * usq;
    }
  }

  lemma FirstStepNoWrap(m: nat, t: nat, s0: nat, d0: nat, u0: nat, rr: nat, ss: nat)
    requires GoodSeed(m, t)
    requires s0 < 0xc000_0000 && -0x80_0002 <= d0 - Q && t * t * m / W <= d0 + 2
    requires u0 == THREE - d0
    requires rr * W <= t * 0x1_0000 * u0 && ss * W <= s0 * u0
    ensures rr < 0x8000_0000 && ss < 0x8000_0000
  {
    MulMono(t * t, Q, m);
    assert t * t / 4 <= t * t * m / W by { assert t * t * Q / W == t * t / 4; }
    MulMono(t * 0x1_0000, u0, THREE + 2 - t * t / 4);
    assert t * 0x1_0000 * (THREE + 2 - t * t / 4) == (t * (THREE + 2 - t * t / 4)) * 0x1_0000 by {
      Swap(t, 0x1_0000, THREE + 2 - t * t / 4);
    }
    MulBounds(s0, u0, 0xbfff_ffff, 0x8080_0002);
  }

  /** The first, 32-bit, step of both kernels: no shift wraps. */
  lemma FirstStepFits(m: nat, t: nat, s0: nat, d0: nat, u0: int)
    requires GoodSeed(m, t)
    requires s0 == Mul32(m, t * 0x1_0000) && d0 == Mul32(s0, t * 0x1_0000) && u0 == THREE - d0
    ensures 0 <= u0 < W
    ensures 2 * Mul32(t * 0x1_0000, u0) < W && 2 * Mul32(s0, u0) < W
  {
    SeedStep(m, t, s0, d0);
    Mul32Truncates(t * 0x1_0000, u0);
    Mul32Truncates(s0, u0);
    FirstStepNoWrap(m, t, s0, d0, u0, Mul32(t * 0x1_0000, u0), Mul32(s0, u0));
  }

  /** After the first step the pair is in step, and d is 1 to within 2^-14. */
  lemma FirstStep(m: nat, t: nat, s0: nat, d0: nat, u0: nat, r1: nat, s1: nat)
    requires GoodSeed(m, t)
    requires s0 == Mul32(m, t * 0x1_0000) && d0 == Mul32(s0, t * 0x1_0000) && u0 == THREE - d0 < W
    requires r1 == 2 * Mul32(t * 0x1_0000, u0) < W && s1 == 2 * Mul32(s0, u0) < W
    ensures InStep(m, s1, r1)
    ensures -0x1_0000 <= Mul32(s1, r1) - Q <= 2
  {
    SeedStep(m, t, s0, d0);
    Mul32Truncates(t * 0x1_0000, u0);
    Mul32Truncates(s0, u0);
    Mul32Truncates(m, t * 0x1_0000);
    Mul32Truncates(s0, t * 0x1_0000);
    Mul32Truncates(s1, r1);
    StepKeepsInStep(m, t * 0x1_0000, s0, u0, r1, s1);
    StepConverges(t * 0x1_0000, s0, d0, u0, r1, s1, Mul32(s1, r1));
  }
}
