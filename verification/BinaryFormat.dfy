// IEEE 754 binary interchange formats, as integers, and what a correctly rounded
// square root is (IEEE 754-2019 sections 3.4, 4.3.1 and 5.4.1).
//
// Every finite number of a format is an integer multiple of its smallest subnormal,
// 2^-Unit(). Scaled() is that multiple, so statements about rounding need no rationals.
module BinaryFormat {
  import opened Arith

  function Pow2(n: nat): (r: nat)
    ensures 0 < r
  {
    if n == 0 then 1 else 2 * Pow2(n - 1)
  }

  lemma {:induction false} Pow2Add(a: nat, b: nat)
    ensures Pow2(a + b) == Pow2(a) * Pow2(b)
    decreases b
  {
    if b == 0 {
    } else {
      Pow2Add(a, b - 1);
      assert a + b - 1 == a + (b - 1);
      assert Pow2(a) * (2 * Pow2(b - 1)) == 2 * (Pow2(a) * Pow2(b - 1));
    }
  }

  lemma SinglePowers()
    ensures Pow2(23) == 0x80_0000 && Pow2(24) == 0x100_0000
  {
    assert Pow2(5) == 32 && Pow2(6) == 64;
    Pow2Add(6, 5);
    Pow2Add(6, 6);
    Pow2Add(11, 12);
  }

  lemma DoublePowers()
    ensures Pow2(52) == 0x10_0000_0000_0000 && Pow2(53) == 0x20_0000_0000_0000
  {
    SinglePowers();
    assert Pow2(4) == 16;
    Pow2Add(24, 24);
    Pow2Add(48, 4);
  }

  lemma Pow2Mono(a: nat, b: nat)
    requires a <= b
    ensures Pow2(a) <= Pow2(b)
  {
    Pow2Add(a, b - a);
    MulMono(Pow2(a), 1, Pow2(b - a));
  }

  /** p fraction bits; exponent fields run from 0 to 2*bias, and 2*bias+1 encodes infinities and NaNs. */
  datatype Format = Format(p: nat, bias: nat) {
    function Unit(): int { bias + p - 1 }

    predicate Finite(exp: int, frac: int) {
      0 <= exp <= 2 * bias && 0 <= frac < Pow2(p)
    }

    /** The value of the number with these fields, in units of 2^-Unit(). */
    function Scaled(exp: nat, frac: nat): nat {
      if exp == 0 then frac else (Pow2(p) + frac) * Pow2(exp - 1)
    }
  }

  const SINGLE := Format(23, 127)
  const DOUBLE := Format(52, 1023)

  predicate Separated(radicand: nat, y: nat, z: nat) {
    && (z < y ==> (y + z) * (y + z) < 4 * radicand)
    && (y < z ==> 4 * radicand < (y + z) * (y + z))
  }

  ghost predicate SeparatedFromAll(f: Format, radicand: nat, y: nat) {
    forall exp: nat, frac: nat | f.Finite(exp, frac) :: Separated(radicand, y, f.Scaled(exp, frac))
  }

  /**
   * y is the finite number of the format nearest to the square root of x, with no tie:
   * the midpoint between y and any other finite number z lies strictly on z's side of sqrt(x).
   * In units of 2^-Unit(), (y + z)/2 < sqrt(x) is (Y + Z)^2 < 4 * X * 2^Unit().
   */
  ghost predicate NearestSqrt(f: Format, x: nat, y: nat)
    requires 0 <= f.Unit()
  {
    SeparatedFromAll(f, x * Pow2(f.Unit()), y)
  }

  /** s is the integer nearest to the square root of m. */
  predicate NearestInt(m: nat, s: nat) {
    && (0 < s ==> (2 * s - 1) * (2 * s - 1) < 4 * m)
    && 4 * m < (2 * s + 1) * (2 * s + 1)
  }

  // A number with an exponent of at least e is a multiple of 2^(e-1).
  lemma Multiple(f: Format, e: nat, exp: nat, frac: nat) returns (k: nat)
    requires 1 <= e <= exp && f.Finite(exp, frac)
    ensures f.Scaled(exp, frac) == k * Pow2(e - 1)
  {
    Pow2Add(e - 1, exp - e);
    k := (Pow2(f.p) + frac) * Pow2(exp - e);
    assert exp - 1 == (e - 1) + (exp - e);
    Swap(Pow2(f.p) + frac, Pow2(e - 1), Pow2(exp - e));
  }

  // A number with an exponent below e lies below 2^p * 2^(e-1).
  lemma SmallExponent(f: Format, e: nat, exp: nat, frac: nat)
    requires exp < e && f.Finite(exp, frac)
    ensures f.Scaled(exp, frac) < Pow2(f.p) * Pow2(e - 1)
  {
    var b := Pow2(f.p);
    if exp == 0 {
      MulMono(b, 1, Pow2(e - 1));
    } else {
      Pow2Mono(exp, e - 1);
      MulStrict(Pow2(exp - 1), b + frac, 2 * b);
      Assoc(b, 2, Pow2(exp - 1));
      MulMono(b, Pow2(exp), Pow2(e - 1));
    }
  }

  lemma MultiplesApart(k: nat, s: nat, g: nat)
    ensures k < s ==> k * g <= (s - 1) * g
    ensures k <= s ==> k * g <= s * g
    ensures s < k ==> (s + 1) * g <= k * g
  {
    if k < s { MulMono(g, k, s - 1); }
    if k <= s { MulMono(g, k, s); }
    if s < k { MulMono(g, s + 1, k); }
  }

  // The nearest numbers below and above s * 2^(e-1).
  lemma Neighbours(f: Format, s: nat, e: nat, exp: nat, frac: nat)
    requires Pow2(f.p) <= s < 2 * Pow2(f.p) && 1 <= e
    requires f.Finite(exp, frac)
    ensures f.Scaled(exp, frac) < s * Pow2(e - 1) && Pow2(f.p) < s ==> f.Scaled(exp, frac) <= (s - 1) * Pow2(e - 1)
    ensures s * Pow2(e - 1) < f.Scaled(exp, frac) ==> (s + 1) * Pow2(e - 1) <= f.Scaled(exp, frac)
  {
    if e <= exp {
      var k := Multiple(f, e, exp, frac);
      MultiplesApart(k, s, Pow2(e - 1));
    } else {
      SmallExponent(f, e, exp, frac);
      MultiplesApart(Pow2(f.p), s, Pow2(e - 1));
    }
  }

  lemma BelowMidpoint(w: nat, k: nat, g: nat, m4: nat)
    requires w <= k * g && k * k < m4 && 0 < g
    ensures w * w < m4 * (g * g)
  {
    SquareMono(w, k * g);
    assert (k * g) * (k * g) == (k * k) * (g * g);
    MulStrict(g * g, k * k, m4);
  }

  lemma AboveMidpoint(w: nat, k: nat, g: nat, m4: nat)
    requires k * g <= w && m4 < k * k && 0 < g
    ensures m4 * (g * g) < w * w
  {
    SquareMono(k * g, w);
    assert (k * g) * (k * g) == (k * k) * (g * g);
    MulStrict(g * g, m4, k * k);
  }

  lemma BelowPower(y: nat, z: nat, s: nat, g: nat, m: nat)
    requires z < y == s * g && s * s <= m && 0 < g
    ensures (y + z) * (y + z) < 4 * (m * (g * g))
  {
    assert (y + z) * (y + z) < (2 * y) * (2 * y) by {
      SquareMono(y + z, 2 * y - 1);
      MulStrict(2 * y, 2 * y - 1, 2 * y);
      MulMono(2 * y - 1, 2 * y - 1, 2 * y);
    }
    assert (2 * y) * (2 * y) == 4 * ((s * s) * (g * g));
    MulMono(g * g, s * s, m);
  }

  // r and y are m and s at scale g.
  lemma SeparatedAtScale(r: nat, y: nat, m: nat, s: nat, g: nat, z: nat, b: nat)
    requires r == m * (g * g) && y == s * g && 0 < g
    requires NearestInt(m, s) && b * b <= m && 0 < b <= s
    requires z < y && b < s ==> z <= (s - 1) * g
    requires y < z ==> (s + 1) * g <= z
    ensures Separated(r, y, z)
  {
    Assoc(4, m, g * g);
    if z < y {
      if b < s {
        assert y + z <= (2 * s - 1) * g by { Distribute(s, s - 1, g); }
        BelowMidpoint(y + z, 2 * s - 1, g, 4 * m);
      } else {
        BelowPower(y, z, s, g, m);
      }
    } else if y < z {
      assert (2 * s + 1) * g <= y + z by { Distribute(s, s + 1, g); }
      AboveMidpoint(y + z, 2 * s + 1, g, 4 * m);
    }
  }

  lemma SeparatedByNeighbours(f: Format, r: nat, m: nat, s: nat, e: nat, y: nat)
    requires 1 <= e && Pow2(f.p) <= s < 2 * Pow2(f.p)
    requires NearestInt(m, s) && Pow2(f.p) * Pow2(f.p) <= m
    requires r == m * (Pow2(e - 1) * Pow2(e - 1)) && y == s * Pow2(e - 1)
    ensures SeparatedFromAll(f, r, y)
  {
    forall exp: nat, frac: nat | f.Finite(exp, frac) ensures Separated(r, y, f.Scaled(exp, frac)) {
      Neighbours(f, s, e, exp, frac);
      SeparatedAtScale(r, y, m, s, Pow2(e - 1), f.Scaled(exp, frac), Pow2(f.p));
    }
  }

  /** From the integer square root of the significand to the correctly rounded square root of the number. */
  lemma NearestIntIsNearestSqrt(f: Format, x: nat, m: nat, s: nat, e: nat)
    requires 0 <= f.Unit() && 1 <= e
    requires Pow2(f.p) <= s < 2 * Pow2(f.p)
    requires NearestInt(m, s) && Pow2(f.p) * Pow2(f.p) <= m
    requires x * Pow2(f.Unit()) == m * (Pow2(e - 1) * Pow2(e - 1))
    ensures NearestSqrt(f, x, s * Pow2(e - 1))
  {
    SeparatedByNeighbours(f, x * Pow2(f.Unit()), m, s, e, s * Pow2(e - 1));
  }

  /**
   * x * 2^p for a subnormal x with fraction frac: the fields of the normal product. The product
   * is exact, so these are the bits the multiplication by 0x1p23f or 0x1p52 returns.
   */
  function Normalize(p: nat, frac: nat, exp: nat): (r: (nat, nat))
    requires 0 < frac < 2 * Pow2(p) && 1 <= exp
    requires Pow2(p) <= frac * Pow2(exp - 1)
    ensures 1 <= r.0 <= exp && r.1 < Pow2(p)
    ensures (Pow2(p) + r.1) * Pow2(r.0 - 1) == frac * Pow2(exp - 1)
    decreases exp
  {
    if Pow2(p) <= frac then
      (exp, frac - Pow2(p))
    else
      assert 1 < exp;
      assert frac * Pow2(exp - 1) == (2 * frac) * Pow2(exp - 2) by { Swap(frac, 2, Pow2(exp - 2)); }
      Normalize(p, 2 * frac, exp - 1)
  }

  lemma CancelPower(x: nat, c: nat, u: nat, sig: nat, w: nat, n: nat)
    requires 0 < c && x * c == sig * w && w * u == n * c
    ensures x * u == sig * n
  {
    assert (x * u) * c == (x * c) * u;
    assert (sig * w) * u == sig * (w * u);
    assert sig * (n * c) == (sig * n) * c;
    Cancel(x * u, sig * n, c);
  }

  /** The exponent and significand the kernels compute put the radicand where NearestIntIsNearestSqrt wants it. */
  lemma HalfExponent(f: Format, x: nat, sig: nat, v: int, c: nat, e: nat, m: nat)
    requires 0 <= f.Unit() && 1 <= e
    requires 1 <= v + c && 0 <= v - 1 + f.Unit()
    requires x * Pow2(c) == sig * Pow2(v - 1 + c)
    requires v % 2 == 1 ==> 2 * e == v + f.bias && m == sig * Pow2(f.p)
    requires v % 2 == 0 ==> 2 * e == v + f.bias - 1 && m == sig * Pow2(f.p + 1)
    ensures x * Pow2(f.Unit()) == m * (Pow2(e - 1) * Pow2(e - 1))
  {
    var n := v - 1 + f.Unit();
    Pow2Add(e - 1, e - 1);
    var q := if v % 2 == 1 then f.p else f.p + 1;
    assert q + 2 * (e - 1) == n;
    Pow2Add(q, 2 * (e - 1));
    assert m * (Pow2(e - 1) * Pow2(e - 1)) == sig * Pow2(n) by {
      Assoc(sig, Pow2(q), Pow2(2 * (e - 1)));
    }
    // x * 2^c * 2^Unit == sig * 2^(v-1+c) * 2^Unit == sig * 2^n * 2^c
    Pow2Add(v - 1 + c, f.Unit());
    Pow2Add(n, c);
    assert v - 1 + c + f.Unit() == n + c;
    CancelPower(x, Pow2(c), Pow2(f.Unit()), sig, Pow2(v - 1 + c), Pow2(n));
  }
}
