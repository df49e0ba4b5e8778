// The single-precision square root of sqrtf.c: 32-bit integer arithmetic from the bits of
// the argument to the bits of the result.
module Sqrtf {
  import opened Arith
  import opened FixedPoint
  import opened RsqrtTable
  import opened BinaryFormat
  import opened Rounding

  /** s2 ~ sqrt(m) in format 3.29, as two comparisons of integers. */
  predicate Close(m: nat, s2: nat) {
    && 0x1000_0000 <= s2
    && (s2 - 33) * (s2 - 33) <= m * 0x1000_0000 <= (s2 + 32) * (s2 + 32)
  }

  // The square of s*u, where u = 3 - d corrects s: 4*Q^3*m up to the square of the residue and the truncations.
  lemma SquareApprox(m: nat, s: nat, r: nat, d: nat, u: nat)
    requires InStep(m, s, r) && 2 <= s
    requires d * W <= s * r < (d + 1) * W
    requires -0x1_0000 <= d - Q <= 2 && u == THREE - d
    ensures (s * u) * (s * u) <= m * CUBE + (m + 2 * s) * USQ
    ensures m * (CUBE - LOSS) <= (s * u) * (s * u) + (4 * s) * USQ
  {
    SquareInStep(m, s, r, d);
    CubicBounds(Q, d - Q, 0x1_0000, u);
    Scale(s, s, u);
    assert m * (d + 1) + 2 * s == m * d + (m + 2 * s);
    ProductBounds(m, d, s * s, u * u, 4 * s, m + 2 * s, CUBE, LOSS, USQ);
  }

  lemma Squares(s: int)
    ensures (s + 1) * (s + 1) == s * s + 2 * s + 1
    ensures (s - 33) * (s - 33) == s * s - 66 * s + 1089
    ensures (s + 32) * (s + 32) == s * s + 64 * s + 1024
  {
  }

  lemma CloseLinear(m: nat, s: nat, su2: nat, t: nat, t2: nat, t12: nat)
    requires Q <= m < W && s < W
    requires t2 == t * t && t12 == (t + 1) * (t + 1)
    requires su2 <= m * CUBE + (m + 2 * s) * USQ
    requires m * (CUBE - LOSS) <= su2 + (4 * s) * USQ
    requires t2 * (W * W) <= su2 <= t12 * (W * W)
    ensures Close(m, t)
  {
    assert t2 <= m * 0x1000_0000 + W;
    assert m * 0x1000_0000 <= t12 + 2 * W;
    if t < 0x1000_0000 {
      SquareMono(t + 1, 0x1000_0000);
    }
    Squares(t);
  }

  lemma LastStep(m: nat, s: nat, r: nat, d: nat, u: nat, s2: nat)
    requires Q <= m < W && InStep(m, s, r) && r < W && s < W
    requires d * W <= s * r < (d + 1) * W
    requires -0x1_0000 <= d - Q <= 2 && u == THREE - d
    requires s2 * W <= s * u < (s2 + 1) * W
    ensures Close(m, s2)
  {
    assert d <= s by {
      if s < d { MulBounds(s, r, d - 1, W); }
    }
    SquareApprox(m, s, r, d, u);
    assert (s2 * s2) * (W * W) <= (s * u) * (s * u) by {
      SquareMono(s2 * W, s * u);
      Scale(s2, s2, W);
    }
    assert (s * u) * (s * u) <= ((s2 + 1) * (s2 + 1)) * (W * W) by {
      SquareMono(s * u, (s2 + 1) * W);
      Scale(s2 + 1, s2 + 1, W);
    }
    CloseLinear(m, s, (s * u) * (s * u), s2, s2 * s2, (s2 + 1) * (s2 + 1));
  }

  // From format 3.29 to the 24-bit result: (s2 - 1) >> 6 is within [-1/2, 3/2] of the root.
  lemma ShiftedIsClose(m: nat, s2: nat)
    requires Close(m, s2)
    ensures var s := (s2 - 1) / 64;
      0 < s && (2 * s - 1) * (2 * s - 1) <= 4 * (m * 0x1_0000) <= (2 * s + 3) * (2 * s + 3)
  {
    var s := (s2 - 1) / 64;
    SquareMono(32 * (2 * s - 1), s2 - 33);
    Scale(2 * s - 1, 2 * s - 1, 32);
    SquareMono(s2 + 32, 32 * (2 * s + 3));
    Scale(2 * s + 3, 2 * s + 3, 32);
  }

  /** What `ix` holds after range reduction: the fields of a number sig * 2^(v-150), v possibly negative. */
  predicate Reduced(ix: nat, v: int, frac: nat) {
    ix < W && frac < 0x80_0000 && -22 <= v <= 254 && ix == (v * 0x80_0000 + frac) % W
  }

  lemma Unwrap(ix: nat, v: int, u: nat, frac: nat)
    requires Reduced(ix, v, frac) && u == if v < 0 then v + 512 else v
    ensures ix == u * 0x80_0000 + frac && u == 2 * (u / 2) + v % 2
  {
    ModUnique(v * 0x80_0000 + frac, if v < 0 then -1 else 0, u * 0x80_0000 + frac, W);
  }

  lemma Parity(ix: nat, k: nat, b: nat, frac: nat)
    requires ix == (2 * k + b) * 0x80_0000 + frac && b < 2 && frac < 0x80_0000
    ensures ix / 0x80_0000 % 2 == b
  {
    ModUnique(ix, 2 * k + b, frac, 0x80_0000);
  }

  lemma ShiftedByEight(ix: nat, k: nat, b: nat, frac: nat)
    requires ix == (2 * k + b) * 0x80_0000 + frac && b < 2 && frac < 0x80_0000
    ensures (ix * 0x100) % W % 0x8000_0000 + 0x8000_0000 == (0x80_0000 + frac) * 0x100
  {
    var f := b * 0x80_0000 + frac;
    ModUnique(ix * 0x100, k, f * 0x100, W);
    ModUnique(f * 0x100, b, frac * 0x100, 0x8000_0000);
  }

  lemma ShiftedBySeven(ix: nat, k: nat, b: nat, frac: nat)
    requires ix == (2 * k + b) * 0x80_0000 + frac && b < 2 && frac < 0x80_0000
    ensures b == 1 ==> (ix * 0x80) % W % 0x8000_0000 == (0x80_0000 + frac) * 0x80
  {
    var f, l := b * 0x80_0000 + frac, k % 2;
    ModUnique(ix * 0x80, k / 2, (l * 0x100_0000 + f) * 0x80, W);
    ModUnique((l * 0x100_0000 + f) * 0x80, l, f * 0x80, 0x8000_0000);
  }

  lemma RowField(ix: nat, k: nat, b: nat, frac: nat)
    requires ix == (2 * k + b) * 0x80_0000 + frac && b < 2 && frac < 0x80_0000
    ensures ix / 0x2_0000 % 128 == b * 64 + frac / 0x2_0000
  {
    ModUnique(ix, k * 128 + b * 64 + frac / 0x2_0000, frac % 0x2_0000, 0x2_0000);
  }

  lemma LowFields(ix: nat, k: nat, b: nat, frac: nat)
    requires ix == (2 * k + b) * 0x80_0000 + frac && b < 2 && frac < 0x80_0000
    ensures ix / 0x80_0000 % 2 == b
    ensures (ix * 0x100) % W % 0x8000_0000 + 0x8000_0000 == (0x80_0000 + frac) * 0x100
    ensures b == 1 ==> (ix * 0x80) % W % 0x8000_0000 == (0x80_0000 + frac) * 0x80
    ensures ix / 0x2_0000 % 128 == b * 64 + frac / 0x2_0000
  {
    Parity(ix, k, b, frac);
    ShiftedByEight(ix, k, b, frac);
    ShiftedBySeven(ix, k, b, frac);
    RowField(ix, k, b, frac);
  }

  lemma HighField(ix: nat, v: int, k: nat, b: nat, frac: nat)
    requires -22 <= v <= 254 && b < 2 && frac < 0x80_0000
    requires 2 * k + b == (if v < 0 then v + 512 else v)
    requires ix == (2 * k + b) * 0x80_0000 + frac
    ensures (ix / 2 + 0x1fc0_0000) % W % 0x8000_0000 / 0x80_0000 == (v + 127) / 2
  {
    var h := b * 0x40_0000 + frac / 2;
    assert ix / 2 == k * 0x80_0000 + h;
    var y := ix / 2 + 0x1fc0_0000;
    var e := (v + 127) / 2;
    assert (if v < 0 then k - 256 else k) == v / 2;
    var rest := y - (if v < 0 then 0x8000_0000 else 0) - e * 0x80_0000;
    assert 0 <= rest < 0x80_0000;
    ModUnique(y, 0, y, W);
    ModUnique(y, if v < 0 then 1 else 0, e * 0x80_0000 + rest, 0x8000_0000);
    ModUnique(e * 0x80_0000 + rest, e, rest, 0x80_0000);
  }

  // The bit fields the kernel extracts from ix.
  lemma Fields(ix: nat, v: int, frac: nat)
    requires Reduced(ix, v, frac)
    ensures ix / 0x80_0000 % 2 == v % 2
    ensures (ix * 0x100) % W % 0x8000_0000 + 0x8000_0000 == (0x80_0000 + frac) * 0x100
    ensures v % 2 == 1 ==> (ix * 0x80) % W % 0x8000_0000 == (0x80_0000 + frac) * 0x80
    ensures ix / 0x2_0000 % 128 == (v % 2) * 64 + frac / 0x2_0000
    ensures (ix / 2 + 0x1fc0_0000) % W % 0x8000_0000 / 0x80_0000 == (v + 127) / 2
  {
    var u := if v < 0 then v + 512 else v;
    Unwrap(ix, v, u, frac);
    LowFields(ix, u / 2, v % 2, frac);
    HighField(ix, v, u / 2, v % 2, frac);
  }

  /** The row of the table an exponent parity and a fraction select. */
  lemma RowOfField(frac: nat, odd: bool, m: nat, i: nat)
    requires frac < 0x80_0000
    requires m == (0x80_0000 + frac) * (if odd then 0x80 else 0x100)
    requires i == (if odd then 64 else 0) + frac / 0x2_0000
    ensures i < 128 && RowStart(i) <= m < RowStart(i) + RowWidth(i)
  {
  }

  datatype Root = Bits(bits: nat) | Invalid

  /** asuint(x * 0x1p23f) for a subnormal x. */
  function ScaleSubnormal(ix: nat): (r: nat)
    requires 0 < ix < 0x80_0000
  {
    SinglePowers();
    MulMono(Pow2(23), 1, ix);
    var fields := Normalize(23, ix, 24);
    fields.0 * 0x80_0000 + fields.1
  }

  function Value(bits: nat): nat {
    SINGLE.Scaled(bits / 0x80_0000, bits % 0x80_0000)
  }

  /** A finite result that is the correctly rounded (to nearest) square root of the number with bits x. */
  ghost predicate IsRootOf(x: nat, y: nat) {
    && 0x80_0000 <= y < 0x7f80_0000
    && NearestSqrt(SINGLE, Value(x), Value(y))
  }

  predicate ScaledTo(x: nat, v: int, frac: nat) {
    -22 <= v && Value(x) * Pow2(23) == (0x80_0000 + frac) * Pow2(v - 1 + 23)
  }

  /** ix holds the (possibly wrapped) fields of the number x: x = sig * 2^(v-150) in units of 2^-149. */
  ghost predicate Encodes(ix: nat, x: nat) {
    exists v: int, frac: nat :: Reduced(ix, v, frac) && ScaledTo(x, v, frac)
  }

  lemma NormalEncodes(x: nat)
    requires 0x80_0000 <= x < 0x7f80_0000
    ensures Encodes(x, x)
  {
    SinglePowers();
    var v, frac := x / 0x80_0000, x % 0x80_0000;
    Pow2Add(v - 1, 23);
    Assoc(0x80_0000 + frac, Pow2(v - 1), Pow2(23));
    assert Reduced(x, v, frac) && ScaledTo(x, v, frac);
  }

  lemma SubnormalValue(x: nat)
    requires x < 0x80_0000
    ensures Value(x) == x
  {
    ModUnique(x, 0, x, 0x80_0000);
  }

  lemma SubnormalEncodes(x: nat, ix: nat)
    requires 0 < x < 0x80_0000 && ix == (ScaleSubnormal(x) - 23 * 0x80_0000) % W
    ensures Encodes(ix, x)
  {
    SinglePowers();
    MulMono(Pow2(23), 1, x);
    SubnormalValue(x);
    var fields := Normalize(23, x, 24);
    var v, frac := fields.0 - 23, fields.1;
    assert Reduced(ix, v, frac) && ScaledTo(x, v, frac);
  }

  lemma RootAtScale(x: nat, v: int, frac: nat, m: nat, s: nat, e: nat)
    requires -22 <= v <= 254 && frac < 0x80_0000 && ScaledTo(x, v, frac) && e == (v + 127) / 2
    requires m == (0x80_0000 + frac) * (if v % 2 == 1 then 0x80 else 0x100)
    requires NearestInt(m * 0x1_0000, s) && 0x80_0000 <= s < 0x100_0000
    ensures NearestSqrt(SINGLE, Value(x), s * Pow2(e - 1))
  {
    SinglePowers();
    HalfExponent(SINGLE, Value(x), 0x80_0000 + frac, v, 23, e, m * 0x1_0000);
    NearestIntIsNearestSqrt(SINGLE, Value(x), m * 0x1_0000, s, e);
  }

  // The tail of the method: from the shifted root to the correctly rounded result.
  lemma Assemble(x: nat, v: int, frac: nat, m: nat, s: nat, y: nat)
    requires v <= 254 && frac < 0x80_0000 && ScaledTo(x, v, frac)
    requires m == (0x80_0000 + frac) * (if v % 2 == 1 then 0x80 else 0x100)
    requires NearestInt(m * 0x1_0000, s)
    requires y == s % 0x80_0000 + (v + 127) / 2 * 0x80_0000
    ensures IsRootOf(x, y)
  {
    SinglePowers();
    var e := (v + 127) / 2;
    SignificandRange(m * 0x1_0000, s, 0x80_0000);
    ModUnique(s, 1, s - 0x80_0000, 0x80_0000);
    ModUnique(y, e, s - 0x80_0000, 0x80_0000);
    RootAtScale(x, v, frac, m, s, e);
  }

  method Finish(m: nat, s1: nat, r: nat, d: nat) returns (s: nat)
    requires Q <= m < W && r < W && s1 < W && InStep(m, s1, r)
    requires d == Mul32(s1, r) && -0x1_0000 <= d - Q <= 2
    ensures 0 < s < 0x3fff_ffff
    ensures (2 * s - 1) * (2 * s - 1) <= 4 * (m * 0x1_0000) <= (2 * s + 3) * (2 * s + 3)
  {
    var u := THREE - d;
    s := Mul32(s1, u);
    Mul32Truncates(s1, u);
    Mul32Truncates(s1, r);
    LastStep(m, s1, r, d, u, s);
    ShiftedIsClose(m, s);
    s := (s - 1) / 64;
  }

  /** Two Goldschmidt iterations, then the shift from format 3.29 to a 24-bit root within [-1/2, 3/2] of the exact one. */
  method Approximate(m: nat, t: nat) returns (s: nat)
    requires GoodSeed(m, t)
    ensures 0 < s < 0x3fff_ffff
    ensures (2 * s - 1) * (2 * s - 1) <= 4 * (m * 0x1_0000) <= (2 * s + 3) * (2 * s + 3)
  {
    var r := t * 0x1_0000;
    s := Mul32(m, r);
    var d := Mul32(s, r);
    FirstStepFits(m, t, s, d, THREE - d);
    var u := THREE - d;
    ghost var r1, s1 := 2 * Mul32(r, u), 2 * Mul32(s, u);
    FirstStep(m, t, s, d, u, r1, s1);
    r := Mul32(r, u) * 2 % W;
    s := Mul32(s, u) * 2 % W;
    assert r == r1 && s == s1 by { ModUnique(r1, 0, r1, W); ModUnique(s1, 0, s1, W); }
    d := Mul32(s, r);
    s := Finish(m, s, r, d);
  }

  /** Compute the nearest rounded result. */
  method Round(m: nat, s0: nat) returns (s: nat)
    requires 0 < s0 < 0x3fff_ffff
    requires (2 * s0 - 1) * (2 * s0 - 1) <= 4 * (m * 0x1_0000) <= (2 * s0 + 3) * (2 * s0 + 3)
    ensures NearestInt(m * 0x1_0000, s)
  {
    s := s0;
    var d0 := (m * 0x1_0000 % W - s * s % W) % W;
    var d1 := (s - d0) % W;
    PickNearest(m * 0x1_0000, s, 0x8000_0000, d0, d1);
    s := s + d1 / 0x8000_0000;
  }

  method Significand(m: nat, i: nat) returns (s: nat)
    requires i < 128 && RowStart(i) <= m < RowStart(i) + RowWidth(i)
    ensures NearestInt(m * 0x1_0000, s)
  {
    SeedIsGood(i, m);
    s := Approximate(m, RsqrtTab(i));
    s := Round(m, s);
  }

  method RootOfReduced(ix: nat, ghost x: nat) returns (root: Root)
    requires Encodes(ix, x)
    ensures root.Bits? && IsRootOf(x, root.bits)
  {
    ghost var v: int, frac: nat :| Reduced(ix, v, frac) && ScaledTo(x, v, frac);
    Fields(ix, v, frac);
    // A power of four times a radicand of at least one and below four.
    var even := ix / 0x80_0000 % 2;
    var m1 := (ix * 0x100) % W % 0x8000_0000 + 0x8000_0000;
    var m0 := (ix * 0x80) % W % 0x8000_0000;
    var m := if even != 0 then m0 else m1;

    // Half the exponent, biased anew.
    var ey := (ix / 2 + 0x1fc0_0000) % W % 0x8000_0000 / 0x80_0000 * 0x80_0000;

    // From the table, two steps of the iteration and the shift.
    var i := ix / 0x2_0000 % 128;
    RowOfField(frac, even != 0, m, i);
    var s := Significand(m, i);
    var y := s % 0x80_0000 + ey;
    Assemble(x, v, frac, m, s, y);
    root := Bits(y);
  }

  /**
   * The integer kernel. Every intermediate is the word the C code computes: subtractions wrap,
   * `<< 1` keeps 32 bits, `s*s` and `m << 16` are reduced modulo 2^32.
   */
  method Sqrtf(x: nat) returns (root: Root)
    requires x < W
    ensures x * 2 % W == 0 ==> root == Bits(x)
    ensures x == 0x7f80_0000 ==> root == Bits(x)
    ensures 0x7f80_0000 < x && x * 2 % W != 0 ==> root == Invalid
    ensures 0 < x < 0x7f80_0000 ==> root.Bits? && IsRootOf(x, root.bits)
  {
    var ix := x;
    if (ix - 0x80_0000) % W >= 0x7f80_0000 - 0x80_0000 {
      // Everything but the positive normal numbers.
      if ix * 2 % W == 0 { return Bits(x); }
      if ix == 0x7f80_0000 { return Bits(x); }
      if ix > 0x7f80_0000 { return Invalid; }
      // Scaled by 2^23 a subnormal number is normal.
      ix := ScaleSubnormal(ix);
      ix := (ix - 23 * 0x80_0000) % W;
      SubnormalEncodes(x, ix);
    } else {
      NormalEncodes(x);
    }
    root := RootOfReduced(ix, x);
  }
}
