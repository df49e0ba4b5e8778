// The double-precision square root of sqrt.c: two steps in 32-bit words, a last one in
// 64-bit words.
module Sqrt {
  import opened Arith
  import opened FixedPoint
  import opened RsqrtTable
  import opened BinaryFormat
  import opened Rounding

  const W64: nat := 0x1_0000_0000_0000_0000
  const K: nat := 0x4000_0000_0000_0000

  function Mul64(a: nat, b: nat): (r: nat)
    requires a < W64 && b < W64
  {
    (a / W) * (b / W) + (a / W) * (b % W) / W + (a % W) * (b / W) / W
  }

  lemma PartialProducts(ah: nat, al: nat, bh: nat, bl: nat)
    requires ah < W && al < W && bh < W && bl < W
    ensures var r := ah * bh + ah * bl / W + al * bh / W;
      r * W64 <= (ah * W + al) * (bh * W + bl) < (r + 3) * W64
  {
    assert (ah * W + al) * (bh * W + bl) == (ah * bh) * W64 + (ah * bl) * W + (al * bh) * W + al * bl;
    MulBounds(al, bl, W - 1, W - 1);
  }

  /** The high half of a 128-bit product without its lowest partial product: short by less than 3, and it fits a word. */
  lemma Mul64Truncates(a: nat, b: nat)
    requires a < W64 && b < W64
    ensures Mul64(a, b) * W64 <= a * b < (Mul64(a, b) + 3) * W64
    ensures Mul64(a, b) < W64
  {
    PartialProducts(a / W, a % W, b / W, b % W);
    MulBounds(a, b, W64 - 1, W64 - 1);
  }

  lemma HighProduct(ah: nat, al: nat, b: nat)
    requires b < W
    ensures var r := ah * b + ah * 0 / W + al * b / W;
      r * W <= (ah * W + al) * b < (r + 1) * W && r <= ah * W + al
  {
    assert (ah * W + al) * b == (ah * b) * W + al * b;
    MulMono(ah * W + al, b, W);
  }

  /** With the low half of b zero, only one partial product is truncated. */
  lemma Mul64High(a: nat, b: nat)
    requires a < W64 && b < W
    ensures b * W < W64
    ensures Mul64(a, b * W) * W <= a * b < (Mul64(a, b * W) + 1) * W
    ensures Mul64(a, b * W) <= a
  {
    ModUnique(b * W, b, 0, W);
    HighProduct(a / W, a % W, b);
  }

  // r1*r1*mh against d1, from the pair being in step.
  lemma SquareOfR(mh: nat, s: nat, r: nat, d: nat)
    requires InStep(mh, s, r) && r < W
    requires d * W <= s * r < (d + 1) * W
    ensures d * (W * W) - 2 * (W * W) <= mh * (r * r) <= d * (W * W) + 5 * (W * W)
  {
    MulMono(r, W * (s - 2), mh * r);
    MulMono(r, mh * r, W * (s + 4));
    assert r * (mh * r) == mh * (r * r);
    assert r * (W * (s - 2)) == (s * r - 2 * r) * W;
    assert r * (W * (s + 4)) == (s * r + 4 * r) * W;
  }

  // The product r1*u1 that the second step truncates, squared.
  lemma SecondProduct(mh: nat, s: nat, r: nat, d: nat, u: nat)
    requires InStep(mh, s, r) && r < W
    requires d * W <= s * r < (d + 1) * W
    requires -0x1_0000 <= d - Q <= 2 && u == THREE - d
    ensures mh * ((r * u) * (r * u)) <= (W * W) * (CUBE + 5 * USQ)
    ensures (W * W) * (CUBE - LOSS - 2 * USQ) <= mh * ((r * u) * (r * u))
  {
    SquareOfR(mh, s, r, d);
    CubicBounds(Q, d - Q, 0x1_0000, u);
    assert mh * ((r * u) * (r * u)) == (mh * (r * r)) * (u * u) by {
      Scale(r, r, u);
      Assoc(mh, r * r, u * u);
    }
    assert (W * W) * d == d * (W * W);
    ProductBounds(W * W, d, mh * (r * r), u * u, 2 * (W * W), 5 * (W * W), CUBE, LOSS, USQ);
  }

  lemma IsMul32(a: nat, b: nat, q: nat)
    requires a < W && b < W && q * W <= a * b < (q + 1) * W
    ensures Mul32(a, b) == q
  {
  }

  // The second `mul32(r, u) << 1` comes within a fraction of a unit of 2^32 when m is close to 1:
  // the six smallest values of the top word of m, all in row 64, by evaluation.
  lemma NoWrapNearOne(mh: nat, s0: nat, d0: nat, r: nat, s: nat, d: nat)
    requires Q <= mh < Q + 6
    requires s0 == Mul32(mh, 0xff02_0000) && d0 == Mul32(s0, 0xff02_0000) && 0 <= THREE - d0 < W
    requires r == 2 * Mul32(0xff02_0000, THREE - d0) < W
    requires s == 2 * Mul32(s0, THREE - d0) < W
    requires d == Mul32(s, r)
    ensures r * (THREE - d) < 0x8000_0000_0000_0000
  {
    if mh == 1073741824 {
      IsMul32(1073741824, 0xff02_0000, 1069580288); IsMul32(1069580288, 0xff02_0000, 1065434881);
      IsMul32(0xff02_0000, 2155790591, 2147435323); IsMul32(1069580288, 2155790591, 536858830);
      IsMul32(1073717660, 4294870646, 1073693498);
    }
    if mh == 1073741825 {
      IsMul32(1073741825, 0xff02_0000, 1069580288); IsMul32(1069580288, 0xff02_0000, 1065434881);
      IsMul32(0xff02_0000, 2155790591, 2147435323); IsMul32(1069580288, 2155790591, 536858830);
      IsMul32(1073717660, 4294870646, 1073693498);
    }
    if mh == 1073741826 {
      IsMul32(1073741826, 0xff02_0000, 1069580289); IsMul32(1069580289, 0xff02_0000, 1065434881);
      IsMul32(0xff02_0000, 2155790591, 2147435323); IsMul32(1069580289, 2155790591, 536858831);
      IsMul32(1073717662, 4294870646, 1073693500);
    }
    if mh == 1073741827 {
      IsMul32(1073741827, 0xff02_0000, 1069580290); IsMul32(1069580290, 0xff02_0000, 1065434882);
      IsMul32(0xff02_0000, 2155790590, 2147435322); IsMul32(1069580290, 2155790590, 536858831);
      IsMul32(1073717662, 4294870644, 1073693499);
    }
    if mh == 1073741828 {
      IsMul32(1073741828, 0xff02_0000, 1069580291); IsMul32(1069580291, 0xff02_0000, 1065434883);
      IsMul32(0xff02_0000, 2155790589, 2147435321); IsMul32(1069580291, 2155790589, 536858831);
      IsMul32(1073717662, 4294870642, 1073693499);
    }
    if mh == 1073741829 {
      IsMul32(1073741829, 0xff02_0000, 1069580292); IsMul32(1069580292, 0xff02_0000, 1065434884);
      IsMul32(0xff02_0000, 2155790588, 2147435320); IsMul32(1069580292, 2155790588, 536858832);
      IsMul32(1073717664, 4294870640, 1073693500);
    }
  }

  // Away from one, the bound on the product rules the wrap out.
  lemma NoWrapAboveOne(mh: nat, p: nat)
    requires Q + 6 <= mh && mh * (p * p) <= (W * W) * (CUBE + 5 * USQ)
    ensures p < 0x8000_0000_0000_0000
  {
    if 0x8000_0000_0000_0000 <= p {
      SquareMono(0x8000_0000_0000_0000, p);
      MulMono(mh, 0x8000_0000_0000_0000 * 0x8000_0000_0000_0000, p * p);
    }
  }

  const SLACK: nat := 0x9_1000_0000

  lemma ResidueLinear(mrr: nat, mpp: nat, pp: nat, d: nat)
    requires d * (W * W) <= mrr <= (d + 2) * (W * W)
    requires mrr * 0x4000_0000_0000_0000 <= (mpp + pp) * W
    requires mpp * W <= mrr * 0x4000_0000_0000_0000 + (4 * W * W) * W * 0x4000_0000_0000_0000
    requires mpp <= (W * W) * (CUBE + 5 * USQ) && (W * W) * (CUBE - LOSS - 2 * USQ) <= mpp
    requires pp <= 0x8000_0000_0000_0000 * 0x8000_0000_0000_0000
    ensures -(SLACK as int) <= d - K <= SLACK
  {
  }

  lemma TwoTruncations(m: nat, r: nat, s: nat, d: nat)
    requires r < W
    requires s * W <= m * r < (s + 1) * W
    requires d * W <= s * r < (d + 1) * W
    ensures d * (W * W) <= m * (r * r) <= (d + 2) * (W * W)
  {
    MulMono(r, s * W, m * r);
    MulMono(r, m * r, (s + 1) * W);
    assert r * (m * r) == m * (r * r);
    assert r * (s * W) == (s * r) * W;
    assert r * ((s + 1) * W) == (s * r) * W + r * W;
  }

  lemma UpperProduct(m: nat, mh: nat, p: nat, r: nat)
    requires m < (mh + 1) * W && r * 0x8000_0000 <= p
    ensures (m * (r * r)) * 0x4000_0000_0000_0000 <= (mh * (p * p) + p * p) * W
  {
    SquareMono(r * 0x8000_0000, p);
    Scale(r, r, 0x8000_0000);
    Assoc(m, r * r, 0x4000_0000_0000_0000);
    MulBounds(m, (r * r) * 0x4000_0000_0000_0000, (mh + 1) * W, p * p);
    assert ((mh + 1) * W) * (p * p) == (mh * (p * p) + p * p) * W;
  }

  lemma LowerExpand(mh: nat, rr: nat)
    ensures mh * ((rr + 4 * W) * 0x4000_0000_0000_0000) * W == (rr * (mh * W)) * 0x4000_0000_0000_0000 + ((4 * W) * mh) * W * 0x4000_0000_0000_0000
  {
  }

  lemma LowerProduct(m: nat, mh: nat, p: nat, r: nat)
    requires mh * W <= m && mh < W && r < W && p < (r + 2) * 0x8000_0000
    ensures mh * (p * p) * W <= (m * (r * r)) * 0x4000_0000_0000_0000 + (4 * W * W) * W * 0x4000_0000_0000_0000
  {
    SquareMono(p, (r + 2) * 0x8000_0000);
    Scale(r + 2, r + 2, 0x8000_0000);
    assert (r + 2) * (r + 2) == r * r + 4 * r + 4;
    assert p * p <= (r * r + 4 * W) * 0x4000_0000_0000_0000;
    MulMono(mh, p * p, (r * r + 4 * W) * 0x4000_0000_0000_0000);
    LowerExpand(mh, r * r);
    MulMono(r * r, mh * W, m);
    MulMono(4 * W, mh, W);
  }

  // d in the 64-bit step, against the exact m*r*r.
  lemma ResidueOfThirdStep(m: nat, mh: nat, p: nat, r: nat, s: nat, d: nat)
    requires mh * W <= m < (mh + 1) * W && Q <= mh < W
    requires p < 0x8000_0000_0000_0000 && r < W
    requires r * 0x8000_0000 <= p < (r + 2) * 0x8000_0000
    requires mh * (p * p) <= (W * W) * (CUBE + 5 * USQ)
    requires (W * W) * (CUBE - LOSS - 2 * USQ) <= mh * (p * p)
    requires s * W <= m * r < (s + 1) * W
    requires d * W <= s * r < (d + 1) * W
    ensures -(SLACK as int) <= d - K <= SLACK
  {
    assert d * (W * W) <= m * (r * r) <= (d + 2) * (W * W) by { TwoTruncations(m, r, s, d); }
    assert (m * (r * r)) * 0x4000_0000_0000_0000 <= (mh * (p * p) + p * p) * W by { UpperProduct(m, mh, p, r); }
    assert mh * (p * p) * W <= (m * (r * r)) * 0x4000_0000_0000_0000 + (4 * W * W) * W * 0x4000_0000_0000_0000 by { LowerProduct(m, mh, p, r); }
    assert p * p <= 0x8000_0000_0000_0000 * 0x8000_0000_0000_0000 by { SquareMono(p, 0x8000_0000_0000_0000); }
    ResidueLinear(m * (r * r), mh * (p * p), p * p, d);
  }

  /** s3 ~ sqrt(m) in format 3.61, as two comparisons of integers. */
  predicate Close(m: nat, s3: nat) {
    && 0x1000_0000_0000_0000 <= s3
    && (s3 - 258) * (s3 - 258) <= m * 0x1000_0000_0000_0000 <= (s3 + 255) * (s3 + 255)
  }

  const CUBE64: nat := 4 * K * K * K
  const LOSS64: nat := (SLACK * SLACK) * (3 * K + SLACK)
  const USQ64: nat := (2 * K + SLACK) * (2 * K + SLACK)

  lemma TimesBracket(k: nat, x: nat, y: nat)
    requires x * W <= y < (x + 1) * W
    ensures (k * x) * W <= k * y <= (k * x + k) * W
  {
    MulMono(k, x * W, y);
    MulMono(k, y, x * W + W);
    Assoc(k, x, W);
  }

  lemma SquareAgainstD(m: nat, s: nat, r: nat, d: nat)
    requires s * W <= m * r < (s + 1) * W
    requires d * W <= s * r < (d + 1) * W
    ensures m * d - s <= s * s <= m * d + m
  {
    TimesBracket(s, s, m * r);
    TimesBracket(m, d, s * r);
    assert s * (m * r) == m * (s * r);
  }

  lemma Squares258(s: int)
    ensures (s + 3) * (s + 3) == s * s + 6 * s + 9
    ensures (s - 258) * (s - 258) == s * s - 516 * s + 66564
    ensures (s + 255) * (s + 255) == s * s + 510 * s + 65025
  {
  }

  lemma CloseLinear(m: nat, s: nat, su2: nat, t: nat, t2: nat, t32: nat)
    requires K <= m < W64 && s < W64
    requires t2 == t * t && t32 == (t + 3) * (t + 3)
    requires su2 <= m * CUBE64 + m * USQ64
    requires m * (CUBE64 - LOSS64) <= su2 + s * USQ64
    requires t2 * (W64 * W64) <= su2 <= t32 * (W64 * W64)
    ensures Close(m, t)
  {
    assert t2 <= m * 0x1000_0000_0000_0000 + W64;
    assert m * 0x1000_0000_0000_0000 <= t32 + 62 * W64;
    if t + 3 < 0x1fff_ff00_0000_0000 {
      SquareMono(t + 3, 0x1fff_ff00_0000_0000);
    }
    Squares258(t);
  }

  lemma LastStep(m: nat, s: nat, r: nat, d: nat, u: nat, s3: nat)
    requires K <= m < W64 && r < W && s < W64
    requires s * W <= m * r < (s + 1) * W
    requires d * W <= s * r < (d + 1) * W
    requires -(SLACK as int) <= d - K <= SLACK && u == 3 * K - d
    requires s3 * W64 <= s * u < (s3 + 3) * W64
    ensures Close(m, s3)
  {
    assert m * d - s <= s * s <= m * d + m by { SquareAgainstD(m, s, r, d); }
    CubicBounds(K, d - K, SLACK, u);
    Scale(s, s, u);
    ProductBounds(m, d, s * s, u * u, s, m, CUBE64, LOSS64, USQ64);
    assert (s3 * s3) * (W64 * W64) <= (s * u) * (s * u) by {
      SquareMono(s3 * W64, s * u);
      Scale(s3, s3, W64);
    }
    assert (s * u) * (s * u) <= ((s3 + 3) * (s3 + 3)) * (W64 * W64) by {
      SquareMono(s * u, (s3 + 3) * W64);
      Scale(s3 + 3, s3 + 3, W64);
    }
    CloseLinear(m, s, (s * u) * (s * u), s3, s3 * s3, (s3 + 3) * (s3 + 3));
  }

  lemma ShiftedIsClose(m: nat, s3: nat)
    requires Close(m, s3)
    ensures var s := (s3 - 2) / 512;
      0 < s && (2 * s - 1) * (2 * s - 1) <= 4 * (m * 0x400_0000_0000) <= (2 * s + 3) * (2 * s + 3)
  {
    var s := (s3 - 2) / 512;
    SquareMono(256 * (2 * s - 1), s3 - 258);
    Scale(2 * s - 1, 2 * s - 1, 256);
    SquareMono(s3 + 255, 256 * (2 * s + 3));
    Scale(2 * s + 3, 2 * s + 3, 256);
  }

  const ONE: nat := 0x10_0000_0000_0000   // 2^52, the unit of the exponent field

  /** What the range reduction leaves: fraction bits and exponent parity in ix, a possibly wrapped exponent in top. */
  predicate Reduced(ix: nat, top: nat, v: int, frac: nat) {
    && ix < 0x8000_0000_0000_0000 && top < W64 && frac < ONE && -51 <= v <= 2046
    && ix % ONE == frac && ix / ONE % 2 == v % 2
    && top == v % W64
  }

  // The bit fields the kernel extracts from ix and top.
  lemma Fields(ix: nat, top: nat, v: int, frac: nat)
    requires Reduced(ix, top, v, frac)
    ensures top % 2 == v % 2
    ensures (ix * 0x800) % W64 % 0x8000_0000_0000_0000 + 0x8000_0000_0000_0000 == (ONE + frac) * 0x800
    ensures (top + 1023) % W64 / 2 == (v + 1023) / 2
    ensures ix / 0x4000_0000_0000 % 128 == (v % 2) * 64 + frac / 0x4000_0000_0000
  {
    var k, b := ix / ONE / 2, v % 2;
    assert ix == (2 * k + b) * ONE + frac;
    ModUnique(ix * 0x800, k, (b * ONE + frac) * 0x800, W64);
    ModUnique((b * ONE + frac) * 0x800, b, frac * 0x800, 0x8000_0000_0000_0000);
    ModUnique(ix, k * 128 + b * 64 + frac / 0x4000_0000_0000, frac % 0x4000_0000_0000, 0x4000_0000_0000);
    ModAddMod(v, 1023, W64);
    ModUnique(v + 1023, 0, v + 1023, W64);
    ModUnique(v, if v < 0 then -1 else 0, top, W64);
  }

  /** The row of the table an exponent parity and a fraction select. */
  lemma RowOfField(frac: nat, odd: bool, m: nat, i: nat)
    requires frac < ONE
    requires m == (ONE + frac) * (if odd then 0x400 else 0x800)
    requires i == (if odd then 64 else 0) + frac / 0x4000_0000_0000
    ensures i < 128 && RowStart(i) <= m / W < RowStart(i) + RowWidth(i)
    ensures K <= m < W64
  {
  }

  datatype Root = Bits(bits: nat) | Invalid

  /** asuint64(x * 0x1p52) for a subnormal x. */
  function ScaleSubnormal(ix: nat): (r: nat)
    requires 0 < ix < ONE
  {
    DoublePowers();
    MulMono(Pow2(52), 1, ix);
    var fields := Normalize(52, ix, 53);
    fields.0 * ONE + fields.1
  }

  function Value(bits: nat): nat {
    DOUBLE.Scaled(bits / ONE, bits % ONE)
  }

  /** A finite result that is the correctly rounded (to nearest) square root of the number with bits x. */
  ghost predicate IsRootOf(x: nat, y: nat) {
    && ONE <= y < 0x7ff0_0000_0000_0000
    && NearestSqrt(DOUBLE, Value(x), Value(y))
  }

  predicate ScaledTo(x: nat, v: int, frac: nat) {
    -51 <= v && Value(x) * Pow2(52) == (ONE + frac) * Pow2(v - 1 + 52)
  }

  /** ix and top hold the fields of the number x = sig * 2^(v-1075), in units of 2^-1074. */
  ghost predicate Encodes(ix: nat, top: nat, x: nat) {
    exists v: int, frac: nat :: Reduced(ix, top, v, frac) && ScaledTo(x, v, frac)
  }

  lemma NormalEncodes(x: nat)
    requires ONE <= x < 0x7ff0_0000_0000_0000
    ensures Encodes(x, x / ONE, x)
  {
    DoublePowers();
    var v, frac := x / ONE, x % ONE;
    Pow2Add(v - 1, 52);
    Assoc(ONE + frac, Pow2(v - 1), Pow2(52));
    assert Reduced(x, x / ONE, v, frac) && ScaledTo(x, v, frac);
  }

  lemma SubnormalValue(x: nat)
    requires x < ONE
    ensures Value(x) == x
  {
    ModUnique(x, 0, x, ONE);
  }

  // The fields of the scaled number, and the exponent less the scaling.
  lemma SubnormalFields(ix: nat, top: nat, e: nat, frac: nat)
    requires ix == e * ONE + frac && 1 <= e <= 53 && frac < ONE && top == (e - 52) % W64
    ensures ix / ONE == e && Reduced(ix, top, e - 52, frac)
  {
    ModUnique(ix, e, frac, ONE);
  }

  lemma SubnormalEncodes(x: nat, ix: nat, top: nat)
    requires 0 < x < ONE && ix == ScaleSubnormal(x) && top == (ix / ONE - 52) % W64
    ensures Encodes(ix, top, x)
  {
    DoublePowers();
    MulMono(Pow2(52), 1, x);
    SubnormalValue(x);
    var fields := Normalize(52, x, 53);
    var e, frac := fields.0, fields.1;
    SubnormalFields(ix, (e - 52) % W64, e, frac);
    assert ScaledTo(x, e - 52, frac);
  }

  lemma RootAtScale(x: nat, v: int, frac: nat, m: nat, s: nat, e: nat)
    requires -51 <= v <= 2046 && frac < ONE && ScaledTo(x, v, frac) && e == (v + 1023) / 2
    requires m == (ONE + frac) * (if v % 2 == 1 then 0x400 else 0x800)
    requires NearestInt(m * 0x400_0000_0000, s) && ONE <= s < 2 * ONE
    ensures NearestSqrt(DOUBLE, Value(x), s * Pow2(e - 1))
  {
    DoublePowers();
    HalfExponent(DOUBLE, Value(x), ONE + frac, v, 52, e, m * 0x400_0000_0000);
    NearestIntIsNearestSqrt(DOUBLE, Value(x), m * 0x400_0000_0000, s, e);
  }

  // The tail of the method: from the shifted root to the correctly rounded result.
  lemma Assemble(x: nat, v: int, frac: nat, m: nat, s: nat, y: nat)
    requires v <= 2046 && frac < ONE && ScaledTo(x, v, frac)
    requires m == (ONE + frac) * (if v % 2 == 1 then 0x400 else 0x800)
    requires NearestInt(m * 0x400_0000_0000, s)
    requires y == s % ONE + (v + 1023) / 2 * ONE
    ensures IsRootOf(x, y)
  {
    DoublePowers();
    var e := (v + 1023) / 2;
    SignificandRange(m * 0x400_0000_0000, s, ONE);
    ModUnique(s, 1, s - ONE, ONE);
    ModUnique(y, e, s - ONE, ONE);
    RootAtScale(x, v, frac, m, s, e);
  }

  predicate GoodProduct(mh: nat, r: nat, p: nat) {
    && r < W && p < 0x8000_0000_0000_0000
    && r * 0x8000_0000 <= p < (r + 2) * 0x8000_0000
    && (W * W) * (CUBE - LOSS - 2 * USQ) <= mh * (p * p) <= (W * W) * (CUBE + 5 * USQ)
  }

  /** r is a 32-bit 1/sqrt(m) good enough for one more step in 64-bit words. */
  ghost predicate GoodR(mh: nat, r: nat) {
    exists p: nat :: GoodProduct(mh, r, p)
  }

  lemma SecondStep(mh: nat, s: nat, r: nat, d: nat, u: nat)
    requires Q <= mh && InStep(mh, s, r) && r < W && s < W
    requires d == Mul32(s, r) && -0x1_0000 <= d - Q <= 2 && u == THREE - d
    requires mh < Q + 6 ==> r * u < 0x8000_0000_0000_0000
    ensures GoodR(mh, Mul32(r, u) * 2 % W)
  {
    Mul32Truncates(s, r);
    Mul32Truncates(r, u);
    SecondProduct(mh, s, r, d, u);
    if Q + 6 <= mh {
      NoWrapAboveOne(mh, r * u);
    }
    var r2 := Mul32(r, u) * 2;
    ModUnique(r2, 0, r2, W);
    assert GoodProduct(mh, r2, r * u);
  }

  /** The two iterations in 32-bit words: table lookup, one refinement of r and s, one of r. */
  method Approximate32(mh: nat, t: nat) returns (r: nat)
    requires GoodSeed(mh, t)
    requires mh < Q + 6 ==> t == 0xff02
    ensures GoodR(mh, r)
  {
    r := t * 0x1_0000;
    var s := Mul32(mh, r);
    var d := Mul32(s, r);
    FirstStepFits(mh, t, s, d, THREE - d);
    var u := THREE - d;
    ghost var r0, s0, d0, r1, s1 := r, s, d, 2 * Mul32(r, u), 2 * Mul32(s, u);
    FirstStep(mh, t, s, d, u, r1, s1);
    r := Mul32(r, u) * 2 % W;
    s := Mul32(s, u) * 2 % W;
    assert r == r1 && s == s1 by { ModUnique(r1, 0, r1, W); ModUnique(s1, 0, s1, W); }
    d := Mul32(s, r);
    u := THREE - d;
    if mh < Q + 6 {
      NoWrapNearOne(mh, s0, d0, r, s, d);
    }
    SecondStep(mh, s, r, d, u);
    r := Mul32(r, u) * 2 % W;
  }

  /** The last iteration, in 64-bit words, and the shift from format 3.61 to a 53-bit root within [-1/2, 3/2]. */
  method Approximate64(m: nat, r32: nat) returns (s: nat)
    requires K <= m < W64 && GoodR(m / W, r32)
    ensures 0 < s < 0x3fff_ffff_ffff_ffff
    ensures (2 * s - 1) * (2 * s - 1) <= 4 * (m * 0x400_0000_0000) <= (2 * s + 3) * (2 * s + 3)
  {
    ghost var p: nat :| GoodProduct(m / W, r32, p);
    var r := r32 * W;
    Mul64High(m, r32);
    s := Mul64(m, r);
    Mul64High(s, r32);
    var d := Mul64(s, r);
    ResidueOfThirdStep(m, m / W, p, r32, s, d);
    var u := THREE * W - d;
    Mul64Truncates(s, u);
    ghost var s2 := s;
    s := Mul64(s, u);
    LastStep(m, s2, r32, d, u, s);
    ShiftedIsClose(m, s);
    s := (s - 2) / 512;
  }

  /** Compute the nearest rounded result. */
  method Round(m: nat, s0: nat) returns (s: nat)
    requires 0 < s0 < 0x3fff_ffff_ffff_ffff
    requires (2 * s0 - 1) * (2 * s0 - 1) <= 4 * (m * 0x400_0000_0000) <= (2 * s0 + 3) * (2 * s0 + 3)
    ensures NearestInt(m * 0x400_0000_0000, s)
  {
    s := s0;
    var d0 := (m * 0x400_0000_0000 % W64 - s * s % W64) % W64;
    var d1 := (s - d0) % W64;
    PickNearest(m * 0x400_0000_0000, s, 0x8000_0000_0000_0000, d0, d1);
    s := s + d1 / 0x8000_0000_0000_0000;
  }

  method Significand(m: nat, i: nat) returns (s: nat)
    requires K <= m < W64
    requires i < 128 && RowStart(i) <= m / W < RowStart(i) + RowWidth(i)
    ensures NearestInt(m * 0x400_0000_0000, s)
  {
    SeedIsGood(i, m / W);
    assert m / W < Q + 6 ==> RsqrtTab(i) == 0xff02;
    var r := Approximate32(m / W, RsqrtTab(i));
    s := Approximate64(m, r);
    s := Round(m, s);
  }

  method RootOfReduced(ix: nat, top0: nat, ghost x: nat) returns (root: Root)
    requires Encodes(ix, top0, x)
    ensures root.Bits? && IsRootOf(x, root.bits)
  {
    ghost var v: int, frac: nat :| Reduced(ix, top0, v, frac) && ScaledTo(x, v, frac);
    Fields(ix, top0, v, frac);
    // A power of four times a radicand between one and four, with two bits before the point; half the exponent, biased anew.
    var even := top0 % 2;
    var m := (ix * 0x800) % W64 % 0x8000_0000_0000_0000 + 0x8000_0000_0000_0000;
    if even != 0 { m := m / 2; }
    var top := (top0 + 1023) % W64 / 2;
    var i := ix / 0x4000_0000_0000 % 128;
    RowOfField(frac, even != 0, m, i);
    var s := Significand(m, i);
    var y := s % ONE + top * ONE % W64;
    ModUnique(top * ONE, 0, top * ONE, W64);
    Assemble(x, v, frac, m, s, y);
    root := Bits(y);
  }

  /**
   * The integer kernel. Every intermediate is the word the C code computes: subtractions wrap, the
   * two `<< 1` keep 32 bits, `s*s` and `m << 42` are reduced modulo 2^64.
   */
  method Sqrt(x: nat) returns (root: Root)
    requires x < W64
    ensures x * 2 % W64 == 0 ==> root == Bits(x)
    ensures x == 0x7ff0_0000_0000_0000 ==> root == Bits(x)
    ensures 0x7ff0_0000_0000_0000 < x && x * 2 % W64 != 0 ==> root == Invalid
    ensures 0 < x < 0x7ff0_0000_0000_0000 ==> root.Bits? && IsRootOf(x, root.bits)
  {
    var ix := x;
    var top := ix / ONE;
    if (top - 1) % W64 >= 0x7ff - 1 {
      // Everything but the positive normal numbers.
      if ix * 2 % W64 == 0 { return Bits(x); }
      if ix == 0x7ff0_0000_0000_0000 { return Bits(x); }
      if ix > 0x7ff0_0000_0000_0000 { return Invalid; }
      // Scaled by 2^52 a subnormal number is normal.
      ix := ScaleSubnormal(ix);
      top := ix / ONE;
      top := (top - 52) % W64;
      SubnormalEncodes(x, ix, top);
    } else {
      NormalEncodes(x);
    }
    root := RootOfReduced(ix, top, x);
  }
}
