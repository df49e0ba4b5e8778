// Elementary facts about products, stated one at a time because the solver is asked
// for nothing nonlinear anywhere else.
module Arith {

  /** The number of values of a 32-bit word. */
  const W: nat := 0x1_0000_0000

  lemma MulMono(k: nat, x: int, y: int)
    requires x <= y
    ensures k * x <= k * y
  {
  }

  lemma MulStrict(k: nat, x: int, y: int)
    requires x < y && 0 < k
    ensures k * x < k * y
  {
  }

  lemma MulBounds(a: nat, b: nat, c: nat, d: nat)
    requires a <= c && b <= d
    ensures a * b <= c * d
  {
    MulMono(b, a, c);
    MulMono(c, b, d);
  }

  lemma SquareMono(a: nat, b: nat)
    requires a <= b
    ensures a * a <= b * b
  {
    MulBounds(a, a, b, b);
  }

  lemma Swap(x: int, y: int, z: int)
    ensures x * (y * z) == (x * z) * y
  {
  }

  lemma Assoc(x: int, y: int, z: int)
    ensures (x * y) * z == x * (y * z)
  {
  }

  lemma Distribute(a: int, b: int, g: int)
    ensures a * g + b * g == (a + b) * g
  {
  }

  lemma Scale(x: int, y: int, k: int)
    ensures (x * k) * (y * k) == (x * y) * (k * k)
  {
  }

  lemma Cancel(a: int, b: int, c: nat)
    requires a * c == b * c && 0 < c
    ensures a == b
  {
    if a < b { MulStrict(c, a, b); }
    if b < a { MulStrict(c, b, a); }
  }

  lemma ModUnique(x: int, q: int, r: int, w: nat)
    requires 0 <= r < w && x == q * w + r
    ensures x % w == r && x / w == q
  {
    var q', r' := x / w, x % w;
    if q < q' { MulMono(w, q + 1, q'); } else if q' < q { MulMono(w, q' + 1, q); }
  }

  // Removing a multiple of the modulus.
  lemma ModAdd(x: int, k: int, w: nat)
    requires 0 < w
    ensures (x + k * w) % w == x % w
  {
    var q, r := x / w, x % w;
    assert x + k * w == (q + k) * w + r by { Distribute(q, k, w); }
    ModUnique(x + k * w, q + k, r, w);
  }

  lemma ModSubSplit(x: int, y: int, p: int, q: int, w: nat)
    requires 0 < w
    ensures (x - p * w - (y - q * w)) % w == (x - y) % w
    ensures (x - (y - q * w)) % w == (x - y) % w
  {
    ModAdd(x - y, q, w);
    ModAdd(x - y, q - p, w);
    Distribute(q, -p, w);
  }

  lemma Split(x: int, w: nat)
    requires 0 < w
    ensures x % w == x - (x / w) * w
  {
  }

  /** a - b on words: both operands may already have been reduced. */
  lemma ModSub(x: int, y: int, w: nat)
    requires 0 < w
    ensures (x % w - y % w) % w == (x - y) % w
    ensures (x - y % w) % w == (x - y) % w
  {
    Split(x, w);
    Split(y, w);
    ModSubSplit(x, y, x / w, y / w, w);
  }

  lemma ModAddMod(x: int, y: int, w: nat)
    requires 0 < w
    ensures (x % w + y) % w == (x + y) % w
    ensures (x % w + y % w) % w == (x + y) % w
  {
    assert x + y == (x % w + y) + (x / w) * w;
    ModAdd(x % w + y, x / w, w);
    assert x % w + y == (x % w + y % w) + (y / w) * w;
    ModAdd(x % w + y % w, y / w, w);
  }

  lemma ModMulMod(x: int, y: int, w: nat)
    requires 0 < w
    ensures ((x % w) * y) % w == (x * y) % w
  {
    assert x * y == (x % w) * y + ((x / w) * y) * w;
    ModAdd((x % w) * y, (x / w) * y, w);
  }
}
