// The last step of both square-root kernels: picking the rounded result by the sign of a
// difference computed in wrapping words.
module Rounding {
  import opened Arith
  import opened BinaryFormat

  lemma Squares(s: int)
    ensures (2 * s - 1) * (2 * s - 1) == 4 * (s * s) - 4 * s + 1
    ensures (2 * s + 1) * (2 * s + 1) == 4 * (s * s) + 4 * s + 1
    ensures (2 * s + 3) * (2 * s + 3) == 4 * (s * s) + 12 * s + 9
  {
  }

  lemma Decide(m: nat, s: nat)
    requires 0 < s && (2 * s - 1) * (2 * s - 1) <= 4 * m <= (2 * s + 3) * (2 * s + 3)
    ensures NearestInt(m, if m > s * s + s then s + 1 else s)
  {
    Squares(s);
    if m > s * s + s {
      assert 2 * (s + 1) - 1 == 2 * s + 1 && 2 * (s + 1) + 1 == 2 * s + 3;
    }
  }

  // The top bit of a word that holds a small signed number is its sign.
  lemma TopBit(d: int, half: nat)
    requires -(half as int) <= d < half
    ensures 0 <= d % (2 * half) < 2 * half
    ensures (d % (2 * half)) / half == (if d < 0 then 1 else 0)
  {
    if d < 0 {
      ModUnique(d, -1, d + 2 * half, 2 * half);
      ModUnique(d + 2 * half, 1, d + half, half);
    } else {
      ModUnique(d, 0, d, 2 * half);
      ModUnique(d, 0, d, half);
    }
  }

  /**
   * d0 = m - s*s and d1 = s - d0, both modulo w = 2*half, then s += top bit of d1. Although d0 and
   * s*s wrap, the top bit of d1 decides m > s*s + s as long as s is within [-1/2, 3/2] of the root.
   */
  lemma PickNearest(m: nat, s: nat, half: nat, d0: int, d1: int)
    requires 2 * s + 2 <= half && 0 < s
    requires (2 * s - 1) * (2 * s - 1) <= 4 * m <= (2 * s + 3) * (2 * s + 3)
    requires d0 == (m % (2 * half) - (s * s) % (2 * half)) % (2 * half)
    requires d1 == (s - d0) % (2 * half)
    ensures 0 <= d1 < 2 * half
    ensures d1 / half == (if m > s * s + s then 1 else 0)
    ensures NearestInt(m, s + d1 / half)
  {
    var e := m - s * s;
    assert -(half as int) <= s - e < half by { Squares(s); }
    assert d1 == (s - e) % (2 * half) by {
      ModSub(m, s * s, 2 * half);
      ModSub(s, e, 2 * half);
    }
    TopBit(s - e, half);
    Decide(m, s);
  }

  /** The rounded root of a significand never leaves the significand range: it cannot spill into the exponent. */
  lemma SignificandRange(m: nat, s: nat, b: nat)
    requires NearestInt(m, s) && 0 < b
    requires b * b <= m <= (2 * b - 1) * (2 * b)
    ensures b <= s < 2 * b
  {
    if s < b {
      SquareMono(2 * s + 1, 2 * b - 1);
      Squares(b);
    } else if 2 * b <= s {
      Squares(2 * b);
      Distribute(2 * b, -1, 2 * b);
      SquareMono(2 * (2 * b) - 1, 2 * s - 1);
    }
  }
}
