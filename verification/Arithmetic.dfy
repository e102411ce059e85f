/** Products, remainders and powers of two. */
module Arithmetic {
  lemma Scale(m: nat, t: int)
    ensures t >= 1 ==> m * t >= m
    ensures t <= -1 ==> m * t <= 0 - m
  {
    if t >= 1 {
      assert m * t == m * (t - 1) + m && m * (t - 1) >= 0;
    } else if t <= -1 {
      assert m * t == -(m * -t) && m * -t == m * (-t - 1) + m && m * (-t - 1) >= 0;
    }
  }

  lemma Residue(m: nat, k: int, r: nat)
    requires r < m
    ensures (m * k + r) % m == r && (m * k + r) / m == k
  {
    var x := m * k + r;
    var d, s := x / m, x % m;
    assert x == m * d + s;
    assert m * (k - d) == m * k - m * d;
    Scale(m, k - d);
  }

  /** Multiples of m are m apart, and sums of multiples are multiples. */
  lemma Multiples(x: int, y: int, m: nat)
    requires m > 0 && x % m == 0 && y % m == 0
    ensures x < y ==> x + m <= y
    ensures (x + m) % m == 0
  {
    var p, q := x / m, y / m;
    assert x == m * p && y == m * q;
    assert m * (q - p) == m * q - m * p;
    Scale(m, q - p);
    assert m * (p + 1) == m * p + m;
    Residue(m, p + 1, 0);
  }

  // ---- powers of two ----

  /** The number of binary digits: 32 - __builtin_clz(x), or 64 - __builtin_clzl(x). */
  function BitLength(x: nat): nat { if x == 0 then 0 else 1 + BitLength(x / 2) }

  /** 1 << n. */
  function Shl(n: nat): (r: nat)
    ensures r > 0
  {
    if n == 0 then 1 else 2 * Shl(n - 1)
  }

  lemma {:induction false} BitLengthBounds(x: nat)
    requires x > 0
    ensures BitLength(x) > 0 && Shl(BitLength(x) - 1) <= x < Shl(BitLength(x))
  {
    if x > 1 {
      BitLengthBounds(x / 2);
    } else {
      assert BitLength(0) == 0 && BitLength(1) == 1;
    }
  }

  lemma {:induction false} ShlAdd(a: nat, b: nat)
    ensures Shl(a + b) == Shl(a) * Shl(b)
  {
    if a > 0 {
      ShlAdd(a - 1, b);
    }
  }

  lemma {:induction false} BitLengthShl(n: nat)
    ensures BitLength(Shl(n)) == n + 1
  {
    if n > 0 {
      BitLengthShl(n - 1);
    }
  }

  lemma {:induction false} ShlBelow(i: nat, j: nat)
    requires i <= j
    ensures Shl(i) <= Shl(j)
  {
    if i < j {
      ShlBelow(i, j - 1);
    }
  }

  /** Rounding up to a power of two: the least n with x <= 1 << n. */
  lemma RoundUp(x: nat)
    requires x > 1
    ensures var n := BitLength(x - 1);
            n > 0 && Shl(n - 1) < x <= Shl(n) && BitLength(Shl(n)) - 1 == n
  {
    BitLengthBounds(x - 1);
    BitLengthShl(BitLength(x - 1));
  }
}
