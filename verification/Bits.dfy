/** Bitwise operations on unsigned integers of any width, as the mask arithmetic of the filter uses them. */
module Bits {
  import opened Prelude

  function BitAnd(a: nat, b: nat): (r: nat) {
    if a == 0 || b == 0 then 0 else (if a % 2 == 1 && b % 2 == 1 then 1 else 0) + 2 * BitAnd(a / 2, b / 2)
  }

  /** `x << k` in a word of `width` bits. */
  function ShiftLeft(x: nat, k: nat, width: nat): (r: nat) {
    x * Pow2(k) % Pow2(width)
  }

  function AllOnes(width: nat): (r: nat) {
    Pow2(width) - 1
  }

  // ----- Division by a variable -----

  lemma MulAtLeast(x: int, m: nat)
    ensures x >= 1 ==> x * m >= m
    ensures x <= -1 ==> x * m <= -(m as int)
  {
    if x >= 1 {
      assert x * m == (x - 1) * m + m;
    } else if x <= -1 {
      assert x * m == (x + 1) * m - m;
    }
  }

  lemma DivMod(n: nat, m: nat)
    requires m > 0
    ensures n == n / m * m + n % m && 0 <= n % m < m
  {}

  lemma DivUnique(n: nat, m: nat, q: nat, r: nat)
    requires r < m && n == q * m + r
    ensures n / m == q && n % m == r
  {
    DivMod(n, m);
    var d, e := n / m, n % m;
    Distribute(d, q, m);
    MulAtLeast(d - q, m);
  }

  lemma Distribute(a: int, b: int, m: int)
    ensures (a - b) * m == a * m - b * m
  {}

  lemma DivDiv(x: nat, m: nat, n: nat)
    requires m > 0 && n > 0
    ensures m * n > 0 && x / m / n == x / (m * n)
  {
    var q := x / m;
    var d, e, r := q / n, q % n, x % m;
    DivMod(x, m);
    DivMod(q, n);
    Expand(d, e, r, m, n);
    DivUnique(x, m * n, d, e * m + r);
  }

  lemma Expand(d: nat, e: nat, r: nat, m: nat, n: nat)
    requires e < n && r < m
    ensures (d * n + e) * m + r == d * (m * n) + (e * m + r)
    ensures e * m + r < m * n
  {
    assert (n - 1 - e) * m >= 0;
    assert m * n == (n - 1 - e) * m + e * m + m;
    Regroup(d, e, r, m, n);
  }

  lemma Regroup(d: nat, e: nat, r: nat, m: nat, n: nat)
    ensures (d * n + e) * m + r == d * (m * n) + (e * m + r)
  {
    assert (d * n + e) * m == d * n * m + e * m;
    assert d * n * m == d * (m * n);
  }

  // ----- Masks -----

  lemma {:induction false} Pow2Monotone(a: nat, b: nat)
    requires a <= b
    ensures Pow2(a) <= Pow2(b)
  {
    if a < b { Pow2Monotone(a, b - 1); }
  }

  lemma ModOfSum(q: nat, m: nat, r: nat)
    requires r < m
    ensures (q * m + r) % m == r
  {
    DivUnique(q * m + r, m, q, r);
  }

  /** Shifting all ones left by `k` leaves ones exactly above bit `k`. */
  lemma ShiftedOnes(k: nat, width: nat)
    requires k <= width
    ensures ShiftLeft(AllOnes(width), k, width) == Pow2(width) - Pow2(k)
  {
    var w, p := Pow2(width), Pow2(k);
    Pow2Monotone(k, width);
    OnesTimes(w, p);
    ModOfSum(p - 1, w, w - p);
  }

  lemma OnesTimes(w: int, p: int)
    ensures (w - 1) * p == (p - 1) * w + (w - p)
  {}

  /** Ones above bit `k` in a word of `width` bits. */
  function HighOnes(k: nat, width: nat): (m: nat)
    requires k <= width
  {
    Pow2Monotone(k, width);
    Pow2(width) - Pow2(k)
  }

  /** Masking with ones above bit `k` clears exactly the low `k` bits. */
  lemma {:induction false} AndWithMask(x: nat, k: nat, width: nat)
    requires k <= width && x < Pow2(width)
    ensures BitAnd(x, HighOnes(k, width)) == x / Pow2(k) * Pow2(k)
    decreases width
  {
    if k == width {
      DivUnique(x, Pow2(k), 0, x);
    } else if k == 0 {
      AndWithMask(x / 2, 0, width - 1);
      AndOddMask(x, width);
    } else {
      AndWithMask(x / 2, k - 1, width - 1);
      AndEvenMask(x, k, width);
    }
  }

  lemma AndOddMask(x: nat, width: nat)
    requires width > 0 && BitAnd(x / 2, HighOnes(0, width - 1)) == x / 2
    ensures BitAnd(x, HighOnes(0, width)) == x
  {
    assert HighOnes(0, width) == 2 * HighOnes(0, width - 1) + 1;
  }

  lemma AndEvenMask(x: nat, k: nat, width: nat)
    requires 0 < k < width
    requires BitAnd(x / 2, HighOnes(k - 1, width - 1)) == x / 2 / Pow2(k - 1) * Pow2(k - 1)
    ensures BitAnd(x, HighOnes(k, width)) == x / Pow2(k) * Pow2(k)
  {
    var p, m := Pow2(k), Pow2(k - 1);
    HighOnesPositive(k, width);
    assert HighOnes(k, width) == 2 * HighOnes(k - 1, width - 1);
    DivDiv(x, 2, m);
    Double(x / p, m);
    if x == 0 { DivUnique(0, p, 0, 0); }
  }

  lemma Double(q: nat, m: nat)
    ensures q * (2 * m) == 2 * (q * m)
  {}

  lemma HighOnesPositive(k: nat, width: nat)
    requires k < width
    ensures HighOnes(k, width) > 0
  {
    Pow2Monotone(k, width - 1);
  }

  /** Masking with one bit tests that bit. */
  lemma {:induction false} AndWithBit(x: nat, k: nat)
    ensures BitAnd(x, Pow2(k)) == if x / Pow2(k) % 2 == 1 then Pow2(k) else 0
  {
    if k == 0 {
      assert BitAnd(x / 2, 0) == 0;
    } else {
      AndWithBit(x / 2, k - 1);
      DivDiv(x, 2, Pow2(k - 1));
      if x == 0 { DivUnique(0, Pow2(k), 0, 0); }
    }
  }
}
