/** Shifts, masks and trailing zeros, defined bit by bit, and what they are on powers of two. */
module Bits {

  function Pow2(k: nat): nat
    ensures Pow2(k) > 0
  {
    if k == 0 then 1 else 2 * Pow2(k - 1)
  }

  /** `x >> k` */
  function Shr(x: nat, k: nat): nat {
    if k == 0 then x else Shr(x / 2, k - 1)
  }

  /** `x << k` */
  function Shl(x: nat, k: nat): nat {
    if k == 0 then x else 2 * Shl(x, k - 1)
  }

  /** `x & y` */
  function And(x: nat, y: nat): nat {
    if x == 0 || y == 0 then 0 else (if x % 2 == 1 && y % 2 == 1 then 1 else 0) + 2 * And(x / 2, y / 2)
  }

  function TrailingZeros(x: nat): nat
    requires x > 0
  {
    if x % 2 == 1 then 0 else 1 + TrailingZeros(x / 2)
  }

  lemma Multiple(a: int, d: int)
    requires d >= 0
    ensures a >= 1 ==> a * d >= d
    ensures a <= -1 ==> a * d <= -d
  {
  }

  /** Quotient and remainder are unique. */
  lemma DivMod(x: nat, d: nat, q: nat, r: nat)
    requires d > 0 && x == q * d + r && r < d
    ensures x / d == q && x % d == r
  {
    var e, f := x / d, x % d;
    assert x == e * d + f;
    assert (e - q) * d == r - f;
    Multiple(e - q, d);
  }

  lemma Regroup(m: nat, n: nat, q: nat, r: nat, s: nat)
    requires r < n && s < m
    ensures (q * n + r) * m + s == q * (m * n) + (r * m + s)
    ensures r * m + s < m * n
  {
    Multiple(n - r, m);
    assert (n - r) * m == m * n - r * m;
    assert q * n * m == q * (m * n);
  }

  /** Dividing twice is dividing by the product; the remainders combine. */
  lemma DivDiv(x: nat, m: nat, n: nat, d: nat)
    requires m > 0 && n > 0 && d == m * n && d > 0
    ensures x / d == x / m / n && x % d == x / m % n * m + x % m
  {
    var y, s := x / m, x % m;
    var q, r := y / n, y % n;
    Euclid(x, m);
    Euclid(y, n);
    Digits(x, y, m, n, d, q, r, s);
  }

  lemma Euclid(x: nat, m: nat)
    requires m > 0
    ensures x == x / m * m + x % m && x % m < m
  {
  }

  /** Two digits and what is above them. */
  lemma Digits(x: nat, y: nat, m: nat, n: nat, d: nat, q: nat, r: nat, s: nat)
    requires d == m * n && d > 0 && r < n && s < m && y == q * n + r && x == y * m + s
    ensures x / d == q && x % d == r * m + s
  {
    Regroup(m, n, q, r, s);
    DivMod(x, d, q, r * m + s);
  }

  lemma {:induction false} ShrIsDiv(x: nat, k: nat)
    ensures Shr(x, k) == x / Pow2(k)
  {
    if k > 0 {
      ShrIsDiv(x / 2, k - 1);
      DivDiv(x, 2, Pow2(k - 1), Pow2(k));
    }
  }

  lemma {:induction false} AndIsMod(x: nat, k: nat)
    ensures And(x, Pow2(k) - 1) == x % Pow2(k)
  {
    if x == 0 {
      DivMod(0, Pow2(k), 0, 0);
    } else if k == 0 {
      assert x % 1 == 0;
    } else {
      var n, d := Pow2(k - 1), Pow2(k);
      var low := And(x / 2, n - 1);
      assert low == x / 2 % n by { AndIsMod(x / 2, k - 1); }
      assert And(x, d - 1) == x % 2 + 2 * low by { AndStep(x, n); }
      assert x % d == x / 2 % n * 2 + x % 2 by { DivDiv(x, 2, n, d); }
    }
  }

  lemma AndStep(x: nat, n: nat)
    requires x > 0 && n > 0
    ensures And(x, 2 * n - 1) == x % 2 + 2 * And(x / 2, n - 1)
  {
    assert (2 * n - 1) % 2 == 1 && (2 * n - 1) / 2 == n - 1;
  }

  lemma {:induction false} PowersOfTwo(k: nat)
    ensures TrailingZeros(Pow2(k)) == k && Shl(1, k) == Pow2(k)
  {
    if k > 0 { PowersOfTwo(k - 1); }
  }

  lemma {:induction false} Pow2Square(k: nat)
    ensures Pow2(2 * k) == Pow2(k) * Pow2(k)
  {
    if k > 0 { Pow2Square(k - 1); }
  }
}
