/** Facts about powers of two and products that the solver needs spelled out. */
module Arithmetic {
  function Min(a: nat, b: nat): nat {
    if a < b then a else b
  }

  function Max(a: nat, b: nat): nat {
    if a < b then b else a
  }

  function Pow2(n: nat): (p: nat)
    ensures p > 0
  {
    if n == 0 then 1 else 2 * Pow2(n - 1)
  }

  lemma {:induction false} Pow2Split(n: nat, k: nat)
    ensures Pow2(n) * Pow2(k) == Pow2(n + k)
  {
    if n > 0 {
      Pow2Split(n - 1, k);
      assert 2 * Pow2(n - 1) * Pow2(k) == 2 * (Pow2(n - 1) * Pow2(k));
    }
  }

  lemma Pow2Double(n: nat, p: nat)
    requires Pow2(n) == p
    ensures Pow2(n + n) == p * p
  {
    Pow2Split(n, n);
  }

  lemma Pow2Small()
    ensures Pow2(0) == 1 && Pow2(1) == 2 && Pow2(4) == 16
  {
    assert Pow2(2) == 4;
  }

  lemma Pow2Of32()
    ensures Pow2(8) == 0x100 && Pow2(16) == 0x1_0000 && Pow2(31) == 0x8000_0000 && Pow2(32) == 0x1_0000_0000
  {
    hide Pow2;
    Pow2Small();
    Pow2Double(4, 16);
    Pow2Double(8, 0x100);
    Pow2Double(16, 0x1_0000);
    Pow2Split(31, 1);
  }

  lemma MulLess(x: nat, y: nat, m: nat)
    requires x < y && m > 0
    ensures x * m + m <= y * m
  {
    assert (x + 1) * m <= y * m;
  }

  lemma MulLessInverse(x: nat, y: nat, m: nat)
    requires x * m < m * y
    ensures x < y
  {
  }

  lemma MulTwo(x: int, y: int)
    ensures x * (2 * y) == 2 * (x * y) == 2 * x * y
  {
  }

  lemma MulAssociates(x: int, y: int, z: int)
    ensures x * y * z == x * (y * z)
  {
  }

  lemma MulDistributes(x: int, y: int, z: int)
    ensures (x + y) * z == x * z + y * z
  {
  }

  /** Quotient and remainder are determined by their defining equation. */
  lemma DivModIs(x: nat, p: nat, q: nat, r: nat)
    requires p > 0 && x == p * q + r && r < p
    ensures x / p == q && x % p == r
  {
    assert x == p * (x / p) + x % p;
    if x / p < q {
      MulLess(x / p, q, p);
    }
    if q < x / p {
      MulLess(q, x / p, p);
    }
  }

  lemma {:induction false} Pow2Monotone(m: nat, n: nat)
    requires m <= n
    ensures Pow2(m) <= Pow2(n)
    decreases n - m
  {
    if m < n {
      Pow2Monotone(m + 1, n);
    }
  }

  function Pow10(n: nat): (p: nat)
    ensures p > 0
  {
    if n == 0 then 1 else 10 * Pow10(n - 1)
  }

  lemma {:induction false} Pow10Split(n: nat, k: nat)
    ensures Pow10(n) * Pow10(k) == Pow10(n + k)
  {
    if n > 0 {
      Pow10Split(n - 1, k);
      assert 10 * Pow10(n - 1) * Pow10(k) == 10 * (Pow10(n - 1) * Pow10(k));
    }
  }

  lemma {:induction false} Pow10BelowPow2(n: nat)
    ensures Pow10(n) <= Pow2(4 * n)
  {
    if n > 0 {
      Pow10BelowPow2(n - 1);
      assert Pow2(4 * n) == 2 * Pow2(4 * n - 1) == 4 * Pow2(4 * n - 2) == 8 * Pow2(4 * n - 3) == 16 * Pow2(4 * (n - 1));
    }
  }
}
