/** Bitwise operators on naturals, defined bit by bit, and their arithmetic meaning. */
module Bits {

  function Pow2(k: nat): (p: nat)
    ensures p > 0
  {
    if k == 0 then 1 else 2 * Pow2(k - 1)
  }

  function BitAnd(a: nat, b: nat): (r: nat)
    ensures r <= b
  {
    if a == 0 || b == 0 then 0
    else (if a % 2 == 1 && b % 2 == 1 then 1 else 0) + 2 * BitAnd(a / 2, b / 2)
  }

  function BitOr(a: nat, b: nat): nat
    decreases a + b
  {
    if a == 0 then b
    else if b == 0 then a
    else (if a % 2 == 1 || b % 2 == 1 then 1 else 0) + 2 * BitOr(a / 2, b / 2)
  }

  /** Whether bit `i` of `a` is set. */
  predicate BitAt(a: nat, i: nat)
    decreases i
  {
    if i == 0 then a % 2 == 1 else BitAt(a / 2, i - 1)
  }

  lemma {:induction false} Pow2Monotone(i: nat, j: nat)
    requires i <= j
    ensures Pow2(i) <= Pow2(j)
  {
    if i < j { Pow2Monotone(i, j - 1); }
  }

  lemma {:induction false} DoubleProduct(a: int, b: int)
    ensures 2 * (a * b) == (2 * a) * b
  {
  }

  lemma {:induction false} Pow2Add(i: nat, j: nat)
    ensures Pow2(i + j) == Pow2(i) * Pow2(j)
  {
    if i > 0 {
      Pow2Add(i - 1, j);
      var k := i + j;
      assert Pow2(k) == 2 * Pow2(k - 1) && k - 1 == (i - 1) + j;
      DoubleProduct(Pow2(i - 1), Pow2(j));
    }
  }

  /** Masking with 2^k - 1 is reduction modulo 2^k. */
  lemma {:induction false} MaskIsModulo(h: nat, k: nat)
    ensures BitAnd(h, Pow2(k) - 1) == h % Pow2(k)
    decreases k
  {
    if k > 0 {
      var p, m := Pow2(k - 1), Pow2(k) - 1;
      MaskIsModulo(h / 2, k - 1);
      HalveModulo(h, p);
      assert m % 2 == 1 && m / 2 == p - 1;
      assert h > 0 ==> BitAnd(h, m) == h % 2 + 2 * BitAnd(h / 2, m / 2);
    }
  }

  lemma {:induction false} HalveModulo(h: nat, p: nat)
    requires p > 0
    ensures h % (2 * p) == h % 2 + 2 * ((h / 2) % p)
  {
    var q, r := (h / 2) / p, (h / 2) % p;
    assert h == (2 * p) * q + (h % 2 + 2 * r);
    ModuloUnique(h, 2 * p, q, h % 2 + 2 * r);
  }

  lemma {:induction false} ModuloUnique(h: nat, n: nat, q: nat, r: nat)
    requires h == n * q + r && 0 <= r < n
    ensures h % n == r && h / n == q
  {
    var d := h / n - q;
    assert h == n * (h / n) + h % n;
    assert n * d == r - h % n;
    assert d >= 1 ==> n * d >= n;
    assert d <= -1 ==> n * d + n <= 0;
  }

  lemma {:induction false} BitAtZero(i: nat)
    ensures !BitAt(0, i)
    decreases i
  {
    if i > 0 { BitAtZero(i - 1); }
  }

  /** An OR with 2^k sets bit k and changes no other bit. */
  lemma {:induction false} OrSetsOneBit(a: nat, k: nat, i: nat)
    ensures BitAt(BitOr(a, Pow2(k)), i) == (i == k || BitAt(a, i))
    decreases k, i
  {
    if a == 0 {
      BitAtZero(i);
      BitOfPow2(k, i);
    } else if k == 0 {
      assert BitOr(a / 2, 0) == a / 2;
      assert BitOr(a, 1) / 2 == a / 2;
    } else {
      assert Pow2(k) / 2 == Pow2(k - 1) && Pow2(k) % 2 == 0;
      assert BitOr(a, Pow2(k)) / 2 == BitOr(a / 2, Pow2(k - 1));
      if i > 0 { OrSetsOneBit(a / 2, k - 1, i - 1); }
    }
  }

  lemma {:induction false} BitOfPow2(k: nat, i: nat)
    ensures BitAt(Pow2(k), i) == (i == k)
    decreases k, i
  {
    if k == 0 {
      if i > 0 { BitAtZero(i - 1); }
    } else {
      assert Pow2(k) / 2 == Pow2(k - 1) && Pow2(k) % 2 == 0;
      if i > 0 { BitOfPow2(k - 1, i - 1); }
    }
  }

  function ShiftRight(a: nat, k: nat): nat
    decreases k
  {
    if k == 0 then a else ShiftRight(a / 2, k - 1)
  }

  /** Shifting right by `k` and masking with one reads bit `k`. */
  lemma {:induction false} ShiftReadsBit(a: nat, k: nat)
    ensures (BitAnd(ShiftRight(a, k), 1) != 0) == BitAt(a, k)
    decreases k
  {
    if k == 0 {
      assert a > 0 ==> BitAnd(a, 1) == a % 2 + 2 * BitAnd(a / 2, 0);
    } else {
      ShiftReadsBit(a / 2, k - 1);
    }
  }

  /** An OR of two bytes is a byte. */
  lemma {:induction false} OrFits(a: nat, b: nat, k: nat)
    requires a < Pow2(k) && b < Pow2(k)
    ensures BitOr(a, b) < Pow2(k)
    decreases k
  {
    if k > 0 && a > 0 && b > 0 { OrFits(a / 2, b / 2, k - 1); }
  }

  /** The first value at or above `n` reached by doubling from `r`. */
  function DoubleUntil(r: nat, n: nat): (p: nat)
    requires r > 0
    ensures p >= n && p >= r
    decreases n - r
  {
    if r >= n then r else DoubleUntil(2 * r, n)
  }

  lemma {:induction false} DoubleUntilMonotone(r: nat, m: nat, n: nat)
    requires r > 0 && m <= n
    ensures DoubleUntil(r, m) <= DoubleUntil(r, n)
    ensures DoubleUntil(DoubleUntil(r, m), n) == DoubleUntil(r, n)
    decreases m - r
  {
    if r < m {
      DoubleUntilMonotone(2 * r, m, n);
    }
  }

  /** OR works bit by bit. */
  lemma {:induction false} OrBits(a: nat, b: nat, i: nat)
    ensures BitAt(BitOr(a, b), i) == (BitAt(a, i) || BitAt(b, i))
    decreases i
  {
    BitAtZero(i);
    if a > 0 && b > 0 && i > 0 {
      OrBits(a / 2, b / 2, i - 1);
    }
  }
}
