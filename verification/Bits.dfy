/** Fixed-width bit operations on natural numbers, each characterised bit by bit. */
module Bits {
  import opened Bytes
  import opened NumberTheory

  predicate Bit(a: nat, i: nat)
  {
    if i == 0 then a % 2 == 1 else Bit(a / 2, i - 1)
  }

  /** Bitwise and, or of the low n bits. */
  function AndBits(a: nat, b: nat, n: nat): nat
  {
    if n == 0 then 0 else (a % 2) * (b % 2) + 2 * AndBits(a / 2, b / 2, n - 1)
  }

  function OrBits(a: nat, b: nat, n: nat): nat
  {
    if n == 0 then 0 else (if a % 2 + b % 2 == 0 then 0 else 1) + 2 * OrBits(a / 2, b / 2, n - 1)
  }

  /** `a << s` in a word of n bits. */
  function ShiftLeft(a: nat, s: nat, n: nat): (r: nat)
    ensures r < Pow2(n)
  {
    a * Pow2(s) % Pow2(n)
  }

  lemma {:induction false} OrBound(a: nat, b: nat, n: nat)
    ensures OrBits(a, b, n) < Pow2(n)
  {
    if n != 0 { OrBound(a / 2, b / 2, n - 1); }
  }

  lemma {:induction false} BitOfOr(a: nat, b: nat, n: nat, i: nat)
    requires i < n
    ensures Bit(OrBits(a, b, n), i) <==> Bit(a, i) || Bit(b, i)
  {
    var rest := OrBits(a / 2, b / 2, n - 1);
    assert OrBits(a, b, n) / 2 == rest;
    if i != 0 { BitOfOr(a / 2, b / 2, n - 1, i - 1); }
  }

  lemma {:induction false} BitOfPow2(d: nat, i: nat)
    ensures Bit(Pow2(d), i) <==> i == d
  {
    if d == 0 {
      if i != 0 { ZeroHasNoBit(i - 1); }
    } else {
      assert Pow2(d) % 2 == 0 && Pow2(d) / 2 == Pow2(d - 1);
      if i != 0 { BitOfPow2(d - 1, i - 1); }
    }
  }

  lemma {:induction false} ZeroHasNoBit(i: nat)
    ensures !Bit(0, i)
  {
    if i != 0 { ZeroHasNoBit(i - 1); }
  }

  /** `a & (1 << d) != 0` tests bit d. */
  lemma {:induction false} AndTestsBit(a: nat, d: nat, n: nat)
    requires d < n
    ensures AndBits(a, Pow2(d), n) != 0 <==> Bit(a, d)
  {
    if d == 0 {
      AndWithZero(a / 2, n - 1);
      assert Pow2(0) % 2 == 1 && Pow2(0) / 2 == 0;
    } else {
      AndTestsBit(a / 2, d - 1, n - 1);
      assert Pow2(d) % 2 == 0 && Pow2(d) / 2 == Pow2(d - 1);
    }
  }

  lemma {:induction false} AndWithZero(a: nat, n: nat)
    ensures AndBits(a, 0, n) == 0
  {
    if n != 0 { AndWithZero(a / 2, n - 1); }
  }

  lemma {:induction false} BitOfProduct(a: nat, s: nat, i: nat)
    ensures Bit(a * Pow2(s), i) <==> s <= i && Bit(a, i - s)
  {
    if s == 0 {
      assert a * Pow2(0) == a;
    } else {
      DoubleProduct(a, s);
      if i != 0 { BitOfProduct(a, s - 1, i - 1); }
    }
  }

  lemma DoubleProduct(a: nat, s: nat)
    requires 0 < s
    ensures a * Pow2(s) % 2 == 0 && a * Pow2(s) / 2 == a * Pow2(s - 1)
  {
    assert a * Pow2(s) == 2 * (a * Pow2(s - 1));
  }

  lemma {:induction false} BitOfRemainder(a: nat, n: nat, i: nat)
    requires i < n
    ensures Bit(a % Pow2(n), i) <==> Bit(a, i)
  {
    HalveRemainder(a, n);
    if i != 0 { BitOfRemainder(a / 2, n - 1, i - 1); }
  }

  lemma HalveRemainder(a: nat, n: nat)
    requires 0 < n
    ensures a % Pow2(n) % 2 == a % 2 && a % Pow2(n) / 2 == a / 2 % Pow2(n - 1)
  {
    var p := Pow2(n - 1);
    var h, q, r := a / 2, a / 2 / p, a / 2 % p;
    assert h == q * p + r;
    assert a == q * (2 * p) + (2 * r + a % 2) by {
      assert a == 2 * h + a % 2;
      assert 2 * (q * p) == q * (2 * p);
    }
    QuotientUnique(a, 2 * p, q, 2 * r + a % 2);
  }

  lemma BitOfShift(a: nat, s: nat, n: nat, i: nat)
    requires i < n
    ensures Bit(ShiftLeft(a, s, n), i) <==> s <= i && Bit(a, i - s)
  {
    BitOfRemainder(a * Pow2(s), n, i);
    BitOfProduct(a, s, i);
  }
}
