/** Modular arithmetic shared by the password proof and the authorization handshake:
    congruences, powers, Euclid's lemma and Fermat's little theorem. */
module NumberTheory {

  // ---------------------------------------------------------------- congruences

  lemma QuotientUnique(n: int, m: int, q: int, r: int)
    requires 0 < m && 0 <= r < m && n == m * q + r
    ensures n / m == q && n % m == r
  {
    var d := n / m - q;
    assert m * d == r - n % m by {
      assert m * d == m * (n / m) - m * q;
    }
    if d > 0 {
      assert m * d == m + m * (d - 1);
      MulNonNegative(m, d - 1);
    } else if d < 0 {
      assert m * d == -m - m * (-d - 1);
      MulNonNegative(m, -d - 1);
    }
  }

  lemma MulNonNegative(a: int, b: int)
    requires 0 <= a && 0 <= b
    ensures 0 <= a * b
  {
  }

  /** Adding a multiple of the modulus does not change the remainder. */
  lemma ModShift(n: int, m: int, k: int)
    requires 0 < m
    ensures (n + m * k) % m == n % m
  {
    assert n + m * k == m * (n / m + k) + n % m by {
      assert m * (n / m + k) == m * (n / m) + m * k;
    }
    QuotientUnique(n + m * k, m, n / m + k, n % m);
  }

  /** Equal remainders are the same as a difference divisible by the modulus. */
  lemma ModEqualIff(a: int, b: int, m: int)
    requires 0 < m
    ensures a % m == b % m <==> (a - b) % m == 0
  {
    if a % m == b % m {
      assert a - b == m * (a / m - b / m) + 0 by {
        assert m * (a / m - b / m) == m * (a / m) - m * (b / m);
      }
      QuotientUnique(a - b, m, a / m - b / m, 0);
    }
    if (a - b) % m == 0 {
      ModShift(b, m, (a - b) / m);
      assert b + m * ((a - b) / m) == a;
    }
  }

  lemma ModAdd(a: int, b: int, m: int)
    requires 0 < m
    ensures (a + b) % m == (a % m + b) % m
    ensures (a + b) % m == (a % m + b % m) % m
  {
    assert a + b == (a % m + b) + m * (a / m);
    ModShift(a % m + b, m, a / m);
    assert a % m + b == (a % m + b % m) + m * (b / m);
    ModShift(a % m + b % m, m, b / m);
  }

  lemma ModMulLeft(a: int, b: int, m: int)
    requires 0 < m
    ensures (a * b) % m == ((a % m) * b) % m
  {
    var q, r := a / m, a % m;
    assert a * b == r * b + m * (q * b) by {
      assert (m * q + r) * b == m * q * b + r * b;
      assert m * q * b == m * (q * b);
    }
    ModShift(r * b, m, q * b);
  }

  lemma ModMul(a: int, b: int, m: int)
    requires 0 < m
    ensures (a * b) % m == ((a % m) * b) % m
    ensures (a * b) % m == (a * (b % m)) % m
    ensures (a * b) % m == ((a % m) * (b % m)) % m
  {
    ModMulLeft(a, b, m);
    ModMulLeft(b, a, m);
    assert a * b == b * a && (b % m) * a == a * (b % m);
    ModMulLeft(b, a % m, m);
    assert (a % m) * b == b * (a % m) && (b % m) * (a % m) == (a % m) * (b % m);
  }

  lemma ModSmall(a: int, m: int)
    requires 0 <= a < m
    ensures a % m == a
  {
    QuotientUnique(a, m, 0, a);
  }

  lemma ModMod(a: int, m: int)
    requires 0 < m
    ensures (a % m) % m == a % m
  {
    ModSmall(a % m, m);
  }

  // --------------------------------------------------------------------- powers

  function Pow(b: int, e: nat): int
  {
    if e == 0 then 1 else b * Pow(b, e - 1)
  }

  lemma {:induction false} PowAdd(b: int, e: nat, f: nat)
    ensures Pow(b, e + f) == Pow(b, e) * Pow(b, f)
  {
    if e == 0 {
      assert Pow(b, 0) == 1;
    } else {
      PowAdd(b, e - 1, f);
      assert Pow(b, e + f) == b * Pow(b, e - 1 + f);
      assert b * (Pow(b, e - 1) * Pow(b, f)) == b * Pow(b, e - 1) * Pow(b, f);
    }
  }

  lemma {:induction false} PowMul(b: int, e: nat, f: nat)
    ensures 0 <= e * f
    ensures Pow(b, e * f) == Pow(Pow(b, e), f)
  {
    MulNonNegative(e, f);
    if f == 0 {
      assert e * f == 0;
    } else {
      PowMul(b, e, f - 1);
      assert e * f == e + e * (f - 1);
      MulNonNegative(e, f - 1);
      PowAdd(b, e, e * (f - 1));
    }
  }

  lemma {:induction false} PowNonNegative(b: int, e: nat)
    requires 0 <= b
    ensures 0 <= Pow(b, e)
    ensures 0 < b ==> 0 < Pow(b, e)
  {
    if e != 0 {
      PowNonNegative(b, e - 1);
      MulNonNegative(b, Pow(b, e - 1));
    }
  }

  /** A power only depends on the remainder of its base. */
  lemma {:induction false} PowMod(b: int, e: nat, m: int)
    requires 0 < m
    ensures Pow(b, e) % m == Pow(b % m, e) % m
  {
    if e != 0 {
      PowMod(b, e - 1, m);
      ModMul(b, Pow(b, e - 1), m);
      ModMul(b % m, Pow(b % m, e - 1), m);
      ModMod(b, m);
    }
  }

  lemma PowModCongruent(a: int, b: int, e: nat, m: int)
    requires 0 < m && a % m == b % m
    ensures Pow(a, e) % m == Pow(b, e) % m
  {
    PowMod(a, e, m);
    PowMod(b, e, m);
  }

  lemma {:induction false} PowOfOne(e: nat)
    ensures Pow(1, e) == 1
  {
    if e != 0 { PowOfOne(e - 1); }
  }

  // --------------------------------------------------------------------- primes

  ghost predicate Prime(p: int)
  {
    2 <= p && forall d :: 2 <= d < p ==> p % d != 0
  }

  /** Euclid's lemma: a prime dividing a product divides one of the factors. */
  lemma EuclidLemma(p: int, a: int, b: int)
    requires Prime(p) && (a * b) % p == 0
    ensures a % p == 0 || b % p == 0
  {
    if a % p != 0 {
      ModMulLeft(a, b, p);
      EuclidReduced(p, a % p, b);
    }
  }

  lemma {:induction false} EuclidReduced(p: int, a: int, b: int)
    requires Prime(p) && 0 < a < p && (a * b) % p == 0
    ensures b % p == 0
    decreases a
  {
    if a > 1 {
      var q, r := p / a, p % a;
      assert r != 0;
      assert r * b == p * b - q * (a * b) by {
        assert (p - a * q) * b == p * b - a * q * b;
        assert a * q * b == q * (a * b);
      }
      var k := a * b / p;
      assert a * b == p * k;
      assert r * b == p * (b - q * k) + 0 by {
        assert q * (p * k) == p * (q * k);
        assert p * (b - q * k) == p * b - p * (q * k);
      }
      QuotientUnique(r * b, p, b - q * k, 0);
      EuclidReduced(p, r, b);
    }
  }

  /** Modulo a prime, only 1 and -1 square to 1. */
  lemma SquareRootsOfOne(p: int, w: int)
    requires Prime(p) && 0 <= w < p && (w * w) % p == 1
    ensures w == 1 || w == p - 1
  {
    ModSmall(1, p);
    ModEqualIff(w * w, 1, p);
    assert w * w - 1 == (w - 1) * (w + 1);
    EuclidLemma(p, w - 1, w + 1);
    if (w - 1) % p == 0 {
      ModEqualIff(w, 1, p);
      ModSmall(w, p);
    } else {
      assert (w + 1) % p == 0;
      if w + 1 < p { ModSmall(w + 1, p); }
    }
  }

  // ------------------------------------------------- Fermat's little theorem

  function Choose(n: nat, k: nat): nat
  {
    if k == 0 then 1 else if n == 0 then 0 else Choose(n - 1, k - 1) + Choose(n - 1, k)
  }

  lemma {:induction false} ChooseAbove(n: nat, k: nat)
    requires n < k
    ensures Choose(n, k) == 0
  {
    if n != 0 {
      ChooseAbove(n - 1, k - 1);
      ChooseAbove(n - 1, k);
    }
  }

  lemma {:induction false} ChooseAll(n: nat)
    ensures Choose(n, n) == 1
  {
    if n != 0 {
      ChooseAll(n - 1);
      ChooseAbove(n - 1, n);
    }
  }

  lemma AbsorbStep(n: int, k: int, a: int, b: int, c: int, d: int)
    requires a == c + d && k * b == (n - 1) * d && (k - 1) * a == (n - 1) * c
    ensures k * (a + b) == n * a
  {
    assert k * (a + b) == (k - 1) * a + a + k * b;
    assert (n - 1) * a == (n - 1) * c + (n - 1) * d;
  }

  /** The absorption identity k * C(n, k) = n * C(n-1, k-1). */
  lemma {:induction false} ChooseAbsorb(n: nat, k: nat)
    requires 0 < n && 0 < k
    ensures k * Choose(n, k) == n * Choose(n - 1, k - 1)
  {
    if n == 1 {
      if k > 1 { ChooseAbove(1, k); ChooseAbove(0, k - 1); }
    } else if k == 1 {
      ChooseAbsorb(n - 1, 1);
    } else {
      ChooseAbsorb(n - 1, k);
      ChooseAbsorb(n - 1, k - 1);
      AbsorbStep(n, k, Choose(n - 1, k - 1), Choose(n - 1, k), Choose(n - 2, k - 2), Choose(n - 2, k - 1));
    }
  }

  /** The first j terms of the binomial expansion of (a + 1)^n. */
  function BinomialSum(a: nat, n: nat, j: nat): int
  {
    if j == 0 then 0 else BinomialSum(a, n, j - 1) + Choose(n, j - 1) * Pow(a, j - 1)
  }

  lemma {:induction false} BinomialPascal(a: nat, n: nat, j: nat)
    requires 0 < n
    ensures BinomialSum(a, n, j + 1) == BinomialSum(a, n - 1, j + 1) + a * BinomialSum(a, n - 1, j)
  {
    if j == 0 {
      assert BinomialSum(a, n, 1) == Choose(n, 0) * Pow(a, 0) == 1;
      assert BinomialSum(a, n - 1, 1) == Choose(n - 1, 0) * Pow(a, 0) == 1;
    } else {
      BinomialPascal(a, n, j - 1);
      var c, d := Choose(n - 1, j - 1), Choose(n - 1, j);
      assert Choose(n, j) == c + d;
      PascalStep(a, c, d, Pow(a, j - 1), BinomialSum(a, n - 1, j - 1));
    }
  }

  lemma PascalStep(a: int, c: int, d: int, p: int, s: int)
    ensures (c + d) * (a * p) + a * s == d * (a * p) + a * (s + c * p)
  {
    assert (c + d) * (a * p) == c * (a * p) + d * (a * p);
    assert c * (a * p) == a * (c * p);
    assert a * (s + c * p) == a * s + a * (c * p);
  }

  lemma {:induction false} BinomialTheorem(a: nat, n: nat)
    ensures BinomialSum(a, n, n + 1) == Pow(a + 1, n)
  {
    if n == 0 {
      assert BinomialSum(a, 0, 1) == Choose(0, 0) * Pow(a, 0);
    } else {
      BinomialTheorem(a, n - 1);
      BinomialPascal(a, n, n);
      ChooseAbove(n - 1, n);
      assert BinomialSum(a, n - 1, n + 1) == BinomialSum(a, n - 1, n) + Choose(n - 1, n) * Pow(a, n);
      var s := Pow(a + 1, n - 1);
      hide BinomialSum, Choose;
      assert BinomialSum(a, n - 1, n + 1) == s;
      OneMore(a, s);
    }
  }

  lemma OneMore(a: int, s: int)
    ensures s + a * s == (a + 1) * s
  {
  }

  /** Every inner binomial coefficient of a prime is divisible by it. */
  lemma PrimeDividesChoose(p: int, k: nat)
    requires Prime(p) && 0 < k < p
    ensures Choose(p, k) % p == 0
  {
    ChooseAbsorb(p, k);
    var c := Choose(p - 1, k - 1);
    QuotientUnique(k * Choose(p, k), p, c, 0);
    EuclidLemma(p, k, Choose(p, k));
    ModSmall(k, p);
  }

  lemma AddMultiple(s: int, c: int, x: int, m: int)
    requires 0 < m && c % m == 0
    ensures (s + c * x) % m == s % m
  {
    assert c * x == m * (c / m * x) by {
      assert c == m * (c / m);
      assert m * (c / m) * x == m * (c / m * x);
    }
    ModShift(s, m, c / m * x);
  }

  /** The inner terms of the expansion vanish modulo a prime. */
  lemma {:induction false} BinomialSumModPrime(a: nat, p: int, j: nat)
    requires Prime(p) && 1 <= j <= p
    ensures BinomialSum(a, p, j) % p == 1
  {
    if j == 1 {
      assert BinomialSum(a, p, 1) == BinomialSum(a, p, 0) + Choose(p, 0) * Pow(a, 0) == 1;
      ModSmall(1, p);
    } else {
      BinomialSumModPrime(a, p, j - 1);
      PrimeDividesChoose(p, j - 1);
      AddMultiple(BinomialSum(a, p, j - 1), Choose(p, j - 1), Pow(a, j - 1), p);
    }
  }

  lemma {:induction false} FermatPower(a: nat, p: int)
    requires Prime(p)
    ensures Pow(a, p) % p == a % p
  {
    PowOfZero(p);
    hide Pow, BinomialSum;
    if a != 0 {
      FermatPower(a - 1, p);
      BinomialTheorem(a - 1, p);
      BinomialSumModPrime(a - 1, p, p);
      LastTerm(a - 1, p);
      SuccessorMod(BinomialSum(a - 1, p, p), Pow(a - 1, p), a, p);
    }
  }

  lemma PowOfZero(p: int)
    requires 0 < p
    ensures Pow(0, p) == 0
  {
    assert Pow(0, p) == 0 * Pow(0, p - 1);
  }

  lemma LastTerm(a: nat, n: nat)
    ensures BinomialSum(a, n, n + 1) == BinomialSum(a, n, n) + Pow(a, n)
  {
    ChooseAll(n);
    assert BinomialSum(a, n, n + 1) == BinomialSum(a, n, n) + Choose(n, n) * Pow(a, n);
  }

  lemma SuccessorMod(x: int, y: int, a: int, p: int)
    requires 1 < p && x % p == 1 && y % p == (a - 1) % p
    ensures (x + y) % p == a % p
  {
    ModAdd(x, y, p);
    ModAdd(1, a - 1, p);
    ModSmall(1, p);
  }

  /** Fermat's little theorem. */
  lemma Fermat(a: nat, p: int)
    requires Prime(p) && a % p != 0
    ensures Pow(a, p - 1) % p == 1
  {
    FermatPower(a, p);
    var x := Pow(a, p - 1);
    ModEqualIff(a * x, a, p);
    assert a * x - a == a * (x - 1);
    EuclidLemma(p, a, x - 1);
    ModEqualIff(x, 1, p);
    ModSmall(1, p);
  }
}
