/** Arithmetic of the authorization-key handshake: modular powers, the Miller-Rabin
    primality test, Pollard's rho and the factorization of the server's pq challenge. */
module Handshake {
  import opened Bytes
  import opened NumberTheory

  datatype HandshakeError =
    | InvalidPqEncoding(length: nat)
    | PqNotSemiprime(pq: u64)
    | PqFactorizationFailed(pq: u64)

  datatype FactoredPq = FactoredPq(pq: u64, p: u64, q: u64)
  datatype Factoring = Ok(value: FactoredPq) | Err(error: HandshakeError)
  datatype Decoding = Value(value: u64) | BadEncoding(error: HandshakeError)
  datatype Factor = Found(factor: u64) | NotFound

  const SMALL_PRIMES: seq<u64> := [2, 3, 5, 7, 11, 13, 17, 19, 23, 29, 31, 37]
  const BASES: seq<u64> := [2, 325, 9_375, 28_178, 450_775, 9_780_504, 1_795_265_022]

  // ----------------------------------------------------------- modular arithmetic

  function MultiplyMod(a: u64, b: u64, modulus: u64): (r: u64)
    requires 0 < modulus
    ensures r < modulus
  {
    MulNonNegative(a, b);
    (a * b) % modulus
  }

  function RhoStep(value: u64, constant: u64, modulus: u64): (r: u64)
    requires 0 < modulus
    ensures r < modulus
  {
    (MultiplyMod(value, value, modulus) + constant) % modulus
  }

  /** One bit of square-and-multiply keeps result * base^exponent modulo m. */
  lemma SquareAndMultiply(result: int, b: int, e: nat, m: int)
    requires 0 < m && 0 < e
    ensures e % 2 == 1 ==> (((result * b) % m) * Pow((b * b) % m, e / 2)) % m == (result * Pow(b, e)) % m
    ensures e % 2 == 0 ==> (result * Pow((b * b) % m, e / 2)) % m == (result * Pow(b, e)) % m
  {
    var h := e / 2;
    var s := Pow(b * b, h);
    assert Pow(b, 2) == b * Pow(b, 1) == b * b;
    PowMul(b, 2, h);
    PowMod(b * b, h, m);
    ModMul(result, s, m);
    ModMul(result, Pow((b * b) % m, h), m);
    if e % 2 == 1 {
      assert Pow(b, e) == b * Pow(b, 2 * h);
      assert result * (b * s) == result * b * s;
      ModMul(result * b, s, m);
      ModMul((result * b) % m, Pow((b * b) % m, h), m);
      ModMod(result * b, m);
    }
  }

  /** `power_mod`: modular exponentiation. With modulus 1 the loop never runs for
      exponent 0, and the answer is then 1 instead of the residue 0. */
  method PowerMod(base: u64, exponent: u64, modulus: u64) returns (result: u64)
    requires 0 < modulus
    ensures 1 < modulus || 0 < exponent ==> result == Pow(base, exponent) % modulus
    ensures modulus == 1 && exponent == 0 ==> result == 1
  {
    result := 1;
    var b: u64 := base % modulus;
    var e: u64 := exponent;
    PowMod(base, exponent, modulus);
    assert (result * Pow(b, e)) % modulus == Pow(base, exponent) % modulus;
    while e > 0
      invariant (result * Pow(b, e)) % modulus == Pow(base, exponent) % modulus
      invariant exponent == 0 ==> e == 0 && result == 1
      invariant result < modulus || (result == 1 && modulus == 1 && (e > 0 || exponent == 0))
    {
      SquareAndMultiply(result, b, e, modulus);
      if e % 2 == 1 {
        result := MultiplyMod(result, b, modulus);
      }
      b := MultiplyMod(b, b, modulus);
      e := e / 2;
    }
    assert result * Pow(b, e) == result;
    if result < modulus { ModSmall(result, modulus); }
  }

  // ------------------------------------------------- greatest common divisor

  ghost predicate CommonDivisor(d: int, a: int, b: int)
  {
    0 < d && a % d == 0 && b % d == 0
  }

  /** The greatest common divisor in the divisibility order; zero only for two zeros. */
  ghost predicate IsGcd(g: nat, a: nat, b: nat)
  {
    (g == 0 <==> a == 0 && b == 0) &&
    (g > 0 ==> CommonDivisor(g, a, b)) &&
    forall d :: CommonDivisor(d, a, b) ==> g % d == 0
  }

  lemma EuclidStep(d: int, a: nat, b: nat)
    requires 0 < b
    ensures CommonDivisor(d, a, b) <==> CommonDivisor(d, b, a % b)
  {
    if 0 < d && b % d == 0 {
      assert a == a % b + b * (a / b);
      AddMultiple(a % b, b, a / b, d);
    }
  }

  method GreatestCommonDivisor(a: u64, b: u64) returns (g: u64)
    ensures IsGcd(g, a, b)
  {
    var x, y := a, b;
    while y != 0
      invariant forall d :: CommonDivisor(d, a, b) <==> CommonDivisor(d, x, y)
      invariant x == 0 && y == 0 <==> a == 0 && b == 0
      decreases y
    {
      forall d
        ensures CommonDivisor(d, x, y) <==> CommonDivisor(d, y, x % y)
      {
        EuclidStep(d, x, y);
      }
      x, y := y, x % y;
    }
    g := x;
    if g > 0 { assert CommonDivisor(g, x, y); }
  }

  // ---------------------------------------------------------- primality test

  /** The exponent of 2 in n, Rust's `trailing_zeros` for a non-zero word. */
  function TrailingZeros(n: nat): nat
    requires 0 < n
  {
    if n % 2 == 1 then 0 else 1 + TrailingZeros(n / 2)
  }

  lemma {:induction false} TrailingZerosSplit(n: nat)
    requires 0 < n
    ensures n % Pow2(TrailingZeros(n)) == 0
    ensures n == (n / Pow2(TrailingZeros(n))) * Pow2(TrailingZeros(n))
  {
    if n % 2 == 0 {
      TrailingZerosSplit(n / 2);
      HalvingTwice(n, Pow2(TrailingZeros(n / 2)));
    }
  }

  lemma HalvingTwice(n: nat, d: nat)
    requires 0 < d && n % 2 == 0 && (n / 2) % d == 0
    ensures n % (2 * d) == 0 && n / (2 * d) == (n / 2) / d
    ensures n == (n / (2 * d)) * (2 * d)
  {
    var q := n / 2 / d;
    assert n / 2 == d * q;
    assert n == 2 * d * q + 0;
    QuotientUnique(n, 2 * d, q, 0);
  }

  /** The i-th entry of the squaring chain a^d, a^2d, a^4d, ... modulo v. */
  function Chain(a: nat, v: nat, i: nat): (r: nat)
    requires 1 < v
    ensures r < v
  {
    PowNonNegative(a, OddPart(v) * Pow2(i));
    Pow(a, OddPart(v) * Pow2(i)) % v
  }

  function OddPart(v: nat): nat
    requires 1 < v
  {
    (v - 1) / Pow2(TrailingZeros(v - 1))
  }

  /** v is a strong probable prime to base a. */
  ghost predicate StrongProbablePrime(a: nat, v: nat)
    requires 1 < v
  {
    Chain(a, v, 0) == 1 || exists i :: 0 <= i < TrailingZeros(v - 1) && Chain(a, v, i) == v - 1
  }

  /** What `is_prime` decides: trial division by twelve primes, then seven strong tests. */
  ghost predicate PassesPrimeTest(v: nat)
  {
    2 <= v &&
    (v in SMALL_PRIMES ||
     ((forall k :: 0 <= k < |SMALL_PRIMES| ==> v % SMALL_PRIMES[k] != 0) &&
      forall k :: 0 <= k < |BASES| ==> PassesBase(BASES[k], v)))
  }

  ghost predicate PassesBase(a: nat, v: nat)
    requires 2 <= v
  {
    a % v == 0 || StrongProbablePrime(a, v)
  }

  lemma ChainStart(a: nat, v: nat)
    requires 1 < v
    ensures Chain(a, v, 0) == Pow(a, OddPart(v)) % v
  {
    assert OddPart(v) * Pow2(0) == OddPart(v);
  }

  lemma ChainSquares(a: nat, v: nat, i: nat)
    requires 1 < v
    ensures Chain(a, v, i + 1) == (Chain(a, v, i) * Chain(a, v, i)) % v
  {
    var e := OddPart(v) * Pow2(i);
    assert OddPart(v) * Pow2(i + 1) == e + e;
    PowAdd(a, e, e);
    ModMul(Pow(a, e), Pow(a, e), v);
  }

  /** Over a prime modulus a chain that avoids 1 and -1 never reaches 1. */
  lemma {:induction false} ChainNeverOne(a: nat, v: nat, i: nat)
    requires Prime(v) && Chain(a, v, 0) != 1
    requires forall j :: 0 <= j < i ==> Chain(a, v, j) != v - 1
    ensures Chain(a, v, i) != 1
  {
    if i > 0 {
      ChainNeverOne(a, v, i - 1);
      ChainSquares(a, v, i - 1);
      if Chain(a, v, i) == 1 { SquareRootsOfOne(v, Chain(a, v, i - 1)); }
    }
  }

  lemma PrimeIsStrongProbablePrime(a: nat, v: nat)
    requires Prime(v) && a % v != 0
    ensures StrongProbablePrime(a, v)
  {
    if !StrongProbablePrime(a, v) {
      ChainNeverOne(a, v, TrailingZeros(v - 1));
      TrailingZerosSplit(v - 1);
      Fermat(a, v);
    }
  }

  /** Every true prime passes the test: `is_prime` has no false negatives. */
  lemma PrimePasses(v: nat)
    requires Prime(v)
    ensures PassesPrimeTest(v)
  {
    if v !in SMALL_PRIMES {
      forall k | 0 <= k < |SMALL_PRIMES|
        ensures v % SMALL_PRIMES[k] != 0
      {
        assert SMALL_PRIMES[k] in SMALL_PRIMES;
        if v < SMALL_PRIMES[k] { ModSmall(v, SMALL_PRIMES[k]); }
      }
      forall k | 0 <= k < |BASES|
        ensures PassesBase(BASES[k], v)
      {
        if BASES[k] % v != 0 { PrimeIsStrongProbablePrime(BASES[k], v); }
      }
    }
  }

  lemma MultipleOfSmallPrime(value: nat, k: nat)
    requires k < |SMALL_PRIMES| && value % SMALL_PRIMES[k] == 0
    requires forall j :: 0 <= j <= k ==> value != SMALL_PRIMES[j]
    ensures !PassesPrimeTest(value)
  {
    assert forall j :: k < j < |SMALL_PRIMES| ==> SMALL_PRIMES[j] % SMALL_PRIMES[k] != 0;
    assert SMALL_PRIMES[k] in SMALL_PRIMES;
  }

  datatype Trial = SmallPrime | SmallFactor | Inconclusive

  /** The trial-division loop of `is_prime`. */
  method TrialDivision(value: u64) returns (r: Trial)
    requires 2 <= value
    ensures r == SmallPrime ==> value in SMALL_PRIMES
    ensures r == SmallFactor ==> !PassesPrimeTest(value)
    ensures r == Inconclusive ==> value !in SMALL_PRIMES && value % 2 == 1
    ensures r == Inconclusive ==> forall k :: 0 <= k < |SMALL_PRIMES| ==> value % SMALL_PRIMES[k] != 0
  {
    for k := 0 to |SMALL_PRIMES|
      invariant forall j :: 0 <= j < k ==> value != SMALL_PRIMES[j] && value % SMALL_PRIMES[j] != 0
    {
      if value == SMALL_PRIMES[k] {
        return SmallPrime;
      }
      if value % SMALL_PRIMES[k] == 0 {
        MultipleOfSmallPrime(value, k);
        return SmallFactor;
      }
    }
    assert value % SMALL_PRIMES[0] != 0;
    return Inconclusive;
  }

  /** The loop of `is_prime` over the seven bases. */
  method StrongPhase(value: u64) returns (passes: bool)
    requires 1 < value && value % 2 == 1
    ensures passes <==> forall k :: 0 <= k < |BASES| ==> PassesBase(BASES[k], value)
  {
    var powersOfTwo := TrailingZeros(value - 1);
    var odd := OddPart(value);
    for k := 0 to |BASES|
      invariant forall j :: 0 <= j < k ==> PassesBase(BASES[j], value)
    {
      if BASES[k] % value != 0 {
        passes := StrongTest(BASES[k], value, odd, powersOfTwo);
        if !passes {
          return;
        }
      }
    }
    passes := true;
  }

  method IsPrime(value: u64) returns (prime: bool)
    ensures prime <==> PassesPrimeTest(value)
    ensures Prime(value) ==> prime
  {
    if Prime(value) { PrimePasses(value); }
    if value < 2 {
      return false;
    }
    var trial := TrialDivision(value);
    if trial == SmallPrime {
      return true;
    }
    if trial == SmallFactor {
      return false;
    }
    prime := StrongPhase(value);
  }

  /** The inner witness loop of `is_prime` for one base. */
  method StrongTest(a: u64, value: u64, odd: u64, powersOfTwo: nat) returns (passes: bool)
    requires 1 < value && value % 2 == 1 && powersOfTwo == TrailingZeros(value - 1) && odd == OddPart(value)
    ensures passes <==> StrongProbablePrime(a, value)
  {
    var power := PowerMod(a, odd, value);
    ChainStart(a, value);
    if power == 1 || power == value - 1 {
      return true;
    }
    var i := 1;
    while i < powersOfTwo
      invariant 1 <= i && (i <= powersOfTwo || i == 1)
      invariant power == Chain(a, value, i - 1)
      invariant forall j :: 0 <= j < i ==> Chain(a, value, j) != value - 1
    {
      ChainSquares(a, value, i - 1);
      power := MultiplyMod(power, power, value);
      if power == value - 1 {
        return true;
      }
      i := i + 1;
    }
    return false;
  }

  // ------------------------------------------------------------- factorization

  function AbsDiff(x: u64, y: u64): u64
  {
    if x < y then y - x else x - y
  }

  /** The orbit of 2 under squaring and adding a constant. */
  function Orbit(n: nat, c: nat, k: nat): nat
    requires 0 < n
  {
    if k == 0 then 2
    else
      var x := Orbit(n, c, k - 1);
      MulNonNegative(x, x);
      (x * x + c) % n
  }

  /** How far the orbit at r is from the orbit at twice r. */
  function Gap(n: nat, c: nat, r: nat): nat
    requires 0 < n
  {
    var x, y := Orbit(n, c, r), Orbit(n, c, 2 * r);
    if x < y then y - x else x - y
  }

  const ROUNDS: nat := 1_000_000

  /** The gap first shares a factor with n in round r, and that factor d is proper. */
  ghost predicate SplitsAt(n: nat, c: nat, d: nat, r: nat)
    requires 0 < n
  {
    1 <= r <= ROUNDS && IsGcd(d, Gap(n, c, r), n) && d != 1 && d != n &&
    forall q: nat :: 1 <= q < r ==> IsGcd(1, Gap(n, c, q), n)
  }

  ghost predicate Splits(n: nat, c: nat, d: nat)
    requires 0 < n
  {
    exists r: nat :: SplitsAt(n, c, d, r)
  }

  lemma GcdUnique(g: nat, h: nat, a: nat, b: nat)
    requires 0 < b && IsGcd(g, a, b) && IsGcd(h, a, b)
    ensures g == h
  {
    assert CommonDivisor(g, a, b) && CommonDivisor(h, a, b);
    DivisorAtMost(g, h);
    DivisorAtMost(h, g);
  }

  lemma OrbitStep(n: u64, c: u64, k: nat, x: u64)
    requires 0 < n && Orbit(n, c, k) == x
    ensures RhoStep(x, c, n) == Orbit(n, c, k + 1)
  {
    MulNonNegative(x, x);
    ModAdd(x * x, c, n);
  }

  /** Coprime up to round r and then a gap that n divides: this constant does not split n. */
  lemma NoSplit(n: nat, c: nat, r: nat, d: nat)
    requires 0 < n && (forall q: nat :: 1 <= q < r ==> IsGcd(1, Gap(n, c, q), n))
    requires (r > ROUNDS) || (1 <= r && n != 1 && IsGcd(n, Gap(n, c, r), n))
    ensures !Splits(n, c, d)
  {
    hide Gap, Orbit, IsGcd;
    if Splits(n, c, d) {
      var t: nat :| SplitsAt(n, c, d, t);
      if t < r { GcdUnique(1, d, Gap(n, c, t), n); }
      if t == r { GcdUnique(n, d, Gap(n, c, t), n); }
      if r < t { GcdUnique(1, n, Gap(n, c, r), n); }
    }
  }

  /** The inner loop for one constant: the factor of the first common round, if it is proper. */
  method RhoWalk(value: u64, constant: u64) returns (r: Factor)
    requires 0 < value
    ensures r.Found? ==> Splits(value, constant, r.factor)
    ensures r.NotFound? ==> forall d :: !Splits(value, constant, d)
  {
    var x: u64, y: u64 := 2, 2;
    var round := 0;
    while round < ROUNDS
      invariant 0 <= round <= ROUNDS && x == Orbit(value, constant, round) && y == Orbit(value, constant, 2 * round)
      invariant forall q: nat :: 1 <= q <= round ==> IsGcd(1, Gap(value, constant, q), value)
    {
      OrbitStep(value, constant, round, x);
      x := RhoStep(x, constant, value);
      OrbitStep(value, constant, 2 * round, y);
      y := RhoStep(y, constant, value);
      OrbitStep(value, constant, 2 * round + 1, y);
      y := RhoStep(y, constant, value);
      assert 2 * (round + 1) == 2 * round + 1 + 1;
      var divisor := GreatestCommonDivisor(AbsDiff(x, y), value);
      assert AbsDiff(x, y) == Gap(value, constant, round + 1);
      if divisor != 1 {
        if divisor != value {
          assert SplitsAt(value, constant, divisor, round + 1);
          return Found(divisor);
        }
        forall d
          ensures !Splits(value, constant, d)
        {
          NoSplit(value, constant, round + 1, d);
        }
        return NotFound;
      }
      round := round + 1;
    }
    forall d
      ensures !Splits(value, constant, d)
    {
      NoSplit(value, constant, ROUNDS + 1, d);
    }
    return NotFound;
  }

  /** Pollard's rho with the source's iteration limits: 2 and 3 first, then the first of the
      constants 1 to 128 that splits the value; it fails only if none does. */
  method PollardRhoFactor(value: u64) returns (r: Factor)
    ensures r.Found? ==> 2 <= r.factor && value % r.factor == 0
    ensures r.Found? && 4 <= value ==> r.factor < value
    ensures value % 2 == 0 ==> r == Found(2)
    ensures value % 2 != 0 && value % 3 == 0 ==> r == Found(3)
    ensures value % 2 != 0 && value % 3 != 0 && r.Found? ==>
      exists c: u64 :: 1 <= c <= 128 && Splits(value, c, r.factor) &&
        forall b: u64, d :: 1 <= b < c ==> !Splits(value, b, d)
    ensures r.NotFound? ==>
      value % 2 != 0 && value % 3 != 0 && forall c: u64, d :: 1 <= c <= 128 ==> !Splits(value, c, d)
  {
    if value % 2 == 0 {
      return Found(2);
    }
    if value % 3 == 0 {
      return Found(3);
    }
    var constant: u64 := 1;
    while constant <= 128
      invariant 1 <= constant <= 129
      invariant forall c: u64, d :: 1 <= c < constant ==> !Splits(value, c, d)
      decreases 129 - constant
    {
      r := RhoWalk(value, constant);
      if r.Found? {
        ProperFactor(value, constant, r.factor);
        return;
      }
      constant := constant + 1;
    }
    return NotFound;
  }

  lemma ProperFactor(n: nat, c: nat, d: nat)
    requires 0 < n && Splits(n, c, d)
    ensures 2 <= d < n && n % d == 0
  {
    var r: nat :| SplitsAt(n, c, d, r);
    assert CommonDivisor(d, Gap(n, c, r), n);
    DivisorAtMost(d, n);
  }

  /** A product of two primes splits in no other way. */
  lemma SemiprimeSplit(p: int, q: int, f: int, g: int)
    requires Prime(p) && Prime(q) && f * g == p * q && 1 < f && 1 < g
    ensures (f == p && g == q) || (f == q && g == p)
  {
    QuotientUnique(f * g, p, q, 0);
    EuclidLemma(p, f, g);
    if f % p == 0 {
      Cofactor(p, q, f, g);
    } else {
      assert g * f == p * q;
      Cofactor(p, q, g, f);
    }
  }

  lemma Cofactor(p: int, q: int, f: int, g: int)
    requires Prime(p) && Prime(q) && f * g == p * q && 1 < f && 1 < g && f % p == 0
    ensures f == p && g == q
  {
    var k := f / p;
    assert f == p * k;
    assert p * (k * g) == p * q by { assert p * k * g == p * (k * g); }
    CancelFactor(p, k * g, q);
    assert k >= 1;
    QuotientUnique(q, g, k, 0);
    DivisorAtMost(g, q);
    assert g == q;
    CancelFactor(g, k, 1);
  }

  lemma CancelFactor(p: int, a: int, b: int)
    requires 0 < p && p * a == p * b
    ensures a == b
  {
    QuotientUnique(p * a, p, a, 0);
    QuotientUnique(p * a, p, b, 0);
  }

  lemma DivisorSplits(d: nat, n: nat)
    requires 2 <= d < n && n % d == 0
    ensures 2 <= n / d < n && d * (n / d) == n && (n / d) * d == n
  {
    var q := n / d;
    assert q != 0 && q != 1;
    assert d * q == q + (d - 1) * q;
    MulNonNegative(d - 1, q - 1);
    assert (d - 1) * q == (d - 1) * (q - 1) + d - 1;
  }

  lemma DivisorAtMost(d: nat, n: nat)
    requires 0 < d && 0 < n && n % d == 0
    ensures d <= n
  {
    if n < d { ModSmall(n, d); }
  }

  // ---------------------------------------------------- big-endian encodings

  function DecodeUnsignedBe(s: bytes): Decoding
  {
    if s == [] || |s| > 8 then BadEncoding(InvalidPqEncoding(|s|))
    else
      BeValueBound(s);
      RangeWidths();
      RangeMonotone(|s|, 8);
      Value(BeValue(s))
  }

  /** Position of the first non-zero byte, or the last position. */
  function FirstNonZero(s: bytes): (k: nat)
    requires s != []
    ensures k < |s|
    ensures forall j :: 0 <= j < k ==> s[j] == 0
    ensures k == |s| - 1 || s[k] != 0
  {
    if s[0] != 0 || |s| == 1 then 0 else 1 + FirstNonZero(s[1..])
  }

  function UnsignedBeBytes(value: u64): bytes
  {
    var all := BeBytes(value, 8);
    all[FirstNonZero(all)..]
  }

  ghost predicate MinimalBe(s: bytes)
  {
    1 <= |s| <= 8 && (|s| == 1 || s[0] != 0)
  }

  lemma {:induction false} DropZeros(s: bytes, k: nat)
    requires k <= |s| && forall j :: 0 <= j < k ==> s[j] == 0
    ensures BeValue(s[k..]) == BeValue(s)
  {
    if k == 0 {
      assert s[0..] == s;
    } else {
      assert s == [0] + s[1..];
      BeLeadingZero(s[1..]);
      DropZeros(s[1..], k - 1);
      assert s[k..] == s[1..][k - 1..];
    }
  }

  /** Encoding is minimal and decodes back; on minimal strings decoding encodes back. */
  lemma BeEncodingRoundTrip(value: u64)
    ensures MinimalBe(UnsignedBeBytes(value))
    ensures DecodeUnsignedBe(UnsignedBeBytes(value)) == Value(value)
  {
    var all := BeBytes(value, 8);
    RangeWidths();
    BeRoundTrip(value, 8);
    DropZeros(all, FirstNonZero(all));
  }

  lemma {:induction false} SameMinimal(s: bytes, t: bytes)
    requires MinimalBe(s) && MinimalBe(t) && BeValue(s) == BeValue(t)
    ensures s == t
  {
    if |s| < |t| {
      BeValueBound(s);
      BeLeadingNonZero(t);
      RangeMonotone(|s|, |t| - 1);
    } else if |t| < |s| {
      BeValueBound(t);
      BeLeadingNonZero(s);
      RangeMonotone(|t|, |s| - 1);
    }
    BeRoundTripBytes(s);
    BeRoundTripBytes(t);
  }

  lemma BeDecodingRoundTrip(s: bytes)
    requires DecodeUnsignedBe(s).Value?
    ensures UnsignedBeBytes(DecodeUnsignedBe(s).value) == s <==> MinimalBe(s)
  {
    var v := DecodeUnsignedBe(s).value;
    BeEncodingRoundTrip(v);
    if MinimalBe(s) { SameMinimal(s, UnsignedBeBytes(v)); }
  }

  ghost predicate IsSemiprime(n: int)
  {
    exists p, q :: Prime(p) && Prime(q) && n == p * q
  }

  /** Whatever factors of a product of two primes were found, both pass the test. */
  lemma FactorsPass(n: nat, f: nat, g: nat)
    requires IsSemiprime(n) && 1 < f && 1 < g && f * g == n
    ensures PassesPrimeTest(f) && PassesPrimeTest(g) && 4 <= n
  {
    hide PassesPrimeTest;
    var p, q :| Prime(p) && Prime(q) && n == p * q;
    SemiprimeSplit(p, q, f, g);
    PrimePasses(f);
    PrimePasses(g);
    MulNonNegative(f - 2, g - 2);
    assert (f - 2) * (g - 2) == n - 2 * f - 2 * g + 4;
  }

  /** `factor_res_pq`: an accepted challenge is the ordered product of two numbers that
      pass the prime test; a prime or tiny challenge is always refused, and a product of two
      primes is refused only if rho fails on it. */
  method FactorResPq(pqBytes: bytes) returns (r: Factoring)
    ensures r.Ok? ==>
      var f := r.value;
      f.pq == BeValue(pqBytes) && f.p * f.q == f.pq && 1 < f.p <= f.q &&
      PassesPrimeTest(f.p) && PassesPrimeTest(f.q) && !PassesPrimeTest(f.pq)
    ensures (r.Err? && r.error.InvalidPqEncoding?) <==> !(1 <= |pqBytes| <= 8)
    ensures 1 <= |pqBytes| <= 8 && (BeValue(pqBytes) < 4 || Prime(BeValue(pqBytes))) ==>
      r.Err? && r.error.PqNotSemiprime? && r.error.pq == BeValue(pqBytes)
    ensures r.Err? && r.error.PqFactorizationFailed? ==>
      var pq := BeValue(pqBytes); pq % 2 != 0 && pq % 3 != 0 && forall c: u64, d :: 1 <= c <= 128 ==> !Splits(pq, c, d)
    ensures 1 <= |pqBytes| <= 8 && IsSemiprime(BeValue(pqBytes)) && !PassesPrimeTest(BeValue(pqBytes)) ==>
      !(r.Err? && r.error.PqNotSemiprime?)
  {
    var decoded := DecodeUnsignedBe(pqBytes);
    if decoded.BadEncoding? {
      return Err(decoded.error);
    }
    var pq := decoded.value;
    var pqPrime := IsPrime(pq);
    if pq < 4 || pqPrime {
      return Err(PqNotSemiprime(pq));
    }
    var found := PollardRhoFactor(pq);
    if found.NotFound? {
      return Err(PqFactorizationFailed(pq));
    }
    var factor := found.factor;
    var other := pq / factor;
    DivisorSplits(factor, pq);
    if IsSemiprime(pq) { FactorsPass(pq, factor, other); }
    if factor == 1 || other == 1 || factor * other != pq {
      return Err(PqFactorizationFailed(pq));
    }
    var factorPrime := IsPrime(factor);
    if !factorPrime {
      return Err(PqNotSemiprime(pq));
    }
    var otherPrime := IsPrime(other);
    if !otherPrime {
      return Err(PqNotSemiprime(pq));
    }
    if factor < other {
      return Ok(FactoredPq(pq, factor, other));
    } else {
      return Ok(FactoredPq(pq, other, factor));
    }
  }
}
