/** Telegram's two-step verification: the client side of the SRP password proof, and
    its agreement with the server side (sections 2.5.3 and 2.6 of RFC 5054). */
module Srp {
  import opened Bytes
  import opened NumberTheory

  /** SHA-256 as an arbitrary function with 32-byte results. */
  type Digest = f: bytes -> bytes | forall s: bytes :: |f(s)| == 32
    ghost witness ((s: bytes) => seq(32, i => 0))

  /** PBKDF2 with the source's fixed iteration count, from secret and salt. */
  type Kdf = (bytes, bytes) -> bytes

  datatype Parameters = Parameters(
    srpId: i64, salt1: bytes, salt2: bytes, generator: i32, prime: bytes, serverB: bytes)

  datatype Proof = Proof(srpId: i64, a: bytes, m1: bytes)

  datatype SrpError =
    | EmptyPassword
    | InvalidPrimeOrGenerator
    | InvalidServerB
    | InvalidRandomExponent
    | RandomnessUnavailable

  datatype Outcome = Ok(proof: Proof) | Err(error: SrpError)

  /** What the random source did: filled the 256-byte buffer or failed. */
  datatype Randomness = Filled(data: bytes) | Failed

  // -------------------------------------------------------------- 256-byte padding

  /** The shortest big-endian form, one zero byte for zero. */
  function MinimalBytes(v: nat): (s: bytes)
    ensures s != []
  {
    if v < 256 then [v] else MinimalBytes(v / 256) + [v % 256]
  }

  /** `padded_256`: right-aligned in 256 bytes, keeping the low bytes of anything longer. */
  function Padded256(v: nat): (s: bytes)
    ensures |s| == 256
  {
    var all := MinimalBytes(v);
    if |all| <= 256 then Zeros(256 - |all|) + all else all[|all| - 256..]
  }

  lemma {:induction false} BeBytesOfZero(n: nat)
    ensures BeBytes(0, n) == Zeros(n)
  {
    if n != 0 { BeBytesOfZero(n - 1); }
  }

  lemma {:induction false} BeBytesByMinimal(v: nat, n: nat)
    ensures BeBytes(v, n) ==
      var all := MinimalBytes(v); if |all| <= n then Zeros(n - |all|) + all else all[|all| - n..]
  {
    if n != 0 {
      if v < 256 {
        assert v / 256 == 0 && v % 256 == v;
        BeBytesOfZero(n - 1);
      } else {
        BeBytesByMinimal(v / 256, n - 1);
      }
    }
  }

  /** Padding loses nothing exactly on the values below 2^2048. */
  lemma Padded256Lossless(v: nat)
    ensures BeValue(Padded256(v)) == v <==> v < Range(256)
  {
    BeBytesByMinimal(v, 256);
    if v < Range(256) {
      BeRoundTrip(v, 256);
    } else {
      BeValueBound(Padded256(v));
    }
  }

  // ------------------------------------------------------------ hashes of the proof

  function PasswordHash(sha: Digest, kdf: Kdf, password: bytes, salt1: bytes, salt2: bytes): bytes
  {
    var first := sha(salt1 + password + salt1);
    var second := sha(salt2 + first + salt2);
    sha(salt2 + kdf(second, salt1) + salt2)
  }

  /** The evidence message both sides hash, from the public values and the shared secret. */
  function Evidence(sha: Digest, p: Parameters, clientA: nat, shared: nat): bytes
    requires 0 <= p.generator
  {
    var mask := Xor(sha(p.prime), sha(Padded256(p.generator)));
    sha(mask + sha(p.salt1) + sha(p.salt2) + Padded256(clientA) + Padded256(BeValue(p.serverB)) +
        sha(Padded256(shared)))
  }

  /** The scrambling value u, from the public values as transmitted. */
  function Scramble(sha: Digest, clientA: nat, serverB: nat): nat
  {
    BeValue(sha(Padded256(clientA) + Padded256(serverB)))
  }

  /** The multiplier k. */
  function Multiplier(sha: Digest, p: Parameters): nat
    requires 0 <= p.generator
  {
    BeValue(sha(p.prime + Padded256(p.generator)))
  }

  // --------------------------------------------------------------- the server side

  /** The verifier the server stores instead of the password. */
  function Verifier(g: nat, x: nat, n: nat): nat
    requires 0 < n
  {
    PowNonNegative(g, x);
    Pow(g, x) % n
  }

  /** The public value of a server whose secret exponent is b. */
  function ServerPublic(k: nat, v: nat, g: nat, b: nat, n: nat): nat
    requires 0 < n
  {
    PowNonNegative(g, b);
    MulNonNegative(k, v);
    (k * v + Pow(g, b)) % n
  }

  /** The secret the server derives from the client's public value. */
  function ServerSecret(a: nat, v: nat, u: nat, b: nat, n: nat): nat
    requires 0 < n
  {
    PowNonNegative(v, u);
    MulNonNegative(a, Pow(v, u));
    PowNonNegative(a * Pow(v, u), b);
    Pow(a * Pow(v, u), b) % n
  }

  /** The secret the client derives, as `compute_password_srp_proof_with_random` does. */
  function ClientSecret(serverB: nat, k: nat, v: nat, a: nat, u: nat, x: nat, n: nat): (s: nat)
    requires 0 < n
    ensures s < n
  {
    MulNonNegative(k, v);
    MulNonNegative(u, x);
    var kv := (k * v) % n;
    assert kv < serverB + n;  // the subtraction never underflows
    var base := (serverB + n - kv) % n;
    PowNonNegative(base, a + u * x);
    Pow(base, a + u * x) % n
  }

  /** The client's base is the server's g^b: the blinding k*v cancels. */
  lemma BlindingCancels(k: nat, v: nat, g: nat, b: nat, n: nat)
    requires 0 < n
    ensures (ServerPublic(k, v, g, b, n) + n - (k * v) % n) % n == Pow(g, b) % n
  {
    hide Pow;
    Unblind(k * v, Pow(g, b), n);
  }

  lemma Unblind(t: int, y: int, n: int)
    requires 0 < n
    ensures ((t + y) % n + n - t % n) % n == y % n
  {
    var q, p := (t + y) / n, t / n;
    Distribute(n, p, q);
    assert (t + y) % n == t + y - n * q && t % n == t - n * p;
    ModShift(y, n, 1 + p - q);
  }

  lemma Distribute(n: int, p: int, q: int)
    ensures n * (1 + p - q) == n + n * p - n * q
  {
  }

  /** Both sides derive the same secret, for all exponents, multipliers, generators and
      moduli. */
  lemma SecretsAgree(g: nat, x: nat, a: nat, b: nat, k: nat, u: nat, n: nat)
    requires 0 < n
    ensures var v := Verifier(g, x, n);
      ClientSecret(ServerPublic(k, v, g, b, n), k, v, a, u, x, n) ==
      ServerSecret(Verifier(g, a, n), v, u, b, n)
  {
    var v := Verifier(g, x, n);
    var clientA := Verifier(g, a, n);
    MulNonNegative(u, x);
    var e := a + u * x;
    var base := (ServerPublic(k, v, g, b, n) + n - (k * v) % n) % n;
    BlindingCancels(k, v, g, b, n);
    ModMod(ServerPublic(k, v, g, b, n) + n - (k * v) % n, n);
    PowModCongruent(base, Pow(g, b), e, n);
    // the server's base is congruent to g^(a + u*x)
    PowModCongruent(v, Pow(g, x), u, n) by { ModMod(Pow(g, x), n); }
    PowMul(g, x, u);
    assert x * u == u * x;
    PowAdd(g, a, u * x);
    ModMul(clientA, Pow(v, u), n);
    ModMul(Pow(g, a), Pow(g, u * x), n);
    ModMod(Pow(g, a), n);
    PowModCongruent(clientA * Pow(v, u), Pow(g, e), b, n);
    // exponents commute
    PowMul(g, b, e);
    PowMul(g, e, b);
    assert b * e == e * b;
  }

  // --------------------------------------------------------------- the client side

  /** `validate_prime_generator`: only the built-in prime, with a generator of the
      right quadratic residue class. */
  predicate TrustedGroup(trusted: bytes, prime: bytes, generator: i32)
  {
    prime == trusted &&
    var n := BeValue(prime);
    match generator
    case 2 => n % 8 == 7
    case 3 => n % 3 == 2
    case 4 => true
    case 5 => n % 5 == 1 || n % 5 == 4
    case 6 => n % 24 == 19 || n % 24 == 23
    case 7 => n % 7 == 3 || n % 7 == 5 || n % 7 == 6
    case _ => false
  }

  predicate AcceptableServerB(p: Parameters)
  {
    248 <= |p.serverB| <= 256 && 0 < BeValue(p.serverB) < BeValue(p.prime)
  }

  /** The proof carries the evidence every honest server computes: one that stores the
      verifier of x and chose its public value with any secret exponent b. */
  ghost predicate ConvincesHonestServer(sha: Digest, p: Parameters, x: nat, proof: Proof)
    requires 0 <= p.generator && 0 < BeValue(p.prime)
  {
    var n := BeValue(p.prime);
    var v := Verifier(p.generator, x, n);
    var clientA := BeValue(proof.a);
    forall b: nat :: BeValue(p.serverB) == ServerPublic(Multiplier(sha, p), v, p.generator, b, n) ==>
      proof.m1 ==
      Evidence(sha, p, clientA, ServerSecret(clientA, v, Scramble(sha, clientA, BeValue(p.serverB)), b, n))
  }

  /** The client's own evidence convinces. */
  lemma EvidenceConvinces(sha: Digest, p: Parameters, x: nat, exponent: nat, proof: Proof)
    requires 0 <= p.generator && 0 < BeValue(p.prime)
    requires BeValue(proof.a) == Verifier(p.generator, exponent, BeValue(p.prime))
    requires var n := BeValue(p.prime);
      var clientA := BeValue(proof.a);
      var u := Scramble(sha, clientA, BeValue(p.serverB));
      proof.m1 == Evidence(sha, p, clientA,
        ClientSecret(BeValue(p.serverB), Multiplier(sha, p), Verifier(p.generator, x, n), exponent, u, x, n))
    ensures ConvincesHonestServer(sha, p, x, proof)
  {
    var n := BeValue(p.prime);
    var v := Verifier(p.generator, x, n);
    var u := Scramble(sha, BeValue(proof.a), BeValue(p.serverB));
    forall b: nat | BeValue(p.serverB) == ServerPublic(Multiplier(sha, p), v, p.generator, b, n)
      ensures ClientSecret(BeValue(p.serverB), Multiplier(sha, p), v, exponent, u, x, n) ==
        ServerSecret(BeValue(proof.a), v, u, b, n)
    {
      SecretsAgree(p.generator, x, exponent, b, Multiplier(sha, p), u, n);
    }
  }

  method XorInPlace(left: bytes, right: bytes) returns (r: bytes)
    requires |left| == |right|
    ensures r == Xor(left, right)
  {
    r := left;
    var i := 0;
    while i < |r|
      invariant 0 <= i <= |r| == |left|
      invariant forall j :: 0 <= j < i ==> r[j] == XorByte(left[j], right[j])
      invariant forall j :: i <= j < |r| ==> r[j] == left[j]
    {
      r := r[i := XorByte(r[i], right[i])];
      i := i + 1;
    }
  }

  /** The client's proof. Every refusal has exactly the stated cause, checked in this
      order; and an accepted exchange with any honest server (one whose B comes from the
      verifier of this password and some secret exponent b) yields the evidence that
      server computes on its own. */
  method ComputeProof(sha: Digest, kdf: Kdf, trusted: bytes, password: bytes, p: Parameters, random: Randomness)
    returns (r: Outcome)
    requires |trusted| == 256
    requires random.Filled? ==> |random.data| == 256
    ensures r == Err(EmptyPassword) <==> password == []
    ensures r == Err(InvalidPrimeOrGenerator) <==>
      password != [] && !TrustedGroup(trusted, p.prime, p.generator)
    ensures r == Err(InvalidServerB) <==>
      password != [] && TrustedGroup(trusted, p.prime, p.generator) && !AcceptableServerB(p)
    ensures r.Ok? <==>
      password != [] && TrustedGroup(trusted, p.prime, p.generator) && AcceptableServerB(p) &&
      random.Filled? && BeValue(random.data) != 0
    ensures r.Ok? ==> r.proof.srpId == p.srpId && |r.proof.a| == 256
    ensures r.Ok? ==> BeValue(r.proof.a) == Verifier(p.generator, BeValue(random.data), BeValue(p.prime))
    ensures r.Ok? ==>
      ConvincesHonestServer(sha, p, BeValue(PasswordHash(sha, kdf, password, p.salt1, p.salt2)), r.proof)
  {
    hide ConvincesHonestServer, PasswordHash, Padded256, BeValue;
    if password == [] {
      return Err(EmptyPassword);
    }
    if !TrustedGroup(trusted, p.prime, p.generator) {
      return Err(InvalidPrimeOrGenerator);
    }
    if !(248 <= |p.serverB| <= 256) {
      return Err(InvalidServerB);
    }
    var prime := BeValue(p.prime);
    var serverB := BeValue(p.serverB);
    if serverB == 0 || serverB >= prime {
      return Err(InvalidServerB);
    }
    var generator: nat := p.generator;
    var x := BeValue(PasswordHash(sha, kdf, password, p.salt1, p.salt2));
    if random.Failed? {
      return Err(RandomnessUnavailable);
    }
    var exponent := BeValue(random.data);
    if exponent == 0 {
      return Err(InvalidRandomExponent);
    }
    var clientA := Verifier(generator, exponent, prime);
    var clientAPadded := Padded256(clientA);
    BeValueBound(p.prime);
    Padded256Lossless(clientA);
    var u := BeValue(sha(clientAPadded + Padded256(serverB)));
    var k := BeValue(sha(p.prime + Padded256(generator)));
    var verifier := Verifier(generator, x, prime);
    var shared := ClientSecret(serverB, k, verifier, exponent, u, x, prime);
    var sessionKey := sha(Padded256(shared));
    var mask := XorInPlace(sha(p.prime), sha(Padded256(generator)));
    var m1 := sha(mask + sha(p.salt1) + sha(p.salt2) + clientAPadded + Padded256(serverB) + sessionKey);
    EvidenceConvinces(sha, p, x, exponent, Proof(p.srpId, clientAPadded, m1));
    return Ok(Proof(p.srpId, clientAPadded, m1));
  }
}
