/** MTProto 2.0 message encryption: AES-IGE chaining over an arbitrary block permutation,
    the plaintext layout and the encrypted envelope. */
module Crypto {
  import opened Wrappers
  import opened Bytes

  // ------------------------------------------------------------------ primitives

  /** The first n bytes of s, filled up with zeros: gives every primitive its output width. */
  function Fit(s: bytes, n: nat): (r: bytes)
    ensures |r| == n
    ensures |s| == n ==> r == s
  {
    if |s| >= n then s[..n] else s + seq(n - |s|, i => 0)
  }

  /** The library primitives: a block cipher keyed by 32 bytes, and two hashes. */
  datatype Primitives = Primitives(
    encrypt: (bytes, bytes) -> bytes, decrypt: (bytes, bytes) -> bytes, sha256: bytes -> bytes, sha1: bytes -> bytes)
  {
    function EncryptBlock(key: bytes, block: bytes): (r: bytes)
      ensures |r| == 16
    {
      Fit(encrypt(key, block), 16)
    }

    function DecryptBlock(key: bytes, block: bytes): (r: bytes)
      ensures |r| == 16
    {
      Fit(decrypt(key, block), 16)
    }

    function Sha256(s: bytes): (r: bytes)
      ensures |r| == 32
    {
      Fit(sha256(s), 32)
    }

    function Sha1(s: bytes): (r: bytes)
      ensures |r| == 20
    {
      Fit(sha1(s), 20)
    }

    /** All that is assumed of the block cipher: under every key it permutes the blocks. */
    ghost predicate Permutes()
    {
      forall key: bytes, block: bytes | |block| == 16 ::
        DecryptBlock(key, EncryptBlock(key, block)) == block && EncryptBlock(key, DecryptBlock(key, block)) == block
    }
  }

  datatype CryptoError =
    | InvalidEnvelope
    | InvalidPlaintext
    | AuthenticationFailed
    | SessionMismatch
    | InvalidMessageId

  // --------------------------------------------------------------------- AES-IGE

  function IgeEncrypt(lib: Primitives, key: bytes, previousC: bytes, previousP: bytes, plaintext: bytes): (r: bytes)
    requires |previousC| == 16 && |previousP| == 16
    ensures |r| == |plaintext| - |plaintext| % 16
    decreases |plaintext|
  {
    if |plaintext| < 16 then []
    else
      var block := plaintext[..16];
      var c := Xor(lib.EncryptBlock(key, Xor(block, previousC)), previousP);
      c + IgeEncrypt(lib, key, c, block, plaintext[16..])
  }

  function IgeDecrypt(lib: Primitives, key: bytes, previousC: bytes, previousP: bytes, ciphertext: bytes): (r: bytes)
    requires |previousC| == 16 && |previousP| == 16
    ensures |r| == |ciphertext| - |ciphertext| % 16
    decreases |ciphertext|
  {
    if |ciphertext| < 16 then []
    else
      var block := ciphertext[..16];
      var p := Xor(lib.DecryptBlock(key, Xor(block, previousP)), previousC);
      p + IgeDecrypt(lib, key, block, p, ciphertext[16..])
  }

  /** One block: decryption undoes encryption and the other way round. */
  lemma BlockInverse(lib: Primitives, key: bytes, previousC: bytes, previousP: bytes, block: bytes)
    requires lib.Permutes()
    requires |previousC| == 16 && |previousP| == 16 && |block| == 16
    ensures Xor(lib.DecryptBlock(key, Xor(Xor(lib.EncryptBlock(key, Xor(block, previousC)), previousP), previousP)),
      previousC) == block
    ensures Xor(lib.EncryptBlock(key, Xor(Xor(lib.DecryptBlock(key, Xor(block, previousP)), previousC), previousC)),
      previousP) == block
  {
    var e := lib.EncryptBlock(key, Xor(block, previousC));
    XorInverse(e, previousP);
    XorInverse(block, previousC);
    var d := lib.DecryptBlock(key, Xor(block, previousP));
    XorInverse(d, previousC);
    XorInverse(block, previousP);
  }

  /** Decrypting what was encrypted gives the plaintext back, for every permutation, key,
      chaining state and block-aligned input ... */
  lemma {:induction false} IgeDecryptEncrypt(
    lib: Primitives, key: bytes, previousC: bytes, previousP: bytes, plaintext: bytes)
    requires lib.Permutes()
    requires |previousC| == 16 && |previousP| == 16 && |plaintext| % 16 == 0
    ensures IgeDecrypt(lib, key, previousC, previousP, IgeEncrypt(lib, key, previousC, previousP, plaintext)) ==
      plaintext
    decreases |plaintext|
  {
    if plaintext != [] {
      var block := plaintext[..16];
      var c := Xor(lib.EncryptBlock(key, Xor(block, previousC)), previousP);
      BlockInverse(lib, key, previousC, previousP, block);
      IgeDecryptEncrypt(lib, key, c, block, plaintext[16..]);
      var all := IgeEncrypt(lib, key, previousC, previousP, plaintext);
      assert all[..16] == c && all[16..] == IgeEncrypt(lib, key, c, block, plaintext[16..]);
      assert block + plaintext[16..] == plaintext;
    }
  }

  /** ... and encrypting what was decrypted gives the ciphertext back. */
  lemma {:induction false} IgeEncryptDecrypt(
    lib: Primitives, key: bytes, previousC: bytes, previousP: bytes, ciphertext: bytes)
    requires lib.Permutes()
    requires |previousC| == 16 && |previousP| == 16 && |ciphertext| % 16 == 0
    ensures IgeEncrypt(lib, key, previousC, previousP, IgeDecrypt(lib, key, previousC, previousP, ciphertext)) ==
      ciphertext
    decreases |ciphertext|
  {
    if ciphertext != [] {
      var block := ciphertext[..16];
      var p := Xor(lib.DecryptBlock(key, Xor(block, previousP)), previousC);
      BlockInverse(lib, key, previousC, previousP, block);
      IgeEncryptDecrypt(lib, key, block, p, ciphertext[16..]);
      var all := IgeDecrypt(lib, key, previousC, previousP, ciphertext);
      assert all[..16] == p && all[16..] == IgeDecrypt(lib, key, block, p, ciphertext[16..]);
      assert block + ciphertext[16..] == ciphertext;
    }
  }

  /** One turn of the encryption loop ... */
  lemma EncryptTurn(lib: Primitives, key: bytes, previousC: bytes, previousP: bytes, s: bytes, i: nat, output: bytes)
    requires |previousC| == 16 && |previousP| == 16 && i + 16 <= |s|
    ensures var block := s[i..i + 16];
      var c := Xor(lib.EncryptBlock(key, Xor(block, previousC)), previousP);
      output + IgeEncrypt(lib, key, previousC, previousP, s[i..]) ==
        (output + c) + IgeEncrypt(lib, key, c, block, s[i + 16..])
  {
    assert s[i..][..16] == s[i..i + 16] && s[i..][16..] == s[i + 16..];
    var c := Xor(lib.EncryptBlock(key, Xor(s[i..i + 16], previousC)), previousP);
    var rest := IgeEncrypt(lib, key, c, s[i..i + 16], s[i + 16..]);
    assert IgeEncrypt(lib, key, previousC, previousP, s[i..]) == c + rest;
    hide IgeEncrypt, Xor;
    assert output + (c + rest) == (output + c) + rest;
  }

  /** ... and of the decryption loop. */
  lemma DecryptTurn(lib: Primitives, key: bytes, previousC: bytes, previousP: bytes, s: bytes, i: nat, output: bytes)
    requires |previousC| == 16 && |previousP| == 16 && i + 16 <= |s|
    ensures var block := s[i..i + 16];
      var p := Xor(lib.DecryptBlock(key, Xor(block, previousP)), previousC);
      output + IgeDecrypt(lib, key, previousC, previousP, s[i..]) ==
        (output + p) + IgeDecrypt(lib, key, block, p, s[i + 16..])
  {
    assert s[i..][..16] == s[i..i + 16] && s[i..][16..] == s[i + 16..];
    var p := Xor(lib.DecryptBlock(key, Xor(s[i..i + 16], previousP)), previousC);
    var rest := IgeDecrypt(lib, key, s[i..i + 16], p, s[i + 16..]);
    assert IgeDecrypt(lib, key, previousC, previousP, s[i..]) == p + rest;
    hide IgeDecrypt, Xor;
    assert output + (p + rest) == (output + p) + rest;
  }

  /** `aes_ige_encrypt`. */
  method AesIgeEncrypt(lib: Primitives, plaintext: bytes, key: bytes, iv: bytes) returns (r: Result<bytes, CryptoError>)
    requires |iv| == 32
    ensures plaintext == [] || |plaintext| % 16 != 0 ==> r == Err(InvalidPlaintext)
    ensures plaintext != [] && |plaintext| % 16 == 0 ==> r == Ok(IgeEncrypt(lib, key, iv[..16], iv[16..], plaintext))
  {
    hide IgeEncrypt, Xor;
    if plaintext == [] || |plaintext| % 16 != 0 {
      return Err(InvalidPlaintext);
    }
    var previousC, previousP := iv[..16], iv[16..];
    var output: bytes := [];
    var i := 0;
    ghost var whole := IgeEncrypt(lib, key, previousC, previousP, plaintext);
    assert plaintext[0..] == plaintext && [] + whole == whole;
    while i < |plaintext|
      invariant 0 <= i <= |plaintext| && i % 16 == 0 && |previousC| == 16 && |previousP| == 16
      invariant output + IgeEncrypt(lib, key, previousC, previousP, plaintext[i..]) == whole
    {
      EncryptTurn(lib, key, previousC, previousP, plaintext, i, output);
      var block := plaintext[i..i + 16];
      var encrypted := lib.EncryptBlock(key, Xor(block, previousC));
      var ciphertextBlock := Xor(encrypted, previousP);
      output := output + ciphertextBlock;
      previousC, previousP := ciphertextBlock, block;
      i := i + 16;
    }
    assert plaintext[i..] == [] && output + [] == output;
    assert IgeEncrypt(lib, key, previousC, previousP, []) == [];
    return Ok(output);
  }

  /** `aes_ige_decrypt`. */
  method AesIgeDecrypt(
    lib: Primitives, ciphertext: bytes, key: bytes, iv: bytes) returns (r: Result<bytes, CryptoError>)
    requires |iv| == 32
    ensures ciphertext == [] || |ciphertext| % 16 != 0 ==> r == Err(InvalidEnvelope)
    ensures ciphertext != [] && |ciphertext| % 16 == 0 ==> r == Ok(IgeDecrypt(lib, key, iv[..16], iv[16..], ciphertext))
  {
    hide IgeDecrypt, Xor;
    if ciphertext == [] || |ciphertext| % 16 != 0 {
      return Err(InvalidEnvelope);
    }
    var previousC, previousP := iv[..16], iv[16..];
    var output: bytes := [];
    var i := 0;
    ghost var whole := IgeDecrypt(lib, key, previousC, previousP, ciphertext);
    assert ciphertext[0..] == ciphertext && [] + whole == whole;
    while i < |ciphertext|
      invariant 0 <= i <= |ciphertext| && i % 16 == 0 && |previousC| == 16 && |previousP| == 16
      invariant output + IgeDecrypt(lib, key, previousC, previousP, ciphertext[i..]) == whole
    {
      DecryptTurn(lib, key, previousC, previousP, ciphertext, i, output);
      var block := ciphertext[i..i + 16];
      var decrypted := lib.DecryptBlock(key, Xor(block, previousP));
      var plaintextBlock := Xor(decrypted, previousC);
      output := output + plaintextBlock;
      previousC, previousP := block, plaintextBlock;
      i := i + 16;
    }
    assert ciphertext[i..] == [] && output + [] == output;
    assert IgeDecrypt(lib, key, previousC, previousP, []) == [];
    return Ok(output);
  }

  // ------------------------------------------------------------ plaintext layout

  datatype Direction = ClientToServer | ServerToClient

  datatype PlainMessage = PlainMessage(
    serverSalt: i64, sessionId: i64, messageId: i64, sequenceNumber: i32, body: bytes, padding: bytes)

  const HEADER_LENGTH: nat := 32
  const MIN_PADDING: nat := 12
  const MAX_PADDING: nat := 1_024

  predicate WellFormed(m: PlainMessage)
  {
    m.body != [] && |m.body| % 4 == 0 && MIN_PADDING <= |m.padding| <= MAX_PADDING &&
    (HEADER_LENGTH + |m.body| + |m.padding|) % 16 == 0
  }

  /** Message ids from the client are multiples of four, ids from the server are odd. */
  predicate GoodParity(direction: Direction, messageId: i64)
  {
    match direction
    case ClientToServer => messageId % 4 == 0
    case ServerToClient => messageId % 2 == 1
  }

  function Validate(m: PlainMessage, direction: Option<Direction>, session: Option<i64>): Option<CryptoError>
  {
    if !WellFormed(m) then Some(InvalidPlaintext)
    else if session.Some? && m.sessionId != session.value then Some(SessionMismatch)
    else if direction.Some? && !GoodParity(direction.value, m.messageId) then Some(InvalidMessageId)
    else None
  }

  function EncodePlain(m: PlainMessage): Result<bytes, CryptoError>
  {
    if Validate(m, None, None).Some? || |m.body| >= I32_END then Err(InvalidPlaintext)
    else
      Ok(I64ToBytes(m.serverSalt) + I64ToBytes(m.sessionId) + I64ToBytes(m.messageId) +
         I32ToBytes(m.sequenceNumber) + I32ToBytes(|m.body|) + m.body + m.padding)
  }

  function DecodePlain(s: bytes): Result<PlainMessage, CryptoError>
  {
    if |s| < HEADER_LENGTH + MIN_PADDING then Err(InvalidPlaintext)
    else
      var length := I32FromBytes(s[28..32]);
      if length < 0 || length % 4 != 0 || HEADER_LENGTH + length > |s| then Err(InvalidPlaintext)
      else
        Ok(PlainMessage(I64FromBytes(s[0..8]), I64FromBytes(s[8..16]), I64FromBytes(s[16..24]), I32FromBytes(s[24..28]),
                        s[32..32 + length], s[32 + length..]))
  }

  lemma PlainRoundTrip(m: PlainMessage)
    requires EncodePlain(m).Ok?
    ensures DecodePlain(EncodePlain(m).value) == Ok(m)
  {
    var a, b, c := I64ToBytes(m.serverSalt), I64ToBytes(m.sessionId), I64ToBytes(m.messageId);
    var d, e := I32ToBytes(m.sequenceNumber), I32ToBytes(|m.body|);
    var s := EncodePlain(m).value;
    assert s == a + b + c + d + e + m.body + m.padding;
    assert s[0..8] == a && s[8..16] == b && s[16..24] == c && s[24..28] == d && s[28..32] == e;
    I64RoundTrip(m.serverSalt);
    I64RoundTrip(m.sessionId);
    I64RoundTrip(m.messageId);
    I32RoundTrip(m.sequenceNumber);
    I32RoundTrip(|m.body|);
    assert s[32..32 + |m.body|] == m.body && s[32 + |m.body|..] == m.padding;
  }

  /** `encrypted_padding_length` of the network layer. */
  function PaddingLength(bodyLength: nat): nat
  {
    var unpadded := 32 + bodyLength;
    var minimum := unpadded + 12;
    (minimum + 15) / 16 * 16 - unpadded
  }

  /** Padding of the computed length encodes exactly the non-empty, 4-aligned bodies whose
      length fits in an i32. */
  lemma PaddingAlwaysEncodes(m: PlainMessage)
    requires |m.padding| == PaddingLength(|m.body|)
    ensures EncodePlain(m).Ok? <==> m.body != [] && |m.body| % 4 == 0 && |m.body| < I32_END
  {
  }

  // -------------------------------------------------------------------- envelope

  datatype Envelope = Envelope(authKeyId: u64, messageKey: bytes, data: bytes)

  function EnvelopeToBytes(e: Envelope): bytes
  {
    LeBytes(e.authKeyId, 8) + e.messageKey + e.data
  }

  function EnvelopeFromBytes(s: bytes): Result<Envelope, CryptoError>
  {
    if |s| < 24 || (|s| - 24) % 16 != 0 then Err(InvalidEnvelope)
    else Ok(Envelope(U64FromBytes(s[..8]), s[8..24], s[24..]))
  }

  /** An envelope survives the wire exactly when its data is whole blocks. */
  lemma EnvelopeRoundTrip(e: Envelope)
    requires |e.messageKey| == 16
    ensures EnvelopeFromBytes(EnvelopeToBytes(e)) == Ok(e) <==> |e.data| % 16 == 0
  {
    var s := EnvelopeToBytes(e);
    assert s[..8] == LeBytes(e.authKeyId, 8) && s[8..24] == e.messageKey && s[24..] == e.data;
    Le64RoundTrip(e.authKeyId);
  }

  // ----------------------------------------------------------- whole messages

  function Offset(direction: Direction): nat
  {
    if direction == ClientToServer then 0 else 8
  }

  function AuthKeyId(lib: Primitives, key: bytes): u64
  {
    U64FromBytes(lib.Sha1(key)[12..20])
  }

  function MessageKey(lib: Primitives, key: bytes, direction: Direction, plaintext: bytes): (r: bytes)
    requires |key| == 256
    ensures |r| == 16
  {
    var x := Offset(direction);
    lib.Sha256(key[88 + x..120 + x] + plaintext)[8..24]
  }

  datatype KeyIv = KeyIv(key: bytes, iv: bytes)

  function DeriveKeyIv(lib: Primitives, key: bytes, messageKey: bytes, direction: Direction): (r: KeyIv)
    requires |key| == 256
    ensures |r.key| == 32 && |r.iv| == 32
  {
    var x := Offset(direction);
    var a := lib.Sha256(messageKey + key[x..x + 36]);
    var b := lib.Sha256(key[40 + x..76 + x] + messageKey);
    KeyIv(a[..8] + b[8..24] + a[24..32], b[..8] + a[8..24] + b[24..32])
  }

  function SealWith(lib: Primitives, k: KeyIv, plaintext: bytes): (r: bytes)
    requires |k.iv| == 32
    ensures |r| == |plaintext| - |plaintext| % 16
  {
    IgeEncrypt(lib, k.key, k.iv[..16], k.iv[16..], plaintext)
  }

  function OpenWith(lib: Primitives, k: KeyIv, data: bytes): (r: bytes)
    requires |k.iv| == 32
    ensures |r| == |data| - |data| % 16
  {
    IgeDecrypt(lib, k.key, k.iv[..16], k.iv[16..], data)
  }

  /** The envelope of a plaintext ... */
  function Seal(lib: Primitives, key: bytes, direction: Direction, plaintext: bytes): Envelope
    requires |key| == 256
  {
    var messageKey := MessageKey(lib, key, direction, plaintext);
    Envelope(AuthKeyId(lib, key), messageKey, SealWith(lib, DeriveKeyIv(lib, key, messageKey, direction), plaintext))
  }

  /** ... and the authenticated plaintext of an envelope. */
  function Unseal(lib: Primitives, key: bytes, direction: Direction, e: Envelope): Result<bytes, CryptoError>
    requires |key| == 256
  {
    if e.authKeyId != AuthKeyId(lib, key) || e.data == [] || |e.data| % 16 != 0 then Err(AuthenticationFailed)
    else
      var plaintext := OpenWith(lib, DeriveKeyIv(lib, key, e.messageKey, direction), e.data);
      if MessageKey(lib, key, direction, plaintext) != e.messageKey then Err(AuthenticationFailed) else Ok(plaintext)
  }

  lemma UnsealUndoesSeal(lib: Primitives, key: bytes, direction: Direction, plaintext: bytes)
    requires |key| == 256 && lib.Permutes() && plaintext != [] && |plaintext| % 16 == 0
    ensures Unseal(lib, key, direction, Seal(lib, key, direction, plaintext)) == Ok(plaintext)
  {
    hide AuthKeyId, MessageKey, DeriveKeyIv;
    var k := DeriveKeyIv(lib, key, MessageKey(lib, key, direction, plaintext), direction);
    IgeDecryptEncrypt(lib, k.key, k.iv[..16], k.iv[16..], plaintext);
  }

  function EncryptMessage(
    lib: Primitives, key: bytes, direction: Direction, m: PlainMessage): Result<Envelope, CryptoError>
    requires |key| == 256
  {
    var encoded := EncodePlain(m);
    if encoded.Err? then Err(encoded.error) else Ok(Seal(lib, key, direction, encoded.value))
  }

  function DecryptMessage(
    lib: Primitives, key: bytes, direction: Direction, e: Envelope, session: i64): Result<PlainMessage, CryptoError>
    requires |key| == 256
  {
    var unsealed := Unseal(lib, key, direction, e);
    if unsealed.Err? then Err(unsealed.error)
    else
      var decoded := DecodePlain(unsealed.value);
      if decoded.Err? then decoded
      else
        var problem := Validate(decoded.value, Some(direction), Some(session));
        if problem.Some? then Err(problem.value) else decoded
  }

  lemma EncodedIsWellFormed(m: PlainMessage)
    requires EncodePlain(m).Ok?
    ensures WellFormed(m) && EncodePlain(m).value != [] && |EncodePlain(m).value| % 16 == 0
  {
  }

  /** Decrypting an encrypted message returns it exactly when the receiver expects its
      session and its id has the parity of the direction; otherwise the refusal names
      which of the two failed. */
  lemma DecryptUndoesEncrypt(lib: Primitives, key: bytes, direction: Direction, m: PlainMessage, session: i64)
    requires |key| == 256 && lib.Permutes() && EncryptMessage(lib, key, direction, m).Ok?
    ensures var r := DecryptMessage(lib, key, direction, EncryptMessage(lib, key, direction, m).value, session);
      if m.sessionId != session then r == Err(SessionMismatch)
      else if !GoodParity(direction, m.messageId) then r == Err(InvalidMessageId)
      else r == Ok(m)
  {
    hide Seal, Unseal, EncodePlain, DecodePlain, WellFormed;
    EncodedIsWellFormed(m);
    UnsealUndoesSeal(lib, key, direction, EncodePlain(m).value);
    PlainRoundTrip(m);
  }

  /** What the client sends always arrives: any body the network layer accepts, padded to
      the computed length and carrying a client message id, is recovered by the peer. */
  lemma SentMessagesArrive(lib: Primitives, key: bytes, m: PlainMessage, r: Result<Envelope, CryptoError>)
    requires m.body != [] && |m.body| % 4 == 0 && |m.body| < I32_END && |m.padding| == PaddingLength(|m.body|)
    requires |key| == 256 && lib.Permutes()
    requires m.messageId % 4 == 0 && r == EncryptMessage(lib, key, ClientToServer, m)
    ensures r.Ok? && DecryptMessage(lib, key, ClientToServer, r.value, m.sessionId) == Ok(m)
  {
    hide Seal, EncodePlain, DecryptMessage;
    PaddingAlwaysEncodes(m);
    DecryptUndoesEncrypt(lib, key, ClientToServer, m, m.sessionId);
  }
}
