/** What is accepted was sent: an envelope that decrypts is the encryption of what it decrypts
    to, and bytes that decode as a frame are the frame of what they decode to. */
module Soundness {
  import opened Wrappers
  import opened Bytes
  import opened Crypto
  import Transport

  // ------------------------------------------------------------------- envelopes

  /** An envelope opens to a plaintext if and only if it is the sealing of that plaintext. */
  lemma UnsealIff(lib: Primitives, key: bytes, direction: Direction, e: Envelope, plaintext: bytes)
    requires |key| == 256 && lib.Permutes()
    ensures Unseal(lib, key, direction, e) == Ok(plaintext) <==>
      plaintext != [] && |plaintext| % 16 == 0 && e == Seal(lib, key, direction, plaintext)
  {
    if plaintext != [] && |plaintext| % 16 == 0 && e == Seal(lib, key, direction, plaintext) {
      UnsealUndoesSeal(lib, key, direction, plaintext);
    }
    hide AuthKeyId, MessageKey, DeriveKeyIv, IgeEncrypt, IgeDecrypt;
    if Unseal(lib, key, direction, e) == Ok(plaintext) {
      var k := DeriveKeyIv(lib, key, e.messageKey, direction);
      IgeEncryptDecrypt(lib, k.key, k.iv[..16], k.iv[16..], e.data);
    }
  }

  /** A well-formed plaintext is the encoding of what it decodes to. */
  lemma PlainIsEncoding(s: bytes, m: PlainMessage)
    requires DecodePlain(s) == Ok(m) && WellFormed(m)
    ensures EncodePlain(m) == Ok(s)
  {
    hide I64ToBytes, I32ToBytes, I64FromBytes, I32FromBytes;
    I64Bytes(s[0..8]);
    I64Bytes(s[8..16]);
    I64Bytes(s[16..24]);
    I32Bytes(s[24..28]);
    I32Bytes(s[28..32]);
    var n := |m.body|;
    assert s == s[0..8] + s[8..16] + s[16..24] + s[24..28] + s[28..32] + s[32..32 + n] + s[32 + n..];
  }

  /** An envelope decrypts to a message if and only if it is the encryption of that message, of
      the expected session and with the parity of the direction. */
  lemma DecryptIff(lib: Primitives, key: bytes, direction: Direction, e: Envelope, session: i64, m: PlainMessage)
    requires |key| == 256 && lib.Permutes()
    ensures DecryptMessage(lib, key, direction, e, session) == Ok(m) <==>
      EncryptMessage(lib, key, direction, m) == Ok(e) && m.sessionId == session && GoodParity(direction, m.messageId)
  {
    hide Seal, Unseal, EncodePlain, DecodePlain, WellFormed;
    if EncryptMessage(lib, key, direction, m) == Ok(e) { DecryptUndoesEncrypt(lib, key, direction, m, session); }
    if DecryptMessage(lib, key, direction, e, session) == Ok(m) {
      var plaintext := Unseal(lib, key, direction, e).value;
      UnsealIff(lib, key, direction, e, plaintext);
      PlainIsEncoding(plaintext, m);
    }
  }

  // ---------------------------------------------------------------------- frames

  /** Whatever a full transport decodes is a length, a sequence number, the payload and their
      checksum. */
  lemma FullIsFrame(crc: Transport.Crc, max: nat, input: bytes)
    requires Transport.DecodeFull(crc, max, input).Decoded?
    ensures var f := Transport.DecodeFull(crc, max, input).frame;
      0 < |f.payload| <= max && f.sequence.Some? && f.quickAck == None && f.consumed <= |input| &&
      |f.payload| + 12 < U32_END &&
      var head := LeBytes(|f.payload| + 12, 4) + LeBytes(f.sequence.value, 4) + f.payload;
      input[..f.consumed] == head + LeBytes(crc(head), 4)
  {
    hide LeBytes, LeValue;
    var f := Transport.DecodeFull(crc, max, input).frame;
    var n := f.consumed;
    LeValueBound(input[..4]);
    RangeWidths();
    LeRoundTripBytes(input[..4]);
    U32Bytes(input[4..8]);
    LeRoundTripBytes(input[n - 4..n]);
    assert input[..n - 4] == input[..4] + input[4..8] + input[8..n - 4];
    assert input[..n] == input[..n - 4] + input[n - 4..n];
  }

  /** Whatever an abridged transport decodes as a payload is its length in words, short or
      long, and the payload. */
  lemma AbridgedIsFrame(max: nat, input: bytes)
    requires Transport.DecodeAbridged(max, input).Decoded? &&
      Transport.DecodeAbridged(max, input).frame.quickAck == None
    ensures var f := Transport.DecodeAbridged(max, input).frame; var words := |f.payload| / 4;
      0 < |f.payload| <= max && |f.payload| % 4 == 0 && f.sequence == None && f.consumed <= |input| &&
      ((words < 127 && input[..f.consumed] == [words as byte] + f.payload) ||
       (words < 0x100_0000 && input[..f.consumed] == [0x7f] + LeBytes(words, 3) + f.payload))
  {
    hide LeBytes, LeValue;
    var f := Transport.DecodeAbridged(max, input).frame;
    var n := f.consumed;
    if input[0] < 0x7f {
      assert input[..n] == [input[0]] + input[1..n];
    } else {
      LeValueBound(input[1..4]);
      RangeWidths();
      LeRoundTripBytes(input[1..4]);
      assert input[..n] == [input[0]] + input[1..4] + input[4..n];
    }
  }

  /** Whatever an intermediate transport decodes as a payload is its length and the payload. */
  lemma IntermediateIsFrame(mode: Transport.Mode, max: nat, input: bytes)
    requires Transport.DecodeIntermediate(mode, max, input).Decoded?
    requires Transport.DecodeIntermediate(mode, max, input).frame.quickAck == None
    ensures var f := Transport.DecodeIntermediate(mode, max, input).frame;
      0 < |f.payload| <= max && f.sequence == None && f.consumed <= |input| &&
      input[..f.consumed] == LeBytes(|f.payload|, 4) + f.payload
  {
    hide LeBytes, LeValue;
    var f := Transport.DecodeIntermediate(mode, max, input).frame;
    U32Bytes(input[..4]);
    assert input[..f.consumed] == input[..4] + input[4..f.consumed];
  }
}
