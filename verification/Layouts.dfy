/** The formats and rules that both ends of a theorem share, written out: byte layouts, key
    material, time windows and tables, as the program and the protocols give them. */
module Layouts {
  import opened Wrappers
  import opened Bytes
  import opened NumberTheory
  import opened Text
  import Srp
  import Crypto
  import Transport
  import Session
  import SecretChat
  import Cache
  import Transfers
  import Communities
  import Tl

  // ------------------------------------------------------------- byte encodings

  lemma DivideTwice(v: nat, r: nat)
    requires 0 < r
    ensures v / 256 / r == v / (256 * r)
  {
    var h := v / 256;
    var q, b := h / r, h % r;
    assert 256 * (r * q) == 256 * r * q;
    assert v == 256 * r * q + (256 * b + v % 256);
    QuotientUnique(v, 256 * r, q, 256 * b + v % 256);
  }

  /** Byte i of a little-endian encoding is the i-th digit to base 256, lowest first. */
  lemma {:induction false} LittleEndian(v: nat, n: nat, i: nat)
    requires i < n
    ensures LeBytes(v, n)[i] == v / Range(i) % 256
  {
    if i != 0 {
      LittleEndian(v / 256, n - 1, i - 1);
      DivideTwice(v, Range(i - 1));
    }
  }

  /** Two's complement: a negative number is written as itself plus a power of two. */
  lemma TwosComplement(x: i32, y: i64)
    ensures I32ToBytes(x) == LeBytes(if x < 0 then x + 0x1_0000_0000 else x, 4)
    ensures I64ToBytes(y) == LeBytes(if y < 0 then y + 0x1_0000_0000_0000_0000 else y, 8)
  {
  }

  // -------------------------------------------------------------- password proof

  /** SH(data, salt) of Telegram's two-step verification. */
  function Salted(sha: Srp.Digest, data: bytes, salt: bytes): bytes
  {
    sha(salt + data + salt)
  }

  /** x = SH(PBKDF2(SH(SH(password, salt1), salt2), salt1), salt2). */
  lemma PasswordHashLayout(sha: Srp.Digest, kdf: Srp.Kdf, password: bytes, salt1: bytes, salt2: bytes)
    ensures Srp.PasswordHash(sha, kdf, password, salt1, salt2) ==
      Salted(sha, kdf(Salted(sha, Salted(sha, password, salt1), salt2), salt1), salt2)
  {
  }

  /** M1 = H(H(p) xor H(g) | H(salt1) | H(salt2) | A | B | H(S)), k = H(p | g), u = H(A | B). */
  lemma EvidenceLayout(sha: Srp.Digest, p: Srp.Parameters, a: nat, shared: nat)
    requires 0 <= p.generator
    ensures var g := Srp.Padded256(p.generator);
      Srp.Evidence(sha, p, a, shared) ==
        sha(Xor(sha(p.prime), sha(g)) + sha(p.salt1) + sha(p.salt2) + Srp.Padded256(a) +
            Srp.Padded256(BeValue(p.serverB)) +
            sha(Srp.Padded256(shared))) &&
      Srp.Multiplier(sha, p) == BeValue(sha(p.prime + g)) &&
      Srp.Scramble(sha, a, BeValue(p.serverB)) == BeValue(sha(Srp.Padded256(a) + Srp.Padded256(BeValue(p.serverB))))
  {
  }

  /** The generators that are accepted, each with its residue class of the prime. */
  lemma GeneratorTable(trusted: bytes, prime: bytes, g: i32)
    ensures Srp.TrustedGroup(trusted, prime, g) <==>
      prime == trusted &&
      ((g == 2 && BeValue(prime) % 8 == 7) || (g == 3 && BeValue(prime) % 3 == 2) || g == 4 ||
       (g == 5 && BeValue(prime) % 5 in {1, 4}) || (g == 6 && BeValue(prime) % 24 in {19, 23}) ||
       (g == 7 && BeValue(prime) % 7 in {3, 5, 6}))
  {
  }

  // ------------------------------------------------------------------ encryption

  /** The key material of MTProto 2.0 for messages to the server: msg_key from key bytes 88 to
      120, the AES key and IV from bytes 0 to 36 and 40 to 76. */
  lemma ClientKeys(lib: Crypto.Primitives, key: bytes, plaintext: bytes, messageKey: bytes)
    requires |key| == 256
    ensures Crypto.MessageKey(lib, key, Crypto.ClientToServer, plaintext) == lib.Sha256(key[88..120] + plaintext)[8..24]
    ensures var a, b := lib.Sha256(messageKey + key[0..36]), lib.Sha256(key[40..76] + messageKey);
      Crypto.DeriveKeyIv(lib, key, messageKey, Crypto.ClientToServer) ==
        Crypto.KeyIv(a[0..8] + b[8..24] + a[24..32], b[0..8] + a[8..24] + b[24..32])
  {
  }

  /** For messages from the server the same, eight bytes later. */
  lemma ServerKeys(lib: Crypto.Primitives, key: bytes, plaintext: bytes, messageKey: bytes)
    requires |key| == 256
    ensures Crypto.MessageKey(lib, key, Crypto.ServerToClient, plaintext) == lib.Sha256(key[96..128] + plaintext)[8..24]
    ensures var a, b := lib.Sha256(messageKey + key[8..44]), lib.Sha256(key[48..84] + messageKey);
      Crypto.DeriveKeyIv(lib, key, messageKey, Crypto.ServerToClient) ==
        Crypto.KeyIv(a[0..8] + b[8..24] + a[24..32], b[0..8] + a[8..24] + b[24..32])
  {
  }

  /** Where the fields of a plaintext and of an envelope lie. */
  lemma PlainLayout(m: Crypto.PlainMessage)
    requires Crypto.EncodePlain(m).Ok?
    ensures var s := Crypto.EncodePlain(m).value;
      |s| == 32 + |m.body| + |m.padding| && s[0..8] == I64ToBytes(m.serverSalt) &&
      s[8..16] == I64ToBytes(m.sessionId) &&
      s[16..24] == I64ToBytes(m.messageId) && s[24..28] == I32ToBytes(m.sequenceNumber) &&
      s[28..32] == I32ToBytes(|m.body|) && s[32..32 + |m.body|] == m.body && s[32 + |m.body|..] == m.padding
  {
  }

  lemma EnvelopeLayout(e: Crypto.Envelope)
    requires |e.messageKey| == 16
    ensures var s := Crypto.EnvelopeToBytes(e);
      s[0..8] == LeBytes(e.authKeyId, 8) && s[8..24] == e.messageKey && s[24..] == e.data
    ensures forall lib: Crypto.Primitives, key: bytes :: LeBytes(Crypto.AuthKeyId(lib, key), 8) == lib.Sha1(key)[12..20]
  {
    forall lib: Crypto.Primitives, key: bytes
      ensures LeBytes(Crypto.AuthKeyId(lib, key), 8) == lib.Sha1(key)[12..20]
    {
      LeRoundTripBytes(lib.Sha1(key)[12..20]);
    }
  }

  /** One block of IGE: c = E(p xor previous c) xor previous p. */
  lemma IgeBlock(lib: Crypto.Primitives, key: bytes, c0: bytes, p0: bytes, p: bytes)
    requires |c0| == 16 && |p0| == 16 && |p| == 16
    ensures Crypto.IgeEncrypt(lib, key, c0, p0, p) == Xor(lib.EncryptBlock(key, Xor(p, c0)), p0)
  {
    assert p[..16] == p && p[16..] == [];
    var c := Xor(lib.EncryptBlock(key, Xor(p, c0)), p0);
    assert Crypto.IgeEncrypt(lib, key, c, p, []) == [];
    assert c + [] == c;
  }

  /** What a plaintext must look like: a non-empty body in whole words, 12 to 1024 bytes of
      padding, whole blocks; client ids are multiples of four and server ids odd. */
  lemma PlainRules(m: Crypto.PlainMessage, session: i64, direction: Crypto.Direction)
    ensures Crypto.Validate(m, Some(direction), Some(session)) == None <==>
      m.body != [] && |m.body| % 4 == 0 && 12 <= |m.padding| <= 1024 && (32 + |m.body| + |m.padding|) % 16 == 0 &&
      m.sessionId == session &&
      (direction.ClientToServer? ==> m.messageId % 4 == 0) && (direction.ServerToClient? ==> m.messageId % 2 == 1)
  {
  }

  // --------------------------------------------------------------------- framing

  /** The frames of the four transports. */
  lemma FrameLayouts(crc: Transport.Crc, max: nat, sequence: u32, payload: bytes, padding: bytes)
    requires payload != [] && |payload| + |padding| <= max < 0x8000_0000 - 12
    ensures sequence < 0xffff_ffff ==>
      var head := LeBytes(|payload| + 12, 4) + LeBytes(sequence, 4) + payload;
      Transport.EncodeOf(crc, Transport.Full, max, sequence, payload, [], false) ==
        (Transport.Encoded(head + LeBytes(crc(head), 4)), sequence + 1)
    ensures |payload| % 4 == 0 && |payload| < 4 * 127 ==>
      Transport.EncodeOf(crc, Transport.Abridged, max, sequence, payload, [], false) ==
        (Transport.Encoded([|payload| / 4] + payload), sequence)
    ensures |payload| % 4 == 0 && 4 * 127 <= |payload| < 4 * 0x100_0000 ==>
      Transport.EncodeOf(crc, Transport.Abridged, max, sequence, payload, [], false) ==
        (Transport.Encoded([0x7f] + LeBytes(|payload| / 4, 3) + payload), sequence)
    ensures Transport.EncodeOf(crc, Transport.Intermediate, max, sequence, payload, [], false) ==
      (Transport.Encoded(LeBytes(|payload|, 4) + payload), sequence)
    ensures |padding| <= 15 ==>
      Transport.EncodeOf(crc, Transport.PaddedIntermediate, max, sequence, payload, padding, false) ==
        (Transport.Encoded(LeBytes(|payload| + |padding|, 4) + payload + padding), sequence)
  {
    assert payload + [] == payload && LeBytes(|payload|, 4) + payload + [] == LeBytes(|payload|, 4) + payload;
  }

  /** Only a padded body of 8 to 16 bytes that begins with four bytes ff is taken for an
      acknowledgement. */
  lemma AcknowledgementLookalikes(mode: Transport.Mode, body: bytes)
    ensures Transport.LooksLikeAck(mode, body) <==>
      mode.PaddedIntermediate? && 8 <= |body| <= 16 && forall i :: 0 <= i < 4 ==> body[i] == 0xff
  {
    if 8 <= |body| && forall i :: 0 <= i < 4 ==> body[i] == 0xff {
      assert body[..4] == [0xff, 0xff, 0xff, 0xff];
    }
    if 8 <= |body| && body[..4] == [0xff, 0xff, 0xff, 0xff] {
      assert forall i :: 0 <= i < 4 ==> body[i] == body[..4][i];
    }
  }

  // ------------------------------------------------------------------- wire codec

  /** TL constructors, strings and vector headers. */
  lemma TlLayouts(s: bytes, n: nat)
    ensures Tl.Encode(Tl.Bool(true)) == Ok(LeBytes(0x9972_75b5, 4)) &&
      Tl.Encode(Tl.Bool(false)) == Ok(LeBytes(0xbc79_9737, 4))
    ensures |s| <= 253 ==>
      var e := Tl.Encode(Tl.ByteString(s));
      e.Ok? && e.value[0] == |s| && e.value[1..1 + |s|] == s && |e.value| < 1 + |s| + 4 && |e.value| % 4 == 0
    ensures 254 <= |s| <= 0xff_ffff ==>
      var e := Tl.Encode(Tl.ByteString(s));
      e.Ok? && e.value[0] == 254 && e.value[1..4] == LeBytes(|s|, 3) && e.value[4..4 + |s|] == s &&
      |e.value| < 4 + |s| + 4 && |e.value| % 4 == 0
    ensures n < 0x8000_0000 ==> Tl.Encode(Tl.VectorLength(n)) == Ok(LeBytes(0x1cb5_c415, 4) + LeBytes(n, 4))
  {
    if |s| <= 0xff_ffff { Tl.EncodedAligned(Tl.ByteString(s)); }
  }

  // --------------------------------------------------------------- message ids

  /** Server ids are accepted from 300 seconds back to 30 seconds ahead. */
  lemma TimeWindow(id: i64, now: i64)
    ensures Session.InTime(id, now) <==> now - 300 <= id / 0x1_0000_0000 <= now + 30
  {
  }

  /** The client id of a clock reading: seconds in the upper half, the fraction of the second
      in the lower, rounded down to a multiple of four and never zero. */
  lemma ClientIdOfClock(seconds: i64, nanos: nat)
    requires nanos < 1_000_000_000
    ensures var low := nanos * 0x1_0000_0000 / 1_000_000_000; var aligned := low - low % 4;
      Session.Candidate(seconds, nanos) == seconds * 0x1_0000_0000 + if aligned == 0 then 4 else aligned
  {
    var low := nanos * 0x1_0000_0000 / 1_000_000_000;
    var aligned := low - low % 4;
    var raw := seconds * 0x1_0000_0000 + low;
    QuotientUnique(raw, 4, seconds * 0x4000_0000 + low / 4, low % 4);
    assert raw - raw % 4 == seconds * 0x1_0000_0000 + aligned;
    assert 0 <= aligned < 0x1_0000_0000;
    QuotientUnique(seconds * 0x1_0000_0000 + aligned, 0x1_0000_0000, seconds, aligned);
  }

  // ---------------------------------------------------------------- secret chats

  /** A decryption succeeds exactly on a supported envelope of this conversation, from the peer
      to this end, in the current epoch, with a positive counter not seen before and less than
      128 behind every accepted one, that the cipher opens; it remembers that counter only. */
  lemma DecryptIff(cipher: SecretChat.Cipher, s: SecretChat.State, e: SecretChat.Envelope)
    ensures var step := SecretChat.DecryptOf(cipher, s, e);
      (step.output.Received? <==>
        e.supportedVersion && e.supportedAlgorithm && e.aad.conversation == s.conversation && e.aad.sender == s.peer &&
        e.aad.recipient == s.local && e.aad.epoch == s.epoch && e.aad.counter != 0 && e.aad.counter !in s.accepted &&
        (forall c :: c in s.accepted ==> c < e.aad.counter + 128) && e.nonce.Some? && e.ciphertext.Some? &&
        cipher.unseal(s.key, e.nonce.value, e.aad, e.ciphertext.value).Some?) &&
      (step.output.Received? ==>
        step.state == s.(accepted := s.accepted + {e.aad.counter}) &&
        step.output.plaintext == cipher.unseal(s.key, e.nonce.value, e.aad, e.ciphertext.value).value) &&
      (!step.output.Received? ==> step.state == s)
  {
  }

  /** A rotation succeeds exactly to a later epoch with a derived key, and starts afresh. */
  lemma RotateIff(s: SecretChat.State, next: u64, derived: Option<bytes>)
    ensures var step := SecretChat.RotateOf(s, next, derived);
      (step.output.Rotated? <==> s.epoch < next && derived.Some?) &&
      (step.output.Rotated? ==>
        step.state.epoch == next && step.state.key == derived.value && step.state.sendCounter == 0 &&
        step.state.accepted == {} && step.state.local == s.local && step.state.peer == s.peer &&
        step.state.conversation == s.conversation) &&
      (!step.output.Rotated? ==> step.state == s)
  {
  }

  /** An encryption takes the next counter unless the text is empty or the counters are used
      up; it succeeds exactly if then there is a nonce and the cipher seals. */
  lemma EncryptIff(cipher: SecretChat.Cipher, s: SecretChat.State, text: bytes, nonce: Option<bytes>)
    ensures var step := SecretChat.EncryptOf(cipher, s, text, nonce);
      var aad := SecretChat.Aad(s.conversation, s.epoch, s.local, s.peer,
        if s.sendCounter < U64_MAX then s.sendCounter + 1 else s.sendCounter);
      (step.output.Sent? <==>
        text != [] && s.sendCounter < U64_MAX && nonce.Some? && cipher.seal(s.key, nonce.value, aad, text).Some?) &&
      (step.output.Sent? ==>
        step.output.envelope ==
          SecretChat.Envelope(true, true, aad, nonce, cipher.seal(s.key, nonce.value, aad, text))) &&
      step.state == s.(sendCounter := if text != [] then aad.counter else s.sendCounter)
  {
  }

  // ----------------------------------------------------------------------- cache

  /** Whatever is evicted was last used no later than any evictable entry that stays, and at
      the same time only if its id comes first. */
  lemma EvictedAreOldest(
    base: Cache.Entries, key: string, kept: Cache.Entries, evicted: seq<Cache.Entry>, i: nat, k: string)
    requires Cache.Evicts(base, key, kept, evicted) && i < |evicted| && k in kept && !kept[k].pinned &&
      kept[k].id != key
    ensures evicted[i].accessed <= kept[k].accessed && !evicted[i].pinned && evicted[i].id != key
    ensures evicted[i].accessed == kept[k].accessed ==> Less(evicted[i].id, kept[k].id)
  {
  }

  // ------------------------------------------------------------------- transfers

  /** Which states each command leads from and to; nothing but the named fields changes. */
  lemma Transitions(q: Transfers.Queue, c: Transfers.Command)
    requires !c.Enqueue? && Transfers.Decide(q, c).Accept?
    ensures c.id in q.transfers
    ensures var t, u := q.transfers[c.id], Transfers.Decide(q, c).transfer;
      match c
      case Start(_) => t.state.Queued? && u == t.(state := Transfers.Running)
      case RecordChunk(_, offset, written) =>
        t.state.Running? && offset == t.completedBytes && 0 < written && u == t.(completedBytes := offset + written)
      case Pause(_) => t.state.Running? && u == t.(state := Transfers.Paused)
      case Resume(_) => t.state.Paused? && u == t.(state := Transfers.Running)
      case Fail(_, code, retryable) => t.state.Running? && u == t.(state := Transfers.Failed(code, retryable))
      case Retry(_) =>
        t.state.Failed? && t.state.retryable && t.attempt < 0xffff_ffff &&
        u == t.(state := Transfers.Queued, attempt := t.attempt + 1)
      case Complete(_, _) => t.state.Running? && u.state.Completed? && u == t.(state := u.state)
      case Cancel(_) => !t.state.Completed? && !t.state.Canceled? && u == t.(state := Transfers.Canceled)
      case SetPriority(_, p) => !t.state.Completed? && !t.state.Canceled? && u == t.(priority := p)
      case _ => false
  {
  }

  /** A transfer is enqueued exactly under a new, valid id, with bytes to move and a chunk
      size, and with a well-formed hash if any; it then waits with nothing done. */
  lemma EnqueueIff(q: Transfers.Queue, c: Transfers.Command)
    requires c.Enqueue?
    ensures Transfers.Decide(q, c).Accept? <==>
      Trim(c.id) != "" && Utf8Len(c.id) <= 128 && c.id !in q.transfers && 0 < c.totalBytes && 0 < c.chunkSize &&
      (c.sha.Some? ==> Transfers.NormalizeSha(c.sha.value).Some?)
    ensures Transfers.Decide(q, c).Accept? ==>
      var t := Transfers.Decide(q, c).transfer;
      t.id == c.id && t.totalBytes == c.totalBytes && t.completedBytes == 0 && t.chunkSize == c.chunkSize &&
      t.priority == c.priority && t.state.Queued? && t.enqueueOrder == q.nextOrder && t.attempt == 0 &&
      t.expectedSha == if c.sha.Some? then Transfers.NormalizeSha(c.sha.value) else None
  {
    hide Trim, Utf8Len, Transfers.NormalizeSha;
  }

  /** A hash normalizes to 64 lower-case hexadecimal digits, and such digits to themselves. */
  lemma HashIsNormal(s: string)
    ensures var r := Transfers.NormalizeSha(s);
      r.Some? ==> |r.value| == 64 && forall i :: 0 <= i < 64 ==> '0' <= r.value[i] <= '9' || 'a' <= r.value[i] <= 'f'
    ensures |s| == 64 && (forall i :: 0 <= i < 64 ==> '0' <= s[i] <= '9' || 'a' <= s[i] <= 'f') ==>
      Transfers.NormalizeSha(s) == Some(s)
  {
    if |s| == 64 && forall i :: 0 <= i < 64 ==> '0' <= s[i] <= '9' || 'a' <= s[i] <= 'f' {
      PlainTrims(s);
      assert Transfers.LowerAll(s) == s;
    }
  }

  // ------------------------------------------------------------------ communities

  /** Roles and statuses correspond in both directions. */
  lemma RoleTable(m: Communities.CommunityMember)
    ensures Communities.StatusOf(Communities.OwnerRole) == Communities.Owner &&
      Communities.StatusOf(Communities.AdminRole) == Communities.Administrator &&
      Communities.StatusOf(Communities.MemberRole) == Communities.Member &&
      Communities.StatusOf(Communities.RestrictedRole) == Communities.Restricted
    ensures Communities.ParticipantOf(m).None? <==> m.status == Communities.Left || m.status == Communities.Banned
    ensures var p := Communities.ParticipantOf(m);
      p.Some? ==>
        Communities.StatusOf(p.value.role) == m.status && p.value.actorId == m.actorId && p.value.joinedAt == m.joinedAt
  {
  }

  /** The rights a founding gives: all to the owner, none to a plain member, and to officers and
      restricted members those that were asked for. */
  lemma FoundingRights(p: Communities.Participant, asked: map<string, Communities.CommunityMember>)
    ensures var m := Communities.SeedMember(p, asked);
      m.actorId == p.actorId && m.status == Communities.StatusOf(p.role) && m.joinedAt == p.joinedAt &&
      (p.role == Communities.OwnerRole ==> forall r: Communities.Right :: r in m.rights) &&
      (p.role == Communities.MemberRole ==> m.rights == {}) &&
      (p.role == Communities.AdminRole || p.role == Communities.RestrictedRole ==>
        m.rights == if p.actorId in asked then asked[p.actorId].rights else {})
  {
    forall r: Communities.Right
      ensures r in Communities.ALL_RIGHTS
    {
      match r
      case ChangeInfo =>
      case PostMessages =>
      case EditMessages =>
      case DeleteMessages =>
      case BanMembers =>
      case InviteMembers =>
      case PinMessages =>
      case ManageTopics =>
      case ManageCalls =>
      case AddAdmins =>
      case RemainAnonymous =>
    }
  }
}
