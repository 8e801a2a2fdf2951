/** Secret chats: the 128-bit replay bitmap as a refinement of the set of accepted counters,
    and what a session keeps over every run of encryptions, decryptions and rotations. */
module SecretChat {
  import opened Wrappers
  import opened Bytes
  import opened Bits

  datatype SecretChatError =
    | EmptyPlaintext
    | Random
    | EncryptionFailed
    | AuthenticationFailed
    | IdentityMismatch
    | InvalidIdentity
    | InvalidCounter
    | CounterOverflow
    | ReplayDetected
    | StaleMessage
    | EpochMismatch(expected: u64, actual: u64)
    | NonMonotonicEpoch(current: u64, requested: u64)
    | KeyDerivation
    | UnsupportedVersion
    | UnsupportedAlgorithm
    | InvalidEncoding

  const WINDOW: nat := 128

  // --------------------------------------------------------------- replay window

  /** The specification: the verdict on a counter, from the set of accepted counters. */
  ghost function Verdict(accepted: set<u64>, counter: u64): Option<SecretChatError>
  {
    if counter == 0 then Some(InvalidCounter)
    else if exists c :: c in accepted && counter + WINDOW <= c then Some(StaleMessage)
    else if counter in accepted then Some(ReplayDetected)
    else None
  }

  /** Bit i of the bitmap is set exactly when highest - i was accepted. */
  ghost predicate Tracks(bitmap: nat, highest: u64, accepted: set<u64>)
  {
    forall i: nat :: i < WINDOW ==> (Bit(bitmap, i) <==> i <= highest && highest - i in accepted)
  }

  /** A counter beyond the whole window leaves only itself to remember ... */
  lemma OneTracks(accepted: set<u64>, counter: u64)
    requires forall c :: c in accepted ==> c + WINDOW <= counter
    ensures 1 < Pow2(WINDOW) && Tracks(1, counter, accepted + {counter})
  {
    assert Pow2(0) == 1;
    PowerGrows(0, WINDOW);
    forall i: nat | i < WINDOW
      ensures Bit(1, i) <==> i <= counter && counter - i in accepted + {counter}
    {
      BitOfPow2(0, i);
    }
  }

  /** ... a nearer one shifts the bitmap ... */
  lemma ShiftTracks(bitmap: nat, highest: u64, accepted: set<u64>, counter: u64)
    requires Tracks(bitmap, highest, accepted) && highest < counter < highest + WINDOW
    requires forall c :: c in accepted ==> c <= highest
    ensures var b := OrBits(ShiftLeft(bitmap, counter - highest, WINDOW), 1, WINDOW);
      b < Pow2(WINDOW) && Tracks(b, counter, accepted + {counter})
  {
    var shift := counter - highest;
    var shifted := ShiftLeft(bitmap, shift, WINDOW);
    OrBound(shifted, 1, WINDOW);
    assert Pow2(0) == 1;
    forall i: nat | i < WINDOW
      ensures Bit(OrBits(shifted, 1, WINDOW), i) <==> i <= counter && counter - i in accepted + {counter}
    {
      BitOfPow2(0, i);
      BitOfOr(shifted, 1, WINDOW, i);
      BitOfShift(bitmap, shift, WINDOW, i);
      if shift <= i { assert counter - i == highest - (i - shift); }
    }
  }

  /** ... and an older one inside the window sets its bit. */
  lemma SetTracks(bitmap: nat, highest: u64, accepted: set<u64>, counter: u64)
    requires Tracks(bitmap, highest, accepted) && counter <= highest < counter + WINDOW
    ensures var b := OrBits(bitmap, Pow2(highest - counter), WINDOW);
      b < Pow2(WINDOW) && Tracks(b, highest, accepted + {counter})
  {
    var distance := highest - counter;
    OrBound(bitmap, Pow2(distance), WINDOW);
    forall i: nat | i < WINDOW
      ensures Bit(OrBits(bitmap, Pow2(distance), WINDOW), i) <==> i <= highest && highest - i in accepted + {counter}
    {
      BitOfOr(bitmap, Pow2(distance), WINDOW, i);
      BitOfPow2(distance, i);
    }
  }

  lemma {:induction false} PowerGrows(m: nat, n: nat)
    requires m < n
    ensures Pow2(m) < Pow2(n)
  {
    if m + 1 < n { PowerGrows(m, n - 1); }
  }

  class ReplayWindow {
    var highest: u64
    var bitmap: nat
    ghost var accepted: set<u64>

    ghost predicate Valid()
      reads this
    {
      0 !in accepted &&
      (highest == 0 ==> accepted == {}) &&
      (highest != 0 ==> highest in accepted) &&
      (forall c :: c in accepted ==> c <= highest) &&
      bitmap < Pow2(WINDOW) &&
      (highest != 0 ==> Tracks(bitmap, highest, accepted))
    }

    constructor ()
      ensures Valid() && accepted == {}
    {
      highest, bitmap, accepted := 0, 0, {};
    }

    method Check(counter: u64) returns (error: Option<SecretChatError>)
      requires Valid()
      ensures error == Verdict(accepted, counter)
    {
      if counter == 0 {
        return Some(InvalidCounter);
      }
      if highest == 0 || counter > highest {
        return None;
      }
      var distance := highest - counter;
      if distance >= WINDOW {
        return Some(StaleMessage);
      }
      AndTestsBit(bitmap, distance, WINDOW);
      assert highest - distance == counter;
      if AndBits(bitmap, Pow2(distance), WINDOW) != 0 {
        return Some(ReplayDetected);
      }
      return None;
    }

    method Mark(counter: u64)
      requires Valid() && counter != 0
      modifies this
      ensures Valid() && accepted == old(accepted) + {counter}
    {
      hide Bit, Pow2, OrBits;
      if highest == 0 {
        OneTracks({}, counter);
        highest, bitmap, accepted := counter, 1, {} + {counter};
        return;
      }
      if counter > highest {
        var shift := counter - highest;
        if shift >= WINDOW {
          OneTracks(accepted, counter);
          bitmap := 1;
        } else {
          ShiftTracks(bitmap, highest, accepted, counter);
          bitmap := OrBits(ShiftLeft(bitmap, shift, WINDOW), 1, WINDOW);
        }
        highest, accepted := counter, accepted + {counter};
        return;
      }
      var distance := highest - counter;
      if distance < WINDOW {
        SetTracks(bitmap, highest, accepted, counter);
        bitmap := OrBits(bitmap, Pow2(distance), WINDOW);
      }
      accepted := accepted + {counter};
    }
  }

  // --------------------------------------------------------------------- session

  datatype Aad = Aad(conversation: string, epoch: u64, sender: string, recipient: string, counter: u64)

  /** An envelope; `None` stands for a field that is not valid base64 of the right length. */
  datatype Envelope = Envelope(
    supportedVersion: bool, supportedAlgorithm: bool, aad: Aad, nonce: Option<bytes>, ciphertext: Option<bytes>)

  /** The authenticated cipher: key, nonce, associated data and text. */
  datatype Cipher = Cipher(
    seal: (bytes, bytes, Aad, bytes) -> Option<bytes>,
    unseal: (bytes, bytes, Aad, bytes) -> Option<bytes>)

  /** What is assumed of it: opening undoes sealing. */
  ghost predicate Inverts(cipher: Cipher)
  {
    forall key, nonce, aad, text :: cipher.seal(key, nonce, aad, text).Some? ==>
      cipher.unseal(key, nonce, aad, cipher.seal(key, nonce, aad, text).value) == Some(text)
  }

  /** A session as the specification sees it: the window is a set. */
  datatype State = State(
    conversation: string, local: string, peer: string, epoch: u64, key: bytes, sendCounter: u64, accepted: set<u64>)

  datatype Command =
    | Encrypt(plaintext: bytes, nonce: Option<bytes>)
    | Decrypt(envelope: Envelope)
    | Rotate(nextEpoch: u64, derived: Option<bytes>)

  datatype Output =
    | Sent(envelope: Envelope)
    | Received(epoch: u64, counter: u64, plaintext: bytes)
    | Rotated
    | Failed(error: SecretChatError)

  datatype Step = Step(state: State, output: Output)

  function EncryptOf(cipher: Cipher, s: State, plaintext: bytes, nonce: Option<bytes>): Step
  {
    if plaintext == [] then Step(s, Failed(EmptyPlaintext))
    else if s.sendCounter + 1 >= U64_END then Step(s, Failed(CounterOverflow))
    else
      var next := s.(sendCounter := s.sendCounter + 1);
      if nonce.None? then Step(next, Failed(Random))
      else
        var aad := Aad(s.conversation, s.epoch, s.local, s.peer, next.sendCounter);
        var sealed := cipher.seal(s.key, nonce.value, aad, plaintext);
        if sealed.None? then Step(next, Failed(EncryptionFailed))
        else Step(next, Sent(Envelope(true, true, aad, nonce, sealed)))
  }

  ghost function DecryptOf(cipher: Cipher, s: State, e: Envelope): Step
  {
    if !e.supportedVersion then Step(s, Failed(UnsupportedVersion))
    else if !e.supportedAlgorithm then Step(s, Failed(UnsupportedAlgorithm))
    else if e.aad.conversation != s.conversation || e.aad.sender != s.peer || e.aad.recipient != s.local then
      Step(s, Failed(IdentityMismatch))
    else if e.aad.epoch != s.epoch then Step(s, Failed(EpochMismatch(s.epoch, e.aad.epoch)))
    else if Verdict(s.accepted, e.aad.counter).Some? then Step(s, Failed(Verdict(s.accepted, e.aad.counter).value))
    else if e.nonce.None? || e.ciphertext.None? then Step(s, Failed(InvalidEncoding))
    else
      var text := cipher.unseal(s.key, e.nonce.value, e.aad, e.ciphertext.value);
      if text.None? then Step(s, Failed(AuthenticationFailed))
      else Step(s.(accepted := s.accepted + {e.aad.counter}), Received(s.epoch, e.aad.counter, text.value))
  }

  function RotateOf(s: State, nextEpoch: u64, derived: Option<bytes>): Step
  {
    if nextEpoch <= s.epoch then Step(s, Failed(NonMonotonicEpoch(s.epoch, nextEpoch)))
    else if derived.None? then Step(s, Failed(KeyDerivation))
    else Step(s.(key := derived.value, epoch := nextEpoch, sendCounter := 0, accepted := {}), Rotated)
  }

  ghost function StepOf(cipher: Cipher, s: State, c: Command): Step
  {
    match c
    case Encrypt(plaintext, nonce) => EncryptOf(cipher, s, plaintext, nonce)
    case Decrypt(envelope) => DecryptOf(cipher, s, envelope)
    case Rotate(nextEpoch, derived) => RotateOf(s, nextEpoch, derived)
  }

  /** The session object; every method is the step of the set-based specification. */
  class SecretChatSession {
    const cipher: Cipher
    const conversation: string
    const local: string
    const peer: string
    var epoch: u64
    var rootKey: bytes
    var sendCounter: u64
    var replay: ReplayWindow

    ghost predicate Valid()
      reads this, replay
    {
      replay.Valid()
    }

    ghost function View(): State
      reads this, replay
    {
      State(conversation, local, peer, epoch, rootKey, sendCounter, replay.accepted)
    }

    constructor (cipher: Cipher, conversation: string, local: string, peer: string, epoch: u64, rootKey: bytes)
      ensures Valid() && fresh(replay) && this.cipher == cipher
      ensures View() == State(conversation, local, peer, epoch, rootKey, 0, {})
    {
      this.cipher, this.conversation, this.local, this.peer := cipher, conversation, local, peer;
      this.epoch, this.rootKey, sendCounter := epoch, rootKey, 0;
      replay := new ReplayWindow();
    }

    method Rotate(nextEpoch: u64, derived: Option<bytes>) returns (output: Output)
      requires Valid()
      modifies this
      ensures Valid() && (fresh(replay) || replay == old(replay))
      ensures Step(View(), output) == RotateOf(old(View()), nextEpoch, derived)
    {
      if nextEpoch <= epoch {
        return Failed(NonMonotonicEpoch(epoch, nextEpoch));
      }
      if derived.None? {
        return Failed(KeyDerivation);
      }
      rootKey, epoch, sendCounter := derived.value, nextEpoch, 0;
      replay := new ReplayWindow();
      return Rotated;
    }

    method Encrypt(plaintext: bytes, nonce: Option<bytes>) returns (output: Output)
      requires Valid()
      modifies this`sendCounter
      ensures Valid()
      ensures Step(View(), output) == EncryptOf(cipher, old(View()), plaintext, nonce)
    {
      if plaintext == [] {
        return Failed(EmptyPlaintext);
      }
      if sendCounter + 1 >= U64_END {
        return Failed(CounterOverflow);
      }
      sendCounter := sendCounter + 1;
      if nonce.None? {
        return Failed(Random);
      }
      var aad := Aad(conversation, epoch, local, peer, sendCounter);
      var sealed := cipher.seal(rootKey, nonce.value, aad, plaintext);
      if sealed.None? {
        return Failed(EncryptionFailed);
      }
      return Sent(Envelope(true, true, aad, nonce, sealed));
    }

    method Decrypt(e: Envelope) returns (output: Output)
      requires Valid()
      modifies replay
      ensures Valid()
      ensures Step(View(), output) == DecryptOf(cipher, old(View()), e)
    {
      if !e.supportedVersion {
        return Failed(UnsupportedVersion);
      }
      if !e.supportedAlgorithm {
        return Failed(UnsupportedAlgorithm);
      }
      if e.aad.conversation != conversation || e.aad.sender != peer || e.aad.recipient != local {
        return Failed(IdentityMismatch);
      }
      if e.aad.epoch != epoch {
        return Failed(EpochMismatch(epoch, e.aad.epoch));
      }
      var verdict := replay.Check(e.aad.counter);
      if verdict.Some? {
        return Failed(verdict.value);
      }
      if e.nonce.None? || e.ciphertext.None? {
        return Failed(InvalidEncoding);
      }
      var text := cipher.unseal(rootKey, e.nonce.value,
        Aad(conversation, epoch, e.aad.sender, e.aad.recipient, e.aad.counter), e.ciphertext.value);
      if text.None? {
        return Failed(AuthenticationFailed);
      }
      replay.Mark(e.aad.counter);
      return Received(epoch, e.aad.counter, text.value);
    }
  }

  // ------------------------------------------------------------------ whole runs

  /** The outputs of a run of commands. */
  ghost function Run(cipher: Cipher, s: State, commands: seq<Command>): (outputs: seq<Output>)
    ensures |outputs| == |commands|
    decreases |commands|
  {
    if commands == [] then []
    else
      var step := StepOf(cipher, s, commands[0]);
      [step.output] + Run(cipher, step.state, commands[1..])
  }

  /** (epoch, counter) pairs in the order of sending. */
  predicate Before(e: u64, c: u64, f: u64, d: u64)
  {
    e < f || (e == f && c < d)
  }

  /** Whatever is received after a state belongs to a later epoch, or to this one with a
      counter not accepted before. */
  lemma {:induction false} ReceivedIsNew(cipher: Cipher, s: State, commands: seq<Command>, j: nat)
    requires j < |commands| && Run(cipher, s, commands)[j].Received?
    ensures var o := Run(cipher, s, commands)[j]; o.epoch > s.epoch || (o.epoch == s.epoch && o.counter !in s.accepted)
    decreases |commands|
  {
    if j != 0 { ReceivedIsNew(cipher, StepOf(cipher, s, commands[0]).state, commands[1..], j - 1); }
  }

  /** No (epoch, counter) pair decrypts twice, over every run with any rotations. */
  lemma {:induction false} NoPairDecryptsTwice(cipher: Cipher, s: State, commands: seq<Command>, i: nat, j: nat)
    requires i < j < |commands| && Run(cipher, s, commands)[i].Received? && Run(cipher, s, commands)[j].Received?
    ensures var o, p := Run(cipher, s, commands)[i], Run(cipher, s, commands)[j];
      (o.epoch, o.counter) != (p.epoch, p.counter)
    decreases |commands|
  {
    var next := StepOf(cipher, s, commands[0]).state;
    if i != 0 {
      NoPairDecryptsTwice(cipher, next, commands[1..], i - 1, j - 1);
    } else {
      ReceivedIsNew(cipher, next, commands[1..], j - 1);
    }
  }

  lemma {:induction false} SentIsLater(cipher: Cipher, s: State, commands: seq<Command>, j: nat)
    requires j < |commands| && Run(cipher, s, commands)[j].Sent?
    ensures var a := Run(cipher, s, commands)[j].envelope.aad; Before(s.epoch, s.sendCounter, a.epoch, a.counter)
    decreases |commands|
  {
    if j != 0 { SentIsLater(cipher, StepOf(cipher, s, commands[0]).state, commands[1..], j - 1); }
  }

  /** Sent (epoch, counter) pairs strictly increase, so no nonce-and-associated-data pair is
      ever sealed twice by one session. */
  lemma {:induction false} SentPairsIncrease(cipher: Cipher, s: State, commands: seq<Command>, i: nat, j: nat)
    requires i < j < |commands| && Run(cipher, s, commands)[i].Sent? && Run(cipher, s, commands)[j].Sent?
    ensures var a, b := Run(cipher, s, commands)[i].envelope.aad, Run(cipher, s, commands)[j].envelope.aad;
      Before(a.epoch, a.counter, b.epoch, b.counter)
    decreases |commands|
  {
    var next := StepOf(cipher, s, commands[0]).state;
    if i != 0 {
      SentPairsIncrease(cipher, next, commands[1..], i - 1, j - 1);
    } else {
      SentIsLater(cipher, next, commands[1..], j - 1);
    }
  }

  // -------------------------------------------------------------------- delivery

  /** The two ends of one chat under one key. */
  predicate Paired(a: State, b: State)
  {
    a.conversation == b.conversation && a.local == b.peer && a.peer == b.local && a.epoch == b.epoch && a.key == b.key
  }

  /** e is what some state of the sender's current epoch produced for plaintext. */
  predicate SealedBy(cipher: Cipher, a: State, e: Envelope, plaintext: bytes)
  {
    e.supportedVersion && e.supportedAlgorithm && e.nonce.Some? && e.ciphertext.Some? &&
    e.aad == Aad(a.conversation, a.epoch, a.local, a.peer, e.aad.counter) &&
    cipher.seal(a.key, e.nonce.value, e.aad, plaintext) == e.ciphertext
  }

  lemma EncryptSeals(cipher: Cipher, s: State, plaintext: bytes, nonce: Option<bytes>)
    requires EncryptOf(cipher, s, plaintext, nonce).output.Sent?
    ensures SealedBy(cipher, s, EncryptOf(cipher, s, plaintext, nonce).output.envelope, plaintext)
  {
  }

  /** A genuine envelope is opened to its plaintext exactly when its counter is unseen and
      inside the window; otherwise the refusal is the window's verdict. */
  lemma GenuineDecryptsIff(cipher: Cipher, a: State, b: State, e: Envelope, plaintext: bytes)
    requires Inverts(cipher) && Paired(a, b) && SealedBy(cipher, a, e, plaintext)
    ensures var v := Verdict(b.accepted, e.aad.counter);
      DecryptOf(cipher, b, e).output ==
        (if v.None? then Received(b.epoch, e.aad.counter, plaintext) else Failed(v.value))
  {
  }

  /** Positive, pairwise distinct counters, each less than 128 behind every earlier one. */
  ghost predicate MildlyReordered(envelopes: seq<Envelope>)
  {
    (forall j :: 0 <= j < |envelopes| ==> envelopes[j].aad.counter != 0) &&
    (forall i, j :: 0 <= i < j < |envelopes| ==>
      envelopes[i].aad.counter != envelopes[j].aad.counter &&
      envelopes[i].aad.counter < envelopes[j].aad.counter + WINDOW)
  }

  ghost predicate Admits(accepted: set<u64>, envelopes: seq<Envelope>)
  {
    forall j, c :: 0 <= j < |envelopes| && c in accepted ==>
      c != envelopes[j].aad.counter && c < envelopes[j].aad.counter + WINDOW
  }

  /** Genuine envelopes reordered by less than the window are all delivered, each once,
      in the order of arrival. */
  lemma {:induction false} ReorderedEnvelopesArrive(
    cipher: Cipher, a: State, b: State, envelopes: seq<Envelope>, texts: seq<bytes>)
    requires Inverts(cipher) && Paired(a, b) && |texts| == |envelopes|
    requires forall j :: 0 <= j < |envelopes| ==> SealedBy(cipher, a, envelopes[j], texts[j])
    requires MildlyReordered(envelopes) && Admits(b.accepted, envelopes)
    ensures Run(cipher, b, seq(|envelopes|, j requires 0 <= j < |envelopes| => Decrypt(envelopes[j]))) ==
      seq(|envelopes|, j requires 0 <= j < |envelopes| => Received(b.epoch, envelopes[j].aad.counter, texts[j]))
    decreases |envelopes|
  {
    var commands := seq(|envelopes|, j requires 0 <= j < |envelopes| => Decrypt(envelopes[j]));
    if envelopes != [] {
      GenuineDecryptsIff(cipher, a, b, envelopes[0], texts[0]);
      assert commands[0] == Decrypt(envelopes[0]);
      var next := StepOf(cipher, b, commands[0]).state;
      assert next == b.(accepted := b.accepted + {envelopes[0].aad.counter});
      ReorderedEnvelopesArrive(cipher, a, next, envelopes[1..], texts[1..]);
      assert commands[1..] == seq(|envelopes| - 1, j requires 0 <= j < |envelopes| - 1 => Decrypt(envelopes[1..][j]));
    }
  }

  // ------------------------------------------------ from one end's run to the other's

  function Encrypts(texts: seq<bytes>, nonces: seq<Option<bytes>>): (r: seq<Command>)
    requires |texts| == |nonces|
    ensures |r| == |texts|
  {
    seq(|texts|, i requires 0 <= i < |texts| => Encrypt(texts[i], nonces[i]))
  }

  /** Whatever a run of encryptions sends is sealed under the session it started from. */
  lemma {:induction false} RunSeals(cipher: Cipher, a: State, texts: seq<bytes>, nonces: seq<Option<bytes>>, j: nat)
    requires |texts| == |nonces| && j < |texts| && Run(cipher, a, Encrypts(texts, nonces))[j].Sent?
    ensures SealedBy(cipher, a, Run(cipher, a, Encrypts(texts, nonces))[j].envelope, texts[j])
    decreases |texts|
  {
    var commands := Encrypts(texts, nonces);
    assert commands[0] == Encrypt(texts[0], nonces[0]);
    if j == 0 {
      EncryptSeals(cipher, a, texts[0], nonces[0]);
    } else {
      var next := StepOf(cipher, a, commands[0]).state;
      assert commands[1..] == Encrypts(texts[1..], nonces[1..]);
      RunSeals(cipher, next, texts[1..], nonces[1..], j - 1);
    }
  }

  /** Each encryption takes at most one counter. */
  lemma {:induction false} CounterBound(cipher: Cipher, a: State, texts: seq<bytes>, nonces: seq<Option<bytes>>, j: nat)
    requires |texts| == |nonces| && j < |texts| && Run(cipher, a, Encrypts(texts, nonces))[j].Sent?
    ensures Run(cipher, a, Encrypts(texts, nonces))[j].envelope.aad.counter <= a.sendCounter + j + 1
    decreases |texts|
  {
    var commands := Encrypts(texts, nonces);
    assert commands[0] == Encrypt(texts[0], nonces[0]);
    if j != 0 {
      var next := StepOf(cipher, a, commands[0]).state;
      assert commands[1..] == Encrypts(texts[1..], nonces[1..]);
      CounterBound(cipher, next, texts[1..], nonces[1..], j - 1);
    }
  }

  /** So counters lie no further apart than the sends. */
  lemma {:induction false} CounterGap(
    cipher: Cipher, a: State, texts: seq<bytes>, nonces: seq<Option<bytes>>, i: nat, j: nat)
    requires |texts| == |nonces| && i < j < |texts|
    requires Run(cipher, a, Encrypts(texts, nonces))[i].Sent? && Run(cipher, a, Encrypts(texts, nonces))[j].Sent?
    ensures var outputs := Run(cipher, a, Encrypts(texts, nonces));
      outputs[i].envelope.aad.counter < outputs[j].envelope.aad.counter <= outputs[i].envelope.aad.counter + (j - i)
    decreases |texts|
  {
    var commands := Encrypts(texts, nonces);
    assert commands[0] == Encrypt(texts[0], nonces[0]);
    var next := StepOf(cipher, a, commands[0]).state;
    assert commands[1..] == Encrypts(texts[1..], nonces[1..]);
    if i == 0 {
      CounterBound(cipher, next, texts[1..], nonces[1..], j - 1);
      SentIsLater(cipher, next, commands[1..], j - 1);
      RunSeals(cipher, next, texts[1..], nonces[1..], j - 1);
    } else {
      CounterGap(cipher, next, texts[1..], nonces[1..], i - 1, j - 1);
    }
  }

  /** Which sends arrive, and in which order: each at most once, none overtaken by a send
      128 or more later. */
  ghost predicate Arrivals(outputs: seq<Output>, order: seq<nat>)
  {
    (forall k :: 0 <= k < |order| ==> order[k] < |outputs| && outputs[order[k]].Sent?) &&
    (forall k, l :: 0 <= k < l < |order| ==> order[k] != order[l] && order[k] < order[l] + WINDOW)
  }

  function Arriving(outputs: seq<Output>, order: seq<nat>): (r: seq<Envelope>)
    requires forall k :: 0 <= k < |order| ==> order[k] < |outputs| && outputs[order[k]].Sent?
    ensures |r| == |order|
  {
    seq(|order|, k requires 0 <= k < |order| => outputs[order[k]].envelope)
  }

  lemma ArrivalsAreMild(cipher: Cipher, a: State, texts: seq<bytes>, nonces: seq<Option<bytes>>, order: seq<nat>)
    requires |texts| == |nonces| && Arrivals(Run(cipher, a, Encrypts(texts, nonces)), order)
    ensures MildlyReordered(Arriving(Run(cipher, a, Encrypts(texts, nonces)), order))
  {
    var commands := Encrypts(texts, nonces);
    var outputs := Run(cipher, a, commands);
    var envelopes := Arriving(outputs, order);
    forall k | 0 <= k < |order|
      ensures envelopes[k].aad.counter != 0
    {
      SentIsLater(cipher, a, commands, order[k]);
      RunSeals(cipher, a, texts, nonces, order[k]);
    }
    forall k, l | 0 <= k < l < |order|
      ensures envelopes[k].aad.counter != envelopes[l].aad.counter &&
        envelopes[k].aad.counter < envelopes[l].aad.counter + WINDOW
    {
      if order[k] < order[l] {
        CounterGap(cipher, a, texts, nonces, order[k], order[l]);
      } else {
        CounterGap(cipher, a, texts, nonces, order[l], order[k]);
      }
    }
  }

  /** Delivery end to end: of the messages one end encrypts, those that arrive, lost ones
      and failed encryptions aside and reordered by less than the window, are opened by the
      other end to their plaintexts, each once and in the order of arrival, provided it has
      seen nothing beyond what the sender had sent before. */
  lemma SentMessagesAreDelivered(
    cipher: Cipher, a: State, b: State, texts: seq<bytes>, nonces: seq<Option<bytes>>, order: seq<nat>)
    requires Inverts(cipher) && Paired(a, b) && |texts| == |nonces|
    requires Arrivals(Run(cipher, a, Encrypts(texts, nonces)), order)
    requires forall c :: c in b.accepted ==> c <= a.sendCounter
    ensures var envelopes := Arriving(Run(cipher, a, Encrypts(texts, nonces)), order);
      Run(cipher, b, seq(|envelopes|, k requires 0 <= k < |envelopes| => Decrypt(envelopes[k]))) ==
      seq(|envelopes|, k requires 0 <= k < |envelopes| => Received(b.epoch, envelopes[k].aad.counter, texts[order[k]]))
  {
    hide Run, Inverts, Encrypts, SealedBy;
    var commands := Encrypts(texts, nonces);
    var outputs := Run(cipher, a, commands);
    var envelopes := Arriving(outputs, order);
    var plain := seq(|order|, k requires 0 <= k < |order| => texts[order[k]]);
    ArrivalsAreMild(cipher, a, texts, nonces, order);
    forall k | 0 <= k < |envelopes|
      ensures SealedBy(cipher, a, envelopes[k], plain[k]) && a.sendCounter < envelopes[k].aad.counter
    {
      RunSeals(cipher, a, texts, nonces, order[k]);
      SentIsLater(cipher, a, commands, order[k]);
      SealedInEpoch(cipher, a, envelopes[k], plain[k]);
    }
    ReorderedEnvelopesArrive(cipher, a, b, envelopes, plain);
    assert seq(|envelopes|, k requires 0 <= k < |envelopes| =>
      Received(b.epoch, envelopes[k].aad.counter, texts[order[k]])) ==
      seq(|envelopes|, k requires 0 <= k < |envelopes| => Received(b.epoch, envelopes[k].aad.counter, plain[k]));
  }

  lemma SealedInEpoch(cipher: Cipher, a: State, e: Envelope, plaintext: bytes)
    requires SealedBy(cipher, a, e, plaintext)
    ensures e.aad.epoch == a.epoch
  {
  }
}
