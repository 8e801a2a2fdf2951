/** Service messages from the wire side: what each message, written out in bytes, does to the
    request that is waiting, and how a container written out is taken apart. */
module Wire {
  import opened Wrappers
  import opened Bytes
  import opened Session
  import opened Rpc

  // ------------------------------------------------------------ fields of a body

  /** A message: constructor, then the rest. */
  function Message(kind: u32, rest: bytes): bytes
  {
    LeBytes(kind, 4) + rest
  }

  lemma ReadsKind(kind: u32, rest: bytes)
    ensures ReadU32(Message(kind, rest), 0) == Some(kind)
  {
    var s := Message(kind, rest);
    assert s[0..4] == LeBytes(kind, 4);
    Le32RoundTrip(kind);
  }

  lemma ReadsI64(before: bytes, x: i64, rest: bytes)
    ensures ReadI64(before + I64ToBytes(x) + rest, |before|) == Some(x)
  {
    var s := before + I64ToBytes(x) + rest;
    assert s[|before|..|before| + 8] == I64ToBytes(x);
    I64RoundTrip(x);
  }

  lemma ReadsI32(before: bytes, x: i32, rest: bytes)
    ensures ReadI32(before + I32ToBytes(x) + rest, |before|) == Some(x)
  {
    var s := before + I32ToBytes(x) + rest;
    assert s[|before|..|before| + 4] == I32ToBytes(x);
    I32RoundTrip(x);
  }

  // ------------------------------------------------------------ service messages

  /** `rpc_result`: the request it answers, then the result. */
  function Reply(request: i64, result: bytes): bytes
  {
    LeBytes(0xf35c_6d01, 4) + I64ToBytes(request) + result
  }

  /** A reply is the result of its own request, carried verbatim, and nothing to any other; a
      reply without a result is malformed for its own request. */
  lemma ReplyAnswers(request: i64, result: bytes, waiting: i64, responseId: i64)
    ensures LeafOutcome(Reply(request, result), waiting, responseId) ==
      if waiting != request then Ok(Continue)
      else if result == [] then Err(InvalidServiceMessage)
      else Ok(RpcResult(request, responseId, result))
    ensures Announced(Reply(request, result)) == None
  {
    hide LeBytes, I64ToBytes, I32ToBytes, ReadU32, ReadI32, ReadI64;
    var s := Reply(request, result);
    assert s == Message(RPC_RESULT, I64ToBytes(request) + result);
    ReadsKind(RPC_RESULT, I64ToBytes(request) + result);
    ReadsI64(LeBytes(RPC_RESULT, 4), request, result);
    assert s[12..] == result;
  }

  /** `future_salts`: the request it answers; the whole body is the result. */
  function FutureSalts(request: i64, rest: bytes): bytes
  {
    LeBytes(0xae50_0895, 4) + I64ToBytes(request) + rest
  }

  lemma FutureSaltsAnswer(request: i64, rest: bytes, waiting: i64, responseId: i64)
    ensures var s := FutureSalts(request, rest);
      LeafOutcome(s, waiting, responseId) ==
        Ok(if waiting == request then RpcResult(request, responseId, s) else Continue) &&
      Announced(s) == None
  {
    hide LeBytes, I64ToBytes, I32ToBytes, ReadU32, ReadI32, ReadI64;
    assert FutureSalts(request, rest) == Message(FUTURE_SALTS, I64ToBytes(request) + rest);
    ReadsKind(FUTURE_SALTS, I64ToBytes(request) + rest);
    ReadsI64(LeBytes(FUTURE_SALTS, 4), request, rest);
  }

  /** `new_session_created`: first message id, unique id, salt. */
  function NewSession(first: i64, unique: i64, salt: i64, rest: bytes): bytes
  {
    LeBytes(0x9ec2_0908, 4) + I64ToBytes(first) + I64ToBytes(unique) + I64ToBytes(salt) + rest
  }

  lemma NewSessionAnnounces(first: i64, unique: i64, salt: i64, rest: bytes, waiting: i64, responseId: i64)
    ensures var s := NewSession(first, unique, salt, rest);
      LeafOutcome(s, waiting, responseId) == Ok(Continue) && Announced(s) == Some(salt)
  {
    hide LeBytes, I64ToBytes, I32ToBytes, ReadU32, ReadI32, ReadI64;
    var s := NewSession(first, unique, salt, rest);
    var before := LeBytes(NEW_SESSION_CREATED, 4) + I64ToBytes(first) + I64ToBytes(unique);
    assert s == Message(NEW_SESSION_CREATED, I64ToBytes(first) + I64ToBytes(unique) + I64ToBytes(salt) + rest);
    ReadsKind(NEW_SESSION_CREATED, I64ToBytes(first) + I64ToBytes(unique) + I64ToBytes(salt) + rest);
    assert s == before + I64ToBytes(salt) + rest;
    ReadsI64(before, salt, rest);
  }

  /** `bad_server_salt`: rejected message, its sequence number, error code, new salt. */
  function BadSalt(rejected: i64, sequence: i32, code: i32, salt: i64, rest: bytes): bytes
  {
    LeBytes(0xedab_447b, 4) + I64ToBytes(rejected) + I32ToBytes(sequence) + I32ToBytes(code) + I64ToBytes(salt) + rest
  }

  lemma BadSaltAsksForRetry(
    rejected: i64, sequence: i32, code: i32, salt: i64, rest: bytes, waiting: i64, responseId: i64)
    ensures var s := BadSalt(rejected, sequence, code, salt, rest);
      LeafOutcome(s, waiting, responseId) ==
        (if waiting == rejected then Ok(NewSalt) else Err(BadServerMessage(rejected, code))) &&
      Announced(s) == Some(salt)
  {
    hide LeBytes, I64ToBytes, I32ToBytes, ReadU32, ReadI32, ReadI64;
    var s := BadSalt(rejected, sequence, code, salt, rest);
    var kind, id, number, error, renewed :=
      LeBytes(BAD_SERVER_SALT, 4), I64ToBytes(rejected), I32ToBytes(sequence), I32ToBytes(code), I64ToBytes(salt);
    assert s == Message(BAD_SERVER_SALT, id + number + error + renewed + rest);
    ReadsKind(BAD_SERVER_SALT, id + number + error + renewed + rest);
    assert s == kind + id + (number + error + renewed + rest);
    ReadsI64(kind, rejected, number + error + renewed + rest);
    assert s == (kind + id + number) + error + (renewed + rest);
    ReadsI32(kind + id + number, code, renewed + rest);
    assert s == (kind + id + number + error) + renewed + rest;
    ReadsI64(kind + id + number + error, salt, rest);
  }

  /** `bad_msg_notification`: rejected message, its sequence number, error code. */
  function BadMessage(rejected: i64, sequence: i32, code: i32, rest: bytes): bytes
  {
    LeBytes(0xa7ef_f811, 4) + I64ToBytes(rejected) + I32ToBytes(sequence) + I32ToBytes(code) + rest
  }

  lemma BadMessageFails(rejected: i64, sequence: i32, code: i32, rest: bytes, waiting: i64, responseId: i64)
    ensures var s := BadMessage(rejected, sequence, code, rest);
      LeafOutcome(s, waiting, responseId) == Err(BadServerMessage(rejected, code)) && Announced(s) == None
  {
    hide LeBytes, I64ToBytes, I32ToBytes, ReadU32, ReadI32, ReadI64;
    var s := BadMessage(rejected, sequence, code, rest);
    var kind, id, number, error :=
      LeBytes(BAD_MSG_NOTIFICATION, 4), I64ToBytes(rejected), I32ToBytes(sequence), I32ToBytes(code);
    assert s == Message(BAD_MSG_NOTIFICATION, id + number + error + rest);
    ReadsKind(BAD_MSG_NOTIFICATION, id + number + error + rest);
    assert s == kind + id + (number + error + rest);
    ReadsI64(kind, rejected, number + error + rest);
    assert s == (kind + id + number) + error + rest;
    ReadsI32(kind + id + number, code, rest);
  }

  /** Any other message is passed over, and a body without a constructor is malformed. */
  lemma OthersContinue(kind: u32, rest: bytes, waiting: i64, responseId: i64)
    requires kind !in {0xf35c_6d01, 0xae50_0895, 0x9ec2_0908, 0xedab_447b, 0xa7ef_f811}
    ensures LeafOutcome(Message(kind, rest), waiting, responseId) == Ok(Continue) &&
      Announced(Message(kind, rest)) == None
    ensures forall s: bytes :: |s| < 4 ==> LeafOutcome(s, waiting, responseId) == Err(InvalidServiceMessage)
  {
    ReadsKind(kind, rest);
  }

  // --------------------------------------------------------- results are replies

  /** The body answers the request with this result. */
  ghost predicate AnswersWith(body: bytes, request: i64, result: bytes)
  {
    (body == Reply(request, result) && result != []) ||
    (result == body && exists rest :: body == FutureSalts(request, rest))
  }

  /** Whatever answers is a result ... */
  lemma AnswerIsResult(body: bytes, waiting: i64, responseId: i64, result: bytes)
    requires AnswersWith(body, waiting, result)
    ensures LeafOutcome(body, waiting, responseId) == Ok(RpcResult(waiting, responseId, result))
  {
    hide LeafOutcome;
    if body == Reply(waiting, result) && result != [] {
      ReplyAnswers(waiting, result, waiting, responseId);
    } else {
      var rest :| body == FutureSalts(waiting, rest);
      FutureSaltsAnswer(waiting, rest, waiting, responseId);
    }
  }

  /** ... and whatever is a result answers. */
  lemma ResultIsAnswer(body: bytes, waiting: i64, responseId: i64, result: bytes)
    requires LeafOutcome(body, waiting, responseId) == Ok(RpcResult(waiting, responseId, result))
    ensures AnswersWith(body, waiting, result)
  {
    hide LeBytes, I64ToBytes, U32FromBytes, I64FromBytes;
    var kind, id, rest := body[0..4], body[4..12], body[12..];
    U32Bytes(kind);
    I64Bytes(id);
    assert body == kind + id + rest;
    assert U32FromBytes(kind) == RPC_RESULT || U32FromBytes(kind) == FUTURE_SALTS;
    if U32FromBytes(kind) == FUTURE_SALTS { assert body == FutureSalts(waiting, rest); }
  }

  /** A leaf is a result exactly when it answers the waiting request. */
  lemma ResultIff(body: bytes, waiting: i64, responseId: i64, result: bytes)
    ensures LeafOutcome(body, waiting, responseId) == Ok(RpcResult(waiting, responseId, result)) <==>
      AnswersWith(body, waiting, result)
  {
    hide LeafOutcome, AnswersWith;
    if AnswersWith(body, waiting, result) { AnswerIsResult(body, waiting, responseId, result); }
    if LeafOutcome(body, waiting, responseId) == Ok(RpcResult(waiting, responseId, result)) {
      ResultIsAnswer(body, waiting, responseId, result);
    }
  }

  /** The result names the waiting request and the message that carried it. */
  lemma ResultNames(body: bytes, waiting: i64, responseId: i64)
    ensures var r := LeafOutcome(body, waiting, responseId);
      r.Ok? && r.value.RpcResult? ==> r.value.requestId == waiting && r.value.responseId == responseId
  {
  }

  /** A scan's result is the answer of some leaf to this request, and of the last such one:
      no later leaf has an outcome. */
  lemma {:induction false} ResultIsReply(items: seq<Item>, waiting: i64)
    requires LastOutcome(items, waiting).RpcResult?
    ensures var r := LastOutcome(items, waiting);
      r.requestId == waiting &&
      exists i :: 0 <= i < |items| && items[i].Leaf? && items[i].responseId == r.responseId &&
        AnswersWith(items[i].body, waiting, r.body)
    decreases |items|
  {
    hide LeafOutcome, AnswersWith;
    var last := items[|items| - 1];
    var front := items[..|items| - 1];
    var outcome := if last.Leaf? then LeafOutcome(last.body, waiting, last.responseId) else Ok(Continue);
    if outcome.Ok? && outcome.value != Continue {
      ResultNames(last.body, waiting, last.responseId);
      ResultIff(last.body, waiting, last.responseId, outcome.value.body);
    } else {
      ResultIsReply(front, waiting);
      var r := LastOutcome(items, waiting);
      var i :| 0 <= i < |front| && front[i].Leaf? && front[i].responseId == r.responseId &&
        AnswersWith(front[i].body, waiting, r.body);
      assert items[i] == front[i];
    }
  }

  /** So whatever `scan_rpc_body` returns as the result of a request is the answer of some leaf
      of the scanned body, however deeply nested, to this very request. */
  lemma ScanResultIsReply(body: bytes, responseId: i64, waiting: i64)
    requires Flatten(body, responseId).Some? && LastOutcome(Flatten(body, responseId).value, waiting).RpcResult?
    ensures var items := Flatten(body, responseId).value; var r := LastOutcome(items, waiting);
      r.requestId == waiting &&
      exists i :: 0 <= i < |items| && items[i].Leaf? && items[i].responseId == r.responseId &&
        AnswersWith(items[i].body, waiting, r.body)
  {
    ResultIsReply(Flatten(body, responseId).value, waiting);
  }

  /** And a reply followed by nothing with an outcome is the result. */
  lemma ReplyWins(before: seq<Item>, waiting: i64, result: bytes, responseId: i64, later: seq<Item>)
    requires result != [] && LastOutcome(later, waiting) == Continue
    ensures LastOutcome(before + [Leaf(Reply(waiting, result), responseId)] + later, waiting) ==
      RpcResult(waiting, responseId, result)
  {
    var leaf := Leaf(Reply(waiting, result), responseId);
    ReplyAnswers(waiting, result, waiting, responseId);
    hide LeafOutcome, Reply;
    OutcomeConcat(before + [leaf], later, waiting);
    OutcomeConcat(before, [leaf], waiting);
    assert [leaf][..0] == [];
  }

  // ------------------------------------------------------------------ containers

  datatype Carried = Carried(id: i64, sequence: i32, body: bytes)

  /** A carried message: id, sequence number, length, body. */
  function Entry(m: Carried): bytes
    requires |m.body| < I32_END
  {
    I64ToBytes(m.id) + I32ToBytes(m.sequence) + I32ToBytes(|m.body|) + m.body
  }

  predicate Carriable(messages: seq<Carried>)
  {
    forall i :: 0 <= i < |messages| ==> |messages[i].body| < I32_END && Flatten(messages[i].body, messages[i].id).Some?
  }

  function Entries(messages: seq<Carried>): bytes
    requires Carriable(messages)
  {
    if messages == [] then [] else Entry(messages[0]) + Entries(messages[1..])
  }

  /** A container: constructor, count, messages. */
  function Container(messages: seq<Carried>): bytes
    requires Carriable(messages) && |messages| <= 1024
  {
    LeBytes(0x73f1_f8dc, 4) + I32ToBytes(|messages|) + Entries(messages)
  }

  /** The items of the messages one after the other: each header, then what its body holds. */
  function ItemsOf(messages: seq<Carried>): seq<Item>
    requires Carriable(messages)
  {
    if messages == [] then []
    else
      [Header(messages[0].id, messages[0].sequence)] + Flatten(messages[0].body, messages[0].id).value +
      ItemsOf(messages[1..])
  }

  lemma EntryFields(before: bytes, m: Carried, rest: bytes)
    requires |m.body| < I32_END
    ensures var s, o := before + Entry(m) + rest, |before|;
      ReadI64(s, o) == Some(m.id) && ReadI32(s, o + 8) == Some(m.sequence) && ReadI32(s, o + 12) == Some(|m.body|) &&
      o + 16 + |m.body| <= |s| && s[o + 16..o + 16 + |m.body|] == m.body
  {
    hide LeBytes, I64ToBytes, I32ToBytes, ReadU32, ReadI32, ReadI64;
    var id, number, length := I64ToBytes(m.id), I32ToBytes(m.sequence), I32ToBytes(|m.body|);
    var s := before + Entry(m) + rest;
    assert s == before + id + (number + length + m.body + rest);
    ReadsI64(before, m.id, number + length + m.body + rest);
    assert s == (before + id) + number + (length + m.body + rest);
    ReadsI32(before + id, m.sequence, length + m.body + rest);
    assert s == (before + id + number) + length + (m.body + rest);
    ReadsI32(before + id + number, |m.body|, m.body + rest);
  }

  lemma {:induction false} EntriesFlatten(before: bytes, messages: seq<Carried>)
    requires before != [] && Carriable(messages)
    ensures FlattenEntries(before + Entries(messages), |before|, |messages|) == Some(ItemsOf(messages))
    decreases |messages|
  {
    hide ReadI32, ReadI64, Flatten;
    if messages == [] {
      assert before + Entries(messages) == before;
    } else {
      var m, rest := messages[0], messages[1..];
      var s := before + Entries(messages);
      assert s == before + Entry(m) + Entries(rest);
      EntryFields(before, m, Entries(rest));
      EntriesFlatten(before + Entry(m), rest);
      assert s == (before + Entry(m)) + Entries(rest);
      EntryShape(s, |before|, |messages|);
    }
  }

  /** A container written out flattens to its messages in order, each under its own id. */
  lemma ContainerFlattens(messages: seq<Carried>, responseId: i64)
    requires Carriable(messages) && |messages| <= 1024
    ensures Flatten(Container(messages), responseId) == Some(ItemsOf(messages))
  {
    var count := I32ToBytes(|messages|);
    var s := Container(messages);
    assert s == Message(MESSAGE_CONTAINER, count + Entries(messages));
    ReadsKind(MESSAGE_CONTAINER, count + Entries(messages));
    ReadsI32(LeBytes(MESSAGE_CONTAINER, 4), |messages|, Entries(messages));
    hide ReadI32, ReadU32, FlattenEntries;
    EntriesFlatten(LeBytes(MESSAGE_CONTAINER, 4) + count, messages);
  }

  /** The acknowledged ids are those of the headers with an odd sequence number, in order. */
  lemma {:induction false} AcksOf(items: seq<Item>, id: i64)
    ensures id in Acks(items) <==>
      exists i :: 0 <= i < |items| && items[i].Header? && items[i].id == id && items[i].sequence % 2 == 1
    ensures forall sequence: i32 ::
      Acks(items + [Header(id, sequence)]) == Acks(items) + if sequence % 2 == 1 then [id] else []
  {
    AcksContain(items, id);
    forall sequence: i32
      ensures Acks(items + [Header(id, sequence)]) == Acks(items) + if sequence % 2 == 1 then [id] else []
    {
      var h := Header(id, sequence);
      AcksConcat(items, [h]);
      assert [h][1..] == [];
      assert Acks([]) == [];
      assert Acks([h]) == if sequence % 2 == 1 then [id] else [];
    }
  }

  lemma {:induction false} AcksContain(items: seq<Item>, id: i64)
    ensures id in Acks(items) <==>
      exists i :: 0 <= i < |items| && items[i].Header? && items[i].id == id && items[i].sequence % 2 == 1
  {
    if items != [] {
      AcksContain(items[1..], id);
      if id in Acks(items[1..]) {
        var i :| 0 <= i < |items[1..]| && items[1..][i].Header? && items[1..][i].id == id &&
          items[1..][i].sequence % 2 == 1;
        assert items[i + 1] == items[1..][i];
      }
      if i :| 0 < i < |items| && items[i].Header? && items[i].id == id && items[i].sequence % 2 == 1 {
        assert items[1..][i - 1] == items[i];
      }
    }
  }
}
