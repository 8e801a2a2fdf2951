/** Scanning decrypted server messages: arbitrarily nested containers as a left-to-right pass
    over the flattened items, and the acknowledgements of a whole session. */
module Rpc {
  import opened Wrappers
  import opened Bytes
  import opened Session

  const RPC_RESULT: u32 := 0xf35c_6d01
  const FUTURE_SALTS: u32 := 0xae50_0895
  const NEW_SESSION_CREATED: u32 := 0x9ec2_0908
  const BAD_SERVER_SALT: u32 := 0xedab_447b
  const BAD_MSG_NOTIFICATION: u32 := 0xa7ef_f811
  const MESSAGE_CONTAINER: u32 := 0x73f1_f8dc

  datatype NetworkError =
    | InvalidServiceMessage
    | InvalidSystemClock
    | MessageId(reason: MessageIdError)
    | BadServerMessage(messageId: i64, code: i32)

  datatype Outcome =
    | Continue
    | NewSalt
    | RpcResult(requestId: i64, responseId: i64, body: bytes)

  function ReadU32(s: bytes, offset: nat): Option<u32>
  {
    if offset + 4 <= |s| then Some(U32FromBytes(s[offset..offset + 4])) else None
  }

  function ReadI32(s: bytes, offset: nat): Option<i32>
  {
    if offset + 4 <= |s| then Some(I32FromBytes(s[offset..offset + 4])) else None
  }

  function ReadI64(s: bytes, offset: nat): Option<i64>
  {
    if offset + 8 <= |s| then Some(I64FromBytes(s[offset..offset + 8])) else None
  }

  // ---------------------------------------------------------------- flattening

  /** A scanned body in reading order: the header of every contained message, and every
      body that is not itself a container. */
  datatype Item = Header(id: i64, sequence: i32) | Leaf(body: bytes, responseId: i64)

  function Join(a: seq<Item>, b: Option<seq<Item>>): Option<seq<Item>>
  {
    if b.Some? then Some(a + b.value) else None
  }

  function Flatten(body: bytes, responseId: i64): Option<seq<Item>>
    decreases |body|, 1, 0
  {
    if ReadU32(body, 0) != Some(MESSAGE_CONTAINER) then Some([Leaf(body, responseId)])
    else
      var count := ReadI32(body, 4);
      if count.None? || !(0 <= count.value <= 1024) then None else FlattenEntries(body, 8, count.value)
  }

  function FlattenEntries(body: bytes, offset: nat, count: nat): Option<seq<Item>>
    requires 0 < offset
    decreases |body|, 0, count
  {
    if count == 0 then if offset == |body| then Some([]) else None
    else
      var id, sequence, length := ReadI64(body, offset), ReadI32(body, offset + 8), ReadI32(body, offset + 12);
      if length.None? || length.value < 0 || offset + 16 + length.value > |body| then None
      else
        var end := offset + 16 + length.value;
        var inner := Flatten(body[offset + 16..end], id.value);
        if inner.None? then None
        else Join([Header(id.value, sequence.value)] + inner.value, FlattenEntries(body, end, count - 1))
  }

  // ------------------------------------------------- what the items amount to

  function LeafOutcome(body: bytes, request: i64, responseId: i64): Result<Outcome, NetworkError>
  {
    var kind := ReadU32(body, 0);
    var id := ReadI64(body, 4);
    if kind.None? then Err(InvalidServiceMessage)
    else if kind.value == RPC_RESULT then
      if id.None? then Err(InvalidServiceMessage)
      else if id.value != request then Ok(Continue)
      else if |body| == 12 then Err(InvalidServiceMessage)
      else Ok(RpcResult(request, responseId, body[12..]))
    else if kind.value == FUTURE_SALTS then
      if id.None? then Err(InvalidServiceMessage)
      else if id.value != request then Ok(Continue)
      else Ok(RpcResult(request, responseId, body))
    else if kind.value == NEW_SESSION_CREATED then
      if ReadI64(body, 20).None? then Err(InvalidServiceMessage) else Ok(Continue)
    else if kind.value == BAD_SERVER_SALT then
      if id.None? || ReadI32(body, 16).None? then Err(InvalidServiceMessage)
      else if id.value != request then Err(BadServerMessage(id.value, ReadI32(body, 16).value))
      else if ReadI64(body, 20).None? then Err(InvalidServiceMessage)
      else Ok(NewSalt)
    else if kind.value == BAD_MSG_NOTIFICATION then
      if id.None? || ReadI32(body, 16).None? then Err(InvalidServiceMessage)
      else Err(BadServerMessage(id.value, ReadI32(body, 16).value))
    else Ok(Continue)
  }

  /** The salt a leaf announces. */
  function Announced(body: bytes): Option<i64>
  {
    if ReadU32(body, 0) == Some(NEW_SESSION_CREATED) || ReadU32(body, 0) == Some(BAD_SERVER_SALT) then ReadI64(body, 20)
    else None
  }

  predicate LeavesOk(items: seq<Item>, request: i64)
  {
    forall i :: 0 <= i < |items| && items[i].Leaf? ==> LeafOutcome(items[i].body, request, items[i].responseId).Ok?
  }

  /** The outcome of the last leaf that has one. */
  function LastOutcome(items: seq<Item>, request: i64): Outcome
  {
    if items == [] then Continue
    else
      var last := items[|items| - 1];
      var outcome := if last.Leaf? then LeafOutcome(last.body, request, last.responseId) else Ok(Continue);
      if outcome.Ok? && outcome.value != Continue then outcome.value else LastOutcome(items[..|items| - 1], request)
  }

  /** The salt announced last. */
  function LastSalt(salt: i64, items: seq<Item>): i64
  {
    if items == [] then salt
    else
      var last := items[|items| - 1];
      if last.Leaf? && Announced(last.body).Some? then Announced(last.body).value
      else LastSalt(salt, items[..|items| - 1])
  }

  function Ids(items: seq<Item>): seq<i64>
  {
    if items == [] then []
    else (if items[0].Header? then [items[0].id] else []) + Ids(items[1..])
  }

  /** The ids with an odd sequence number, in reading order. */
  function Acks(items: seq<Item>): seq<i64>
  {
    if items == [] then []
    else (if items[0].Header? && items[0].sequence % 2 == 1 then [items[0].id] else []) + Acks(items[1..])
  }

  // ------------------------------------------------------------ session state

  datatype Net = Net(salt: i64, ever: set<i64>, ticks: nat)

  /** The state after a successful pass over items. */
  ghost function After(net: Net, items: seq<Item>): Net
  {
    Net(LastSalt(net.salt, items), net.ever + (set id | id in Ids(items)), net.ticks + |Ids(items)|)
  }

  /** The guard accepts every header in turn, each at its own reading of the clock. */
  ghost predicate Passes(net: Net, n: nat, clock: nat -> Option<i64>, items: seq<Item>)
    decreases |items|
  {
    items == [] ||
    (if items[0].Leaf? then Passes(net, n, clock, items[1..])
     else
       var now := clock(net.ticks);
       now.Some? && Verdict(net.ever, n, items[0].id, now.value).None? &&
       Passes(net.(ever := net.ever + {items[0].id}, ticks := net.ticks + 1), n, clock, items[1..]))
  }

  ghost predicate Accepts(net: Net, n: nat, clock: nat -> Option<i64>, request: i64, items: Option<seq<Item>>)
  {
    items.Some? && LeavesOk(items.value, request) && Passes(net, n, clock, items.value)
  }

  lemma {:induction false} OutcomeConcat(a: seq<Item>, b: seq<Item>, request: i64)
    ensures LastOutcome(a + b, request) ==
      if LastOutcome(b, request) != Continue then LastOutcome(b, request) else LastOutcome(a, request)
    decreases |b|
  {
    if b == [] {
      assert a + b == a;
    } else {
      OutcomeConcat(a, b[..|b| - 1], request);
      assert (a + b)[..|a + b| - 1] == a + b[..|b| - 1];
    }
  }

  lemma {:induction false} SaltConcat(salt: i64, a: seq<Item>, b: seq<Item>)
    ensures LastSalt(salt, a + b) == LastSalt(LastSalt(salt, a), b)
    decreases |b|
  {
    if b == [] {
      assert a + b == a;
    } else {
      SaltConcat(salt, a, b[..|b| - 1]);
      assert (a + b)[..|a + b| - 1] == a + b[..|b| - 1];
    }
  }

  lemma {:induction false} IdsConcat(a: seq<Item>, b: seq<Item>)
    ensures Ids(a + b) == Ids(a) + Ids(b)
    decreases |a|
  {
    if a == [] {
      assert a + b == b;
    } else {
      var head := if a[0].Header? then [a[0].id] else [];
      IdsConcat(a[1..], b);
      assert (a + b)[1..] == a[1..] + b;
      assert head + (Ids(a[1..]) + Ids(b)) == head + Ids(a[1..]) + Ids(b);
    }
  }

  lemma {:induction false} AcksConcat(a: seq<Item>, b: seq<Item>)
    ensures Acks(a + b) == Acks(a) + Acks(b)
    decreases |a|
  {
    if a == [] {
      assert a + b == b;
    } else {
      var head := if a[0].Header? && a[0].sequence % 2 == 1 then [a[0].id] else [];
      AcksConcat(a[1..], b);
      assert (a + b)[1..] == a[1..] + b;
      assert head + (Acks(a[1..]) + Acks(b)) == head + Acks(a[1..]) + Acks(b);
    }
  }

  lemma AfterConcat(net: Net, a: seq<Item>, b: seq<Item>)
    ensures After(net, a + b) == After(After(net, a), b)
  {
    SaltConcat(net.salt, a, b);
    IdsConcat(a, b);
  }

  lemma {:induction false} PassesIgnoresSalt(net: Net, salt: i64, n: nat, clock: nat -> Option<i64>, items: seq<Item>)
    ensures Passes(net, n, clock, items) == Passes(net.(salt := salt), n, clock, items)
    decreases |items|
  {
    if items != [] {
      PassesIgnoresSalt(net, salt, n, clock, items[1..]);
      if items[0].Header? {
        PassesIgnoresSalt(net.(ever := net.ever + {items[0].id}, ticks := net.ticks + 1), salt, n, clock, items[1..]);
      }
    }
  }

  lemma {:induction false} PassesConcat(net: Net, n: nat, clock: nat -> Option<i64>, a: seq<Item>, b: seq<Item>)
    ensures Passes(net, n, clock, a + b) <==> Passes(net, n, clock, a) && Passes(After(net, a), n, clock, b)
    decreases |a|
  {
    if a == [] {
      assert a + b == b;
      assert After(net, []).ever == net.ever;
    } else {
      assert (a + b)[1..] == a[1..] + b && a == [a[0]] + a[1..];
      AfterConcat(net, [a[0]], a[1..]);
      var next := After(net, [a[0]]);
      StepHeader(net, a[0]);
      PassesConcat(next, n, clock, a[1..], b);
      PassesIgnoresSalt(next, net.salt, n, clock, a[1..] + b);
      PassesIgnoresSalt(next, net.salt, n, clock, a[1..]);
    }
  }

  lemma StepHeader(net: Net, item: Item)
    ensures var next := After(net, [item]);
      if item.Header? then next == Net(net.salt, net.ever + {item.id}, net.ticks + 1)
      else next.ever == net.ever && next.ticks == net.ticks
  {
    assert [item][1..] == [] && [item][..0] == [];
    assert LastSalt(net.salt, []) == net.salt;
    assert Ids([item]) == if item.Header? then [item.id] else [];
  }

  lemma AcceptsConcat(net: Net, n: nat, clock: nat -> Option<i64>, request: i64, a: seq<Item>, b: Option<seq<Item>>)
    ensures Accepts(net, n, clock, request, Join(a, b)) <==>
      Accepts(net, n, clock, request, Some(a)) && Accepts(After(net, a), n, clock, request, b)
  {
    if b.Some? {
      PassesConcat(net, n, clock, a, b.value);
      assert forall i :: 0 <= i < |a| ==> (a + b.value)[i] == a[i];
      assert forall i :: 0 <= i < |b.value| ==> (a + b.value)[|a| + i] == b.value[i];
    }
  }

  lemma {:induction false} NovelShrinks(small: set<i64>, big: set<i64>, ids: seq<i64>)
    requires small <= big && Novel(big, ids)
    ensures Novel(small, ids)
    decreases |ids|
  {
    if ids != [] { NovelShrinks(small + {ids[0]}, big + {ids[0]}, ids[1..]); }
  }

  /** Acknowledged ids are new to the session and pairwise distinct. */
  lemma {:induction false} AcksAreNovel(net: Net, n: nat, clock: nat -> Option<i64>, items: seq<Item>)
    requires Passes(net, n, clock, items)
    ensures Novel(net.ever, Acks(items))
    decreases |items|
  {
    if items != [] {
      if items[0].Leaf? {
        AcksAreNovel(net, n, clock, items[1..]);
        assert Acks(items) == Acks(items[1..]);
      } else {
        AcksAreNovel(net.(ever := net.ever + {items[0].id}, ticks := net.ticks + 1), n, clock, items[1..]);
        NovelShrinks(net.ever, net.ever + {items[0].id}, Acks(items[1..]));
        if items[0].sequence % 2 == 1 {
          assert Acks(items) == [items[0].id] + Acks(items[1..]);
        } else {
          assert Acks(items) == Acks(items[1..]);
        }
      }
    }
  }

  lemma {:induction false} AcksAmongIds(items: seq<Item>)
    ensures forall i :: 0 <= i < |Acks(items)| ==> Acks(items)[i] in Ids(items)
  {
    if items != [] { AcksAmongIds(items[1..]); }
  }

  lemma {:induction false} NovelConcat(ever: set<i64>, a: seq<i64>, b: seq<i64>, all: set<i64>)
    requires Novel(ever, a) && Novel(all, b) && ever <= all && forall i :: 0 <= i < |a| ==> a[i] in all
    ensures Novel(ever, a + b)
    decreases |a|
  {
    if a == [] {
      assert a + b == b;
      NovelShrinks(ever, all, b);
    } else {
      assert (a + b)[1..] == a[1..] + b;
      NovelConcat(ever + {a[0]}, a[1..], b, all);
    }
  }

  // ------------------------------------------------- steps of the container loop

  lemma SingleLeaf(net: Net, n: nat, clock: nat -> Option<i64>, request: i64, leaf: Item)
    requires leaf.Leaf?
    ensures var outcome := LeafOutcome(leaf.body, request, leaf.responseId);
      (Accepts(net, n, clock, request, Some([leaf])) <==> outcome.Ok?) &&
      (outcome.Ok? ==> LastOutcome([leaf], request) == outcome.value)
    ensures After(net, [leaf]) == net.(salt := LastSalt(net.salt, [leaf])) && Acks([leaf]) == []
  {
    hide LeafOutcome;
    StepHeader(net, leaf);
    assert [leaf][1..] == [] && [leaf][..0] == [];
    assert Acks([]) == [];
    assert LastOutcome([], request) == Continue;
    assert Passes(net, n, clock, []);
    assert [leaf][0] == leaf;
  }

  lemma NothingDone(net: Net, n: nat, clock: nat -> Option<i64>, request: i64, whole: Option<seq<Item>>)
    ensures Join([], whole) == whole && Accepts(net, n, clock, request, Some([])) && After(net, []) == net
    ensures LastOutcome([], request) == Continue && Acks([]) == []
  {
    if whole.Some? { assert [] + whole.value == whole.value; }
    assert Ids([]) == [];
    assert net.ever + {} == net.ever;
  }

  /** What one entry contributes to the flattening. */
  ghost function Entry(h: Item, items: Option<seq<Item>>, tail: Option<seq<Item>>): Option<seq<Item>>
  {
    if items.None? then None else Join([h] + items.value, tail)
  }

  lemma EntryShape(body: bytes, offset: nat, count: nat)
    requires 0 < offset && 0 < count
    ensures var length := ReadI32(body, offset + 12);
      if length.None? || length.value < 0 || offset + 16 + length.value > |body| then
        FlattenEntries(body, offset, count) == None
      else
        var end := offset + 16 + length.value;
        var id, sequence, inner := ReadI64(body, offset), ReadI32(body, offset + 8), body[offset + 16..end];
        id.Some? && sequence.Some? && |inner| < |body| &&
        FlattenEntries(body, offset, count) ==
          Entry(Header(id.value, sequence.value), Flatten(inner, id.value), FlattenEntries(body, end, count - 1))
  {
    hide Flatten;
  }

  lemma EntryAccepts(
    net: Net, n: nat, clock: nat -> Option<i64>, request: i64, h: Item, items: Option<seq<Item>>,
    tail: Option<seq<Item>>)
    requires h.Header?
    ensures Accepts(net, n, clock, request, Entry(h, items, tail)) ==>
      Passes(net, n, clock, [h]) && Accepts(After(net, [h]), n, clock, request, items)
    ensures Passes(net, n, clock, [h]) && Accepts(After(net, [h]), n, clock, request, items) ==>
      items.Some? && Accepts(net, n, clock, request, Some([h] + items.value))
  {
    hide Passes, After;
    if items.Some? {
      AcceptsConcat(net, n, clock, request, [h] + items.value, tail);
      AcceptsConcat(net, n, clock, request, [h], items);
      assert LeavesOk([h], request);
    }
  }

  lemma EntryFolds(net: Net, request: i64, done: seq<Item>, h: Item, items: seq<Item>, tail: Option<seq<Item>>)
    requires h.Header?
    ensures Join(done, Entry(h, Some(items), tail)) == Join(done + ([h] + items), tail)
    ensures Join(done, Some([h] + items)) == Some(done + ([h] + items))
    ensures After(After(After(net, done), [h]), items) == After(net, done + ([h] + items))
    ensures LastOutcome(done + ([h] + items), request) ==
      if LastOutcome(items, request) != Continue then LastOutcome(items, request) else LastOutcome(done, request)
    ensures Acks(done + ([h] + items)) == Acks(done) + (if h.sequence % 2 == 1 then [h.id] else []) + Acks(items)
  {
    hide After;
    if tail.Some? { assert done + (([h] + items) + tail.value) == (done + ([h] + items)) + tail.value; }
    AfterConcat(net, done, [h] + items);
    AfterConcat(After(net, done), [h], items);
    OutcomeConcat(done, [h] + items, request);
    OutcomeConcat([h], items, request);
    assert LastOutcome([h], request) == Continue by {
      assert [h][..0] == [];
      assert LastOutcome([], request) == Continue;
    }
    AcksConcat(done, [h] + items);
    AcksConcat([h], items);
    assert Acks([h]) == if h.sequence % 2 == 1 then [h.id] else [] by {
      assert [h][1..] == [];
      assert Acks([]) == [];
    }
  }

  lemma NoneRefused(net: Net, n: nat, clock: nat -> Option<i64>, request: i64)
    ensures !Accepts(net, n, clock, request, None)
  {
  }

  lemma EmptyRest(body: bytes, offset: nat, done: seq<Item>)
    requires 0 < offset
    ensures Join(done, FlattenEntries(body, offset, 0)) == if offset == |body| then Some(done) else None
  {
    assert done + [] == done;
  }

  /** The parts of an established session that scanning reads and changes. */
  class EstablishedSession {
    var serverSalt: i64
    var ticks: nat
    const clock: nat -> Option<i64>
    const messageIds: MessageIdGuard
    /** Every id handed to `send_acknowledgements` so far. */
    ghost var acknowledged: seq<i64>

    ghost predicate Valid()
      reads this, messageIds
    {
      messageIds.Valid()
    }

    /** No server message is acknowledged twice. */
    ghost predicate AcknowledgedOnce()
      reads this, messageIds
    {
      Novel({}, acknowledged) && forall i :: 0 <= i < |acknowledged| ==> acknowledged[i] in messageIds.ever
    }

    ghost function View(): Net
      reads this, messageIds
    {
      Net(serverSalt, messageIds.ever, ticks)
    }

    constructor (salt: i64, clock: nat -> Option<i64>, messageIds: MessageIdGuard)
      requires messageIds.Valid()
      ensures Valid() && AcknowledgedOnce() && acknowledged == []
      ensures this.clock == clock && this.messageIds == messageIds && View() == Net(salt, messageIds.ever, 0)
    {
      serverSalt, ticks, this.clock, this.messageIds, acknowledged := salt, 0, clock, messageIds, [];
    }

    /** One message header: read the clock, then ask the guard. */
    method Admit(id: i64, sequence: i32) returns (r: Result<(), NetworkError>)
      requires Valid()
      modifies this`ticks, messageIds`recent, messageIds`ever
      ensures Valid() && old(messageIds.ever) <= messageIds.ever
      ensures r.Ok? <==> Passes(old(View()), messageIds.windowSize, clock, [Header(id, sequence)])
      ensures r.Ok? ==> View() == After(old(View()), [Header(id, sequence)])
    {
      StepHeader(View(), Header(id, sequence));
      assert [Header(id, sequence)][1..] == [];
      var now := clock(ticks);
      ticks := ticks + 1;
      if now.None? {
        return Err(InvalidSystemClock);
      }
      var error := messageIds.ValidateServerMessageId(id, now.value);
      if error.Some? {
        return Err(MessageId(error.value));
      }
      return Ok(());
    }

    /** A body that is no container. */
    method ScanLeaf(body: bytes, request: i64, responseId: i64) returns (r: Result<Outcome, NetworkError>)
      requires Valid() && ReadU32(body, 0) != Some(MESSAGE_CONTAINER)
      modifies this`serverSalt
      ensures Valid()
      ensures r == LeafOutcome(body, request, responseId)
      ensures r.Ok? ==> serverSalt == LastSalt(old(serverSalt), [Leaf(body, responseId)])
    {
      assert [Leaf(body, responseId)][..0] == [];
      var kind := ReadU32(body, 0);
      if kind.None? {
        return Err(InvalidServiceMessage);
      }
      var id, code, salt := ReadI64(body, 4), ReadI32(body, 16), ReadI64(body, 20);
      if kind.value == RPC_RESULT || kind.value == FUTURE_SALTS {
        if id.None? {
          return Err(InvalidServiceMessage);
        }
        if id.value != request {
          return Ok(Continue);
        }
        if kind.value == FUTURE_SALTS {
          return Ok(RpcResult(request, responseId, body));
        }
        if body[12..] == [] {
          return Err(InvalidServiceMessage);
        }
        return Ok(RpcResult(request, responseId, body[12..]));
      } else if kind.value == NEW_SESSION_CREATED {
        if salt.None? {
          return Err(InvalidServiceMessage);
        }
        serverSalt := salt.value;
        return Ok(Continue);
      } else if kind.value == BAD_SERVER_SALT {
        if id.None? || code.None? {
          return Err(InvalidServiceMessage);
        }
        if id.value != request {
          return Err(BadServerMessage(id.value, code.value));
        }
        if salt.None? {
          return Err(InvalidServiceMessage);
        }
        serverSalt := salt.value;
        return Ok(NewSalt);
      } else if kind.value == BAD_MSG_NOTIFICATION {
        if id.None? || code.None? {
          return Err(InvalidServiceMessage);
        }
        return Err(BadServerMessage(id.value, code.value));
      }
      return Ok(Continue);
    }

    /** `scan_rpc_body`: a scan succeeds exactly when the body flattens, every leaf is
        acceptable and the guard admits every header in reading order; it then returns the
        last outcome, leaves the last announced salt, and acknowledges exactly the
        odd-sequence ids in order. */
    method ScanRpcBody(body: bytes, request: i64, responseId: i64, acknowledgements: seq<i64>)
      returns (r: Result<Outcome, NetworkError>, acks: seq<i64>)
      requires Valid()
      modifies this`serverSalt, this`ticks, messageIds`recent, messageIds`ever
      ensures Valid() && old(messageIds.ever) <= messageIds.ever
      ensures r.Ok? <==> Accepts(old(View()), messageIds.windowSize, clock, request, Flatten(body, responseId))
      ensures r.Ok? ==>
        var items := Flatten(body, responseId).value;
        r.value == LastOutcome(items, request) && View() == After(old(View()), items) &&
        acks == acknowledgements + Acks(items)
      decreases |body|, 1
    {
      acks := acknowledgements;
      if ReadU32(body, 0) != Some(MESSAGE_CONTAINER) {
        ghost var leaf := Leaf(body, responseId);
        SingleLeaf(View(), messageIds.windowSize, clock, request, leaf);
        r := ScanLeaf(body, request, responseId);
        return;
      }
      var count := ReadI32(body, 4);
      if count.None? || !(0 <= count.value <= 1024) {
        return Err(InvalidServiceMessage), acks;
      }
      r, acks := ScanContainer(body, request, count.value, acks);
    }

    /** The loop over the entries of a container. */
    method ScanContainer(body: bytes, request: i64, count: nat, acknowledgements: seq<i64>)
      returns (r: Result<Outcome, NetworkError>, acks: seq<i64>)
      requires Valid()
      modifies this`serverSalt, this`ticks, messageIds`recent, messageIds`ever
      ensures Valid() && old(messageIds.ever) <= messageIds.ever
      ensures r.Ok? <==> Accepts(old(View()), messageIds.windowSize, clock, request, FlattenEntries(body, 8, count))
      ensures r.Ok? ==>
        var items := FlattenEntries(body, 8, count).value;
        r.value == LastOutcome(items, request) && View() == After(old(View()), items) &&
        acks == acknowledgements + Acks(items)
      decreases |body|, 0
    {
      hide Flatten, FlattenEntries, Entry, Join, Passes, Accepts, LeavesOk, After, LastOutcome, LastSalt, Acks, Ids,
        ReadI32, ReadI64;
      acks := acknowledgements;
      var offset, i, outcome := 8, 0, Continue;
      ghost var whole := FlattenEntries(body, 8, count);
      ghost var done: seq<Item> := [];
      NothingDone(View(), messageIds.windowSize, clock, request, whole);
      NoneRefused(View(), messageIds.windowSize, clock, request);
      while i < count
        invariant i <= count && 8 <= offset && Valid() && old(messageIds.ever) <= messageIds.ever
        invariant whole == Join(done, FlattenEntries(body, offset, count - i))
        invariant Accepts(old(View()), messageIds.windowSize, clock, request, Some(done)) &&
          View() == After(old(View()), done)
        invariant outcome == LastOutcome(done, request) && acks == acknowledgements + Acks(done)
      {
        ghost var rest := FlattenEntries(body, offset, count - i);
        AcceptsConcat(old(View()), messageIds.windowSize, clock, request, done, rest);
        var id, sequence, length := ReadI64(body, offset), ReadI32(body, offset + 8), ReadI32(body, offset + 12);
        NoneRefused(View(), messageIds.windowSize, clock, request);
        EntryShape(body, offset, count - i);
        if length.None? || length.value < 0 || offset + 16 + length.value > |body| {
          return Err(InvalidServiceMessage), acks;
        }
        var end := offset + 16 + length.value;
        var inner := body[offset + 16..end];
        ghost var header, items, tail :=
          [Header(id.value, sequence.value)], Flatten(inner, id.value), FlattenEntries(body, end, count - i - 1);
        EntryAccepts(View(), messageIds.windowSize, clock, request, header[0], items, tail);
        var admitted := Admit(id.value, sequence.value);
        if admitted.Err? {
          return Err(admitted.error), acks;
        }
        var next := acks;
        if sequence.value % 2 == 1 {
          next := acks + [id.value];
        }
        var innerOutcome;
        innerOutcome, next := ScanRpcBody(inner, request, id.value, next);
        if innerOutcome.Err? {
          return innerOutcome, next;
        }
        EntryFolds(old(View()), request, done, header[0], items.value, tail);
        AcceptsConcat(old(View()), messageIds.windowSize, clock, request, done, Some(header + items.value));
        if innerOutcome.value != Continue {
          outcome := innerOutcome.value;
        }
        done := done + (header + items.value);
        acks, offset, i := next, end, i + 1;
      }
      EmptyRest(body, offset, done);
      if offset != |body| {
        return Err(InvalidServiceMessage), acks;
      }
      return Ok(outcome), acks;
    }

    /** One round of `invoke_raw` after decryption: admit the message, scan it, acknowledge. */
    method ProcessResponse(id: i64, sequence: i32, body: bytes, request: i64) returns (r: Result<Outcome, NetworkError>)
      requires Valid() && AcknowledgedOnce()
      modifies this`serverSalt, this`ticks, this`acknowledged, messageIds`recent, messageIds`ever
      ensures Valid() && AcknowledgedOnce()
      ensures r.Ok? <==>
        Accepts(old(View()), messageIds.windowSize, clock, request, Join([Header(id, sequence)], Flatten(body, id)))
      ensures r.Ok? ==>
        var items := [Header(id, sequence)] + Flatten(body, id).value;
        r.value == LastOutcome(items, request) && View() == After(old(View()), items) &&
        acknowledged == old(acknowledged) + Acks(items)
      ensures r.Err? ==> acknowledged == old(acknowledged)
    {
      hide Flatten, Passes, Accepts, LeavesOk, After, LastOutcome, LastSalt, Acks, Ids, Novel;
      ghost var n, before := messageIds.windowSize, View();
      ghost var h, inner := Header(id, sequence), Flatten(body, id);
      NothingDone(before, n, clock, request, Some([h]));
      NothingDone(before, n, clock, request, None);
      EntryAccepts(before, n, clock, request, h, inner, Some([]));
      WholeEntry(h, inner);
      NoneRefused(before, n, clock, request);
      var admitted := Admit(id, sequence);
      if admitted.Err? {
        return Err(admitted.error);
      }
      var acks := [];
      if sequence % 2 == 1 {
        acks := [id];
      }
      r, acks := ScanRpcBody(body, request, id, acks);
      if r.Err? {
        return;
      }
      EntryFolds(before, request, [], h, inner.value, Some([]));
      assert [] + ([h] + inner.value) == [h] + inner.value;
      assert acks == Acks([h] + inner.value);
      assert messageIds.ever == After(before, [h] + inner.value).ever;
      RoundAcknowledges(before, n, clock, request, [h] + inner.value, acknowledged);
      acknowledged := acknowledged + acks;
    }
  }

  lemma WholeEntry(h: Item, inner: Option<seq<Item>>)
    ensures Entry(h, inner, Some([])) == Join([h], inner)
  {
    if inner.Some? { assert [h] + inner.value + [] == [h] + inner.value; }
  }

  /** The acknowledgements of one accepted round repeat nothing acknowledged before. */
  lemma RoundAcknowledges(
    net: Net, n: nat, clock: nat -> Option<i64>, request: i64, items: seq<Item>, acknowledged: seq<i64>)
    requires Accepts(net, n, clock, request, Some(items)) && Novel({}, acknowledged)
    requires forall i :: 0 <= i < |acknowledged| ==> acknowledged[i] in net.ever
    ensures Novel({}, acknowledged + Acks(items))
    ensures forall i :: 0 <= i < |acknowledged + Acks(items)| ==>
      (acknowledged + Acks(items))[i] in After(net, items).ever
  {
    AcksAreNovel(net, n, clock, items);
    AcksAmongIds(items);
    NovelConcat({}, acknowledged, Acks(items), net.ever);
  }
}
