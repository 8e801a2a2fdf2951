/** What each client command does to the engine state, with everything it leaves alone. */
module Effects {
  import opened Wrappers
  import opened Bytes
  import opened Text
  import opened Versions

  /** The batch that `handle` runs for a client command on a settled state. */
  function BatchOf(p: Policy, s: State, actor: ActorId, c: ClientCommand, now: i64): Batch
  {
    ExecuteAll(p, s, Project(p, s, actor, c, now))
  }

  lemma OneCommand(p: Policy, s: State, c: Command)
    ensures var events := Decide(p, s, c);
      events.None? ==> ExecuteAll(p, s, [c]) == Batch(s, 0, false)
    ensures var events := Decide(p, s, c);
      events.Some? && |events.value| == 1 ==> ExecuteAll(p, s, [c]) == Batch(Apply(p, s, events.value[0]), 1, true)
  {
    hide Decide, Apply;
    var events := Decide(p, s, c);
    assert [c][1..] == [];
    if events.Some? && |events.value| == 1 {
      var e := events.value[0];
      assert events.value == [e] && [e][1..] == [];
      var t := Apply(p, s, e);
      assert ApplyAll(p, t, []) == t;
      assert ApplyAll(p, s, [e]) == t;
      assert ExecuteAll(p, t, []) == Batch(t, 0, true);
    }
  }

  lemma TwoCommands(p: Policy, s: State, c: Command, d: Command)
    requires Decide(p, s, c).Some? && |Decide(p, s, c).value| == 1
    ensures var t := Apply(p, s, Decide(p, s, c).value[0]);
      Decide(p, t, d).Some? && |Decide(p, t, d).value| == 1 ==>
        ExecuteAll(p, s, [c, d]) == Batch(Apply(p, t, Decide(p, t, d).value[0]), 2, true)
  {
    hide Decide, Apply;
    var e := Decide(p, s, c).value[0];
    assert Decide(p, s, c).value == [e] && [e][1..] == [] && [c, d][1..] == [d];
    var t := Apply(p, s, e);
    assert ApplyAll(p, t, []) == t;
    assert ApplyAll(p, s, [e]) == t;
    OneCommand(p, t, d);
  }

  /** Two states agree on all messages but one. */
  ghost predicate SameButMessage(s: Messages, t: Messages, c: ConvId, id: MsgId)
  {
    s.Keys == t.Keys && (forall d :: d in s ==> s[d].Keys == t[d].Keys) &&
    forall d, x :: d in s && x in s[d] && (d, x) != (c, id) ==> t[d][x] == s[d][x]
  }

  /** Two states agree outside their messages. */
  predicate SameElsewhere(s: State, t: State)
  {
    t.conversations == s.conversations && t.readCursors == s.readCursors && t.pollVotes == s.pollVotes &&
    t.rest == s.rest
  }

  // ------------------------------------------------------------------- one message

  /** An edit succeeds exactly on an existing message, sets its text and its time of editing,
      and changes nothing else. */
  lemma EditEffect(p: Policy, s: State, actor: ActorId, c: ConvId, id: MsgId, content: string, now: i64)
    ensures var b := BatchOf(p, s, actor, Edit(c, id, content), now);
      (b.ok <==> HasMessage(s, c, id)) &&
      (b.ok ==>
        SameElsewhere(s, b.state) && SameButMessage(s.messages, b.state.messages, c, id) &&
        b.state.messages[c][id] == s.messages[c][id].(content := content, editedAt := Some(now)))
  {
    OneCommand(p, s, EditMessage(c, id, content, now));
  }

  /** A deletion succeeds exactly on a non-empty set of existing messages, marks these deleted
      and changes nothing else. */
  lemma DeleteEffect(p: Policy, s: State, actor: ActorId, c: ConvId, ids: set<MsgId>, now: i64)
    ensures var b := BatchOf(p, s, actor, Delete(c, ids), now);
      (b.ok <==> ids != {} && forall id :: id in ids ==> HasMessage(s, c, id)) &&
      (b.ok ==>
        SameElsewhere(s, b.state) && b.state.messages.Keys == s.messages.Keys &&
        forall d :: d in s.messages ==>
          b.state.messages[d].Keys == s.messages[d].Keys &&
          forall x :: x in s.messages[d] ==>
            b.state.messages[d][x] ==
              if d == c && x in ids then s.messages[d][x].(deleted := true) else s.messages[d][x])
  {
    OneCommand(p, s, DeleteMessages(c, ids));
  }

  lemma {:induction false} ReactionsAfter(reactions: seq<Reaction>, r: Reaction, x: Reaction)
    ensures x in WithReaction(reactions, r) <==>
      (x in reactions && x.reaction != r.reaction) || (x == r && r.count > 0)
  {
    if reactions != [] { ReactionsAfter(reactions[1..], r, x); }
  }

  /** A reaction succeeds exactly on an existing message with a visible reaction; it replaces
      the summary of that reaction, or removes it at count zero, and changes nothing else. */
  lemma ReactEffect(p: Policy, s: State, actor: ActorId, c: ConvId, id: MsgId, r: Reaction, now: i64)
    ensures var b := BatchOf(p, s, actor, React(c, id, r), now);
      (b.ok <==> HasMessage(s, c, id) && Trim(r.reaction) != "") &&
      (b.ok ==>
        SameElsewhere(s, b.state) && SameButMessage(s.messages, b.state.messages, c, id) &&
        b.state.messages[c][id].(reactions := s.messages[c][id].reactions) == s.messages[c][id] &&
        forall x :: x in b.state.messages[c][id].reactions <==>
          (x in s.messages[c][id].reactions && x.reaction != r.reaction) || (x == r && r.count > 0))
  {
    hide Trim;
    OneCommand(p, s, SetReaction(c, id, r));
    if HasMessage(s, c, id) {
      forall x
        ensures x in WithReaction(s.messages[c][id].reactions, r) <==>
          (x in s.messages[c][id].reactions && x.reaction != r.reaction) || (x == r && r.count > 0)
      {
        ReactionsAfter(s.messages[c][id].reactions, r, x);
      }
    }
  }

  lemma {:induction false} IdsAfter(ids: seq<MsgId>, id: MsgId, x: MsgId)
    ensures x in WithoutId(ids, id) <==> x in ids && x != id
  {
    if ids != [] { IdsAfter(ids[1..], id, x); }
  }

  /** Both states after a pin mark differ in the message and its place in the list only. */
  ghost predicate PinnedOnly(s: State, t: State, c: ConvId, id: MsgId, pinned: bool)
  {
    SameButMessage(s.messages, t.messages, c, id) && HasMessage(s, c, id) &&
    t.messages[c][id] == s.messages[c][id].(pinned := pinned) &&
    t.readCursors == s.readCursors && t.pollVotes == s.pollVotes && t.rest == s.rest &&
    t.conversations.Keys == s.conversations.Keys &&
    (forall d :: d in s.conversations && d != c ==> t.conversations[d] == s.conversations[d]) &&
    (c in s.conversations ==> PinnedIn(s.conversations[c], t.conversations[c], id, pinned))
  }

  lemma PinApplied(p: Policy, s: State, c: ConvId, id: MsgId, pinned: bool)
    requires HasMessage(s, c, id)
    ensures PinnedOnly(s, Apply(p, s, MessagePinned(c, id, pinned)), c, id, pinned)
  {
    if c in s.conversations {
      var ids := s.conversations[c].pinnedMessages;
      forall x
        ensures x in WithoutId(ids, id) <==> x in ids && x != id
      {
        IdsAfter(ids, id, x);
      }
    }
  }

  /** A pin succeeds exactly on an existing message; it sets the mark of the message and its
      place, last, in the pinned list of its conversation, and changes nothing else. */
  lemma PinEffect(p: Policy, s: State, actor: ActorId, c: ConvId, id: MsgId, pinned: bool, now: i64)
    ensures var b := BatchOf(p, s, actor, Pin(c, id, pinned), now);
      (b.ok <==> HasMessage(s, c, id)) && (b.ok ==> PinnedOnly(s, b.state, c, id, pinned))
  {
    hide Apply, PinnedOnly;
    OneCommand(p, s, PinMessage(c, id, pinned));
    if HasMessage(s, c, id) { PinApplied(p, s, c, id, pinned); }
  }

  ghost predicate PinnedIn(v: Conversation, w: Conversation, id: MsgId, pinned: bool)
  {
    w.(pinnedMessages := v.pinnedMessages) == v &&
    (forall x :: x != id ==> (x in w.pinnedMessages <==> x in v.pinnedMessages)) &&
    (id in w.pinnedMessages <==> pinned) &&
    (pinned ==> w.pinnedMessages != [] && w.pinnedMessages[|w.pinnedMessages| - 1] == id)
  }

  /** The votes on one poll. */
  function VotesOn(s: State, c: ConvId, id: MsgId): Votes
  {
    if (c, id) in s.pollVotes then s.pollVotes[(c, id)] else map[]
  }

  /** Both states differ in the actor's choice and the count of that poll only. */
  ghost predicate VotedOnly(p: Policy, s: State, t: State, actor: ActorId, c: ConvId, id: MsgId, selected: set<string>)
  {
    SameButMessage(s.messages, t.messages, c, id) && HasMessage(s, c, id) && t.conversations == s.conversations &&
    t.readCursors == s.readCursors && t.rest == s.rest &&
    (actor in VotesOn(t, c, id) <==> selected != {}) && (selected != {} ==> VotesOn(t, c, id)[actor] == selected) &&
    VotesOn(t, c, id) - {actor} == VotesOn(s, c, id) - {actor} &&
    (forall d, x :: (d, x) != (c, id) ==> VotesOn(t, d, x) == VotesOn(s, d, x)) &&
    t.messages[c][id] == s.messages[c][id].(content := p.recount(s.messages[c][id].content, VotesOn(t, c, id)))
  }

  lemma VoteApplied(p: Policy, s: State, actor: ActorId, c: ConvId, id: MsgId, selected: set<string>)
    requires HasMessage(s, c, id)
    ensures VotedOnly(p, s, Apply(p, s, PollVoteChanged(c, id, actor, selected)), actor, c, id, selected)
  {
    var votes := VotesOn(s, c, id);
    assert votes[actor := selected] - {actor} == votes - {actor};
    assert votes - {actor} - {actor} == votes - {actor};
    var t := Apply(p, s, PollVoteChanged(c, id, actor, selected));
    assert VotesOn(t, c, id) == Recorded(votes, actor, selected);
  }

  /** A vote succeeds exactly on an existing poll the actor may vote on; it sets or withdraws
      the actor's choice alone, recounts that poll, and changes nothing else. */
  lemma VoteEffect(p: Policy, s: State, actor: ActorId, c: ConvId, id: MsgId, selected: set<string>, now: i64)
    ensures var b := BatchOf(p, s, actor, Vote(c, id, selected), now);
      (b.ok <==> HasMessage(s, c, id) && p.mayVote(s, s.messages[c][id], actor, selected)) &&
      (b.ok ==> VotedOnly(p, s, b.state, actor, c, id, selected))
  {
    hide Apply, VotedOnly;
    OneCommand(p, s, VotePoll(c, id, actor, selected));
    if HasMessage(s, c, id) { VoteApplied(p, s, actor, c, id, selected); }
  }

  // ---------------------------------------------------------------------- reading

  /** A read mark succeeds exactly on an existing message of a conversation the actor may read;
      it moves the actor's read position, clears the unread marks of the conversation, and
      marks the message read only if it is another's in a direct or secret conversation. */
  lemma ReadEffect(p: Policy, s: State, actor: ActorId, c: ConvId, id: MsgId, now: i64)
    ensures var b := BatchOf(p, s, actor, ClientCommand.Read(c, id), now);
      (b.ok <==> c in s.conversations && p.mayRead(s, c, actor) && HasMessage(s, c, id)) &&
      (b.ok ==>
        b.state.readCursors == s.readCursors[(c, actor) := id] && b.state.pollVotes == s.pollVotes &&
        b.state.rest == s.rest &&
        b.state.conversations ==
          s.conversations[c := s.conversations[c].(lastRead := Some(id), unreadCount := 0, markedUnread := false)] &&
        SameButMessage(s.messages, b.state.messages, c, id) &&
        b.state.messages[c][id] ==
          if s.conversations[c].directOrSecret && s.messages[c][id].sender != actor
          then s.messages[c][id].(delivery := DeliveryState.Read) else s.messages[c][id])
  {
    var mark, deliver := MarkRead(c, actor, id), SetDeliveryState(c, id, DeliveryState.Read);
    OneCommand(p, s, mark);
    if Decide(p, s, mark).Some? { TwoCommands(p, s, mark, deliver); }
    FailsFirst(p, s, mark, deliver);
    var commands := Project(p, s, actor, ClientCommand.Read(c, id), now);
    assert commands == [mark, deliver] || commands == [mark];
  }

  lemma FailsFirst(p: Policy, s: State, c: Command, d: Command)
    ensures Decide(p, s, c).None? ==> ExecuteAll(p, s, [c, d]) == Batch(s, 0, false)
  {
  }

  // ---------------------------------------------------------------------- sending

  /** Two states agree on all messages but a new one. */
  ghost predicate NewMessageOnly(s: Messages, t: Messages, c: ConvId, id: MsgId)
  {
    t.Keys == s.Keys + {c} &&
    t[c].Keys == (if c in s then s[c].Keys else {}) + {id} &&
    (forall d :: d in s && d != c ==> t[d] == s[d]) &&
    (c in s ==> forall x :: x in s[c] && x != id ==> t[c][x] == s[c][x])
  }

  /** The message of a send before it is acknowledged. */
  function Draft(
    p: Policy, s: State, actor: ActorId, c: ConvId, clientId: string, content: string, o: Options, now: i64): Message
  {
    Message(p.stableId(actor, clientId), c, actor, content, o.(guarded := o.guarded || p.isSecret(content)),
            Pending(clientId),
            now, None, p.expiry(s, c, if o.scheduledAt.Some? then o.scheduledAt.value else now), [], false, false)
  }

  /** A send succeeds exactly in an existing conversation that admits the message, when no
      message of that id exists; it stores one message of the actor with this content, sent,
      makes it the conversation's last, and changes nothing else but its topic. */
  lemma SendEffect(
    p: Policy, s: State, actor: ActorId, c: ConvId, clientId: string, content: string, o: Options, now: i64)
    ensures var b := BatchOf(p, s, actor, SendMessage(c, clientId, content, o), now);
      var m := Draft(p, s, actor, c, clientId, content, o, now);
      (b.ok <==> c in s.conversations && p.mayQueue(s, m) && !HasMessage(s, c, m.id)) &&
      (b.ok ==>
        NewMessageOnly(s.messages, b.state.messages, c, m.id) && b.state.messages[c][m.id] == m.(delivery := Sent) &&
        b.state.conversations ==
          s.conversations[c := s.conversations[c].(lastMessage := Some(m.id), updatedAt := now)] &&
        b.state.readCursors == s.readCursors && b.state.pollVotes == s.pollVotes &&
        b.state.rest == p.noteTopic(s.rest, m))
  {
    var m := Draft(p, s, actor, c, clientId, content, o, now);
    var queue, ack := QueueMessage(m), AcknowledgeMessage(c, m.id, m.id, now);
    assert Project(p, s, actor, SendMessage(c, clientId, content, o), now) == [queue, ack];
    FailsFirst(p, s, queue, ack);
    if Decide(p, s, queue).Some? {
      TwoCommands(p, s, queue, ack);
      QueuedThenSent(p, s, m);
      hide Apply, NewMessageOnly;
      assert Decide(p, s, queue).value[0] == MessageQueued(m);
    }
  }

  /** Queueing a new message and acknowledging it under its own id. */
  lemma QueuedThenSent(p: Policy, s: State, m: Message)
    requires m.conversation in s.conversations && !HasMessage(s, m.conversation, m.id)
    ensures var c := m.conversation;
      var t := Apply(p, s, MessageQueued(m));
      var u := Apply(p, t, MessageAcknowledged(c, m.id, m.id, m.createdAt));
      Decide(p, t, AcknowledgeMessage(c, m.id, m.id, m.createdAt)) ==
        Some([MessageAcknowledged(c, m.id, m.id, m.createdAt)]) &&
      NewMessageOnly(s.messages, u.messages, c, m.id) && u.messages[c][m.id] == m.(delivery := Sent) &&
      u.conversations ==
        s.conversations[c := s.conversations[c].(lastMessage := Some(m.id), updatedAt := m.createdAt)] &&
      u.readCursors == s.readCursors && u.pollVotes == s.pollVotes && u.rest == p.noteTopic(s.rest, m)
  {
    hide NewMessageOnly, Acknowledge, Put;
    var c := m.conversation;
    var t := Apply(p, s, MessageQueued(m));
    var w := s.conversations[c].(lastMessage := Some(m.id), updatedAt := m.createdAt);
    assert t.conversations == s.conversations[c := w];
    assert t.conversations[c := w.(lastMessage := Some(m.id))] == s.conversations[c := w];
    AcknowledgedMessages(s.messages, m);
  }

  lemma AcknowledgedMessages(messages: Messages, m: Message)
    requires m.conversation !in messages || m.id !in messages[m.conversation]
    ensures var c := m.conversation;
      var u := Acknowledge(Put(messages, c, m), c, m.id, m.id, m.createdAt);
      NewMessageOnly(messages, u, c, m.id) && u[c][m.id] == m.(delivery := Sent) &&
      c in Put(messages, c, m) && m.id in Put(messages, c, m)[c]
  {
  }

  /** A forward succeeds exactly when the destination admits it, the original exists and is
      neither deleted nor protected; it stores one pending message of the actor with the
      original's content, makes it the last, and changes nothing else but its topic. */
  lemma ForwardEffect(
    p: Policy, s: State, actor: ActorId, source: ConvId, original: MsgId, c: ConvId, clientId: string, now: i64)
    ensures var b := BatchOf(p, s, actor, Forward(source, original, c, clientId), now);
      var blank := NewMessage("local:" + clientId, c, actor, "", clientId, now, PLAIN, p.expiry(s, c, now));
      (b.ok <==>
        c in s.conversations && p.mayForward(s, blank) && !HasMessage(s, c, blank.id) &&
        HasMessage(s, source, original) &&
        !s.messages[source][original].deleted && !s.messages[source][original].options.guarded) &&
      (b.ok ==>
        var m := blank.(content := s.messages[source][original].content);
        m.sender == actor && m.delivery == Pending(clientId) && m.id == "local:" + clientId &&
        NewMessageOnly(s.messages, b.state.messages, c, m.id) && b.state.messages[c][m.id] == m &&
        b.state.conversations ==
          s.conversations[c := s.conversations[c].(lastMessage := Some(m.id), updatedAt := now)] &&
        b.state.readCursors == s.readCursors && b.state.pollVotes == s.pollVotes &&
        b.state.rest == p.noteTopic(s.rest, m))
  {
    var blank := NewMessage("local:" + clientId, c, actor, "", clientId, now, PLAIN, p.expiry(s, c, now));
    OneCommand(p, s, ForwardMessage(source, original, blank));
  }

  // ---------------------------------------------------------------------- retries

  /** Repeating a successful send finds the stored message; it counts as a repetition if and
      only if the content is not secret or protection was asked for. */
  lemma RetryIff(
    p: Policy, s: State, actor: ActorId, c: ConvId, clientId: string, content: string, o: Options, now: i64, later: i64)
    requires BatchOf(p, s, actor, SendMessage(c, clientId, content, o), now).ok
    ensures var again := SendMessage(c, clientId, content, o);
      var stored := Existing(p, BatchOf(p, s, actor, again, now).state, actor, again);
      stored.Some? && (Repeats(stored.value, actor, again, later) <==> o.guarded || !p.isSecret(content))
  {
    SendEffect(p, s, actor, c, clientId, content, o, now);
    hide BatchOf;
    var m := Draft(p, s, actor, c, clientId, content, o, now);
    assert !m.deleted;
  }

  // ------------------------------------------------------ settlement and delivery

  /** Settlement marks a message deleted exactly if it was not and its time has come, and
      changes nothing else. */
  lemma SettlementEffect(s: State, now: i64, c: ConvId, id: MsgId)
    ensures HasMessage(Settled(s, now), c, id) <==> HasMessage(s, c, id)
    ensures HasMessage(s, c, id) ==>
      var m := s.messages[c][id];
      Settled(s, now).messages[c][id] ==
        if m.expiresAt.Some? && m.expiresAt.value <= now then m.(deleted := true) else m
    ensures SameElsewhere(s, Settled(s, now))
  {
    if HasMessage(s, c, id) {
      var m := s.messages[c][id];
      assert m.deleted ==> m.(deleted := true) == m;
    }
  }

  /** A sync marks a message delivered exactly if it was sent by another in a direct or secret
      conversation the actor takes part in, and changes nothing else. */
  lemma DeliveryEffect(s: State, actor: ActorId, c: ConvId, id: MsgId)
    ensures HasMessage(WithDeliveries(s, actor), c, id) <==> HasMessage(s, c, id)
    ensures HasMessage(s, c, id) ==>
      var m := s.messages[c][id];
      var due := m.sender != actor && m.delivery == Sent &&
        exists k :: k in s.conversations && s.conversations[k].id == c && s.conversations[k].directOrSecret &&
          actor in s.conversations[k].participants;
      WithDeliveries(s, actor).messages[c][id] == if due then m.(delivery := DeliveryState.Delivered) else m
    ensures SameElsewhere(s, WithDeliveries(s, actor))
  {
  }
}
