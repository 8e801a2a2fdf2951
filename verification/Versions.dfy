/** The service cursor as a version number of the engine state: settlement of expired
    messages, delivery marks and projected client commands, each of which moves the cursor
    whenever it moves the state. */
module Versions {
  import opened Wrappers
  import opened Bytes
  import opened Text

  type ConvId = string
  type MsgId = string
  type ActorId = string

  datatype DeliveryState = Pending(clientMessageId: string) | Sent | Delivered | Read

  datatype Reaction = Reaction(reaction: string, count: nat)

  /** What the sender says about a message besides its content. */
  datatype Options = Options(
    replyTo: Option<MsgId>, threadRoot: Option<MsgId>, scheduledAt: Option<i64>, silent: bool, guarded: bool)

  datatype Message = Message(
    id: MsgId, conversation: ConvId, sender: ActorId, content: string, options: Options, delivery: DeliveryState,
    createdAt: i64, editedAt: Option<i64>, expiresAt: Option<i64>, reactions: seq<Reaction>, pinned: bool,
    deleted: bool)

  datatype Conversation = Conversation(
    id: ConvId, directOrSecret: bool, participants: set<ActorId>, lastMessage: Option<MsgId>, updatedAt: i64,
    lastRead: Option<MsgId>, unreadCount: nat, markedUnread: bool, pinnedMessages: seq<MsgId>)

  type Votes = map<ActorId, set<string>>

  type Messages = map<ConvId, map<MsgId, Message>>

  /** The engine state; `rest` holds every part the message commands do not name. */
  datatype State = State(
    conversations: map<ConvId, Conversation>, messages: Messages, readCursors: map<(ConvId, ActorId), MsgId>,
    pollVotes: map<(ConvId, MsgId), Votes>, rest: string)

  datatype Command =
    | QueueMessage(message: Message)
    | ForwardMessage(source: ConvId, original: MsgId, message: Message)
    | AcknowledgeMessage(conversation: ConvId, local: MsgId, server: MsgId, acceptedAt: i64)
    | SetDeliveryState(conversation: ConvId, id: MsgId, delivery: DeliveryState)
    | EditMessage(conversation: ConvId, id: MsgId, content: string, editedAt: i64)
    | DeleteMessages(conversation: ConvId, ids: set<MsgId>)
    | MarkRead(conversation: ConvId, actor: ActorId, id: MsgId)
    | SetReaction(conversation: ConvId, id: MsgId, reaction: Reaction)
    | PinMessage(conversation: ConvId, id: MsgId, pinned: bool)
    | VotePoll(conversation: ConvId, id: MsgId, actor: ActorId, selected: set<string>)
    | Other(name: string)

  datatype Event =
    | MessageQueued(message: Message)
    | MessageAcknowledged(conversation: ConvId, local: MsgId, server: MsgId, acceptedAt: i64)
    | DeliveryStateUpdated(conversation: ConvId, id: MsgId, delivery: DeliveryState)
    | MessageEdited(conversation: ConvId, id: MsgId, content: string, editedAt: i64)
    | MessagesDeleted(conversation: ConvId, ids: set<MsgId>)
    | ConversationRead(conversation: ConvId, actor: ActorId, id: MsgId)
    | ReactionUpdated(conversation: ConvId, id: MsgId, reaction: Reaction)
    | MessagePinned(conversation: ConvId, id: MsgId, pinned: bool)
    | PollVoteChanged(conversation: ConvId, id: MsgId, actor: ActorId, selected: set<string>)
    | OtherChanged(payload: string)

  /** The decisions that do not bear on versions: who may queue, forward, read and vote, when
      a message expires, how a poll counts its votes, how the commands that leave messages
      alone are decided and applied, and the id hash. */
  datatype Policy = Policy(
    mayQueue: (State, Message) -> bool,
    mayForward: (State, Message) -> bool,
    mayRead: (State, ConvId, ActorId) -> bool,
    mayVote: (State, Message, ActorId, set<string>) -> bool,
    isSecret: string -> bool,
    expiry: (State, ConvId, i64) -> Option<i64>,
    recount: (string, Votes) -> string,
    decideOther: (State, string) -> Option<seq<string>>,
    applyOther: (map<ConvId, Conversation>, string, string) -> (map<ConvId, Conversation>, string),
    noteTopic: (string, Message) -> string,
    authorized: (State, ActorId, ClientCommand) -> bool,
    stableId: (ActorId, string) -> MsgId)

  predicate HasMessage(s: State, conversation: ConvId, id: MsgId)
  {
    conversation in s.messages && id in s.messages[conversation]
  }

  // ------------------------------------------------------------- decide and apply

  function Decide(p: Policy, s: State, c: Command): Option<seq<Event>>
  {
    match c
    case QueueMessage(m) =>
      if m.conversation !in s.conversations || !p.mayQueue(s, m) || HasMessage(s, m.conversation, m.id) then None
      else Some([MessageQueued(m)])
    case ForwardMessage(source, original, m) =>
      if m.conversation !in s.conversations || !p.mayForward(s, m) || HasMessage(s, m.conversation, m.id) then None
      else if !HasMessage(s, source, original) then None
      else if s.messages[source][original].deleted || s.messages[source][original].options.guarded then None
      else Some([MessageQueued(m.(content := s.messages[source][original].content))])
    case AcknowledgeMessage(conversation, local, server, at) =>
      if !HasMessage(s, conversation, local) || (local != server && HasMessage(s, conversation, server)) then None
      else Some([MessageAcknowledged(conversation, local, server, at)])
    case SetDeliveryState(conversation, id, delivery) =>
      if !HasMessage(s, conversation, id) then None else Some([DeliveryStateUpdated(conversation, id, delivery)])
    case EditMessage(conversation, id, content, at) =>
      if !HasMessage(s, conversation, id) then None else Some([MessageEdited(conversation, id, content, at)])
    case DeleteMessages(conversation, ids) =>
      if ids == {} || exists id | id in ids :: !HasMessage(s, conversation, id) then None
      else Some([MessagesDeleted(conversation, ids)])
    case MarkRead(conversation, actor, id) =>
      if conversation !in s.conversations || !p.mayRead(s, conversation, actor) then None
      else if !HasMessage(s, conversation, id) then None
      else Some([ConversationRead(conversation, actor, id)])
    case SetReaction(conversation, id, reaction) =>
      if !HasMessage(s, conversation, id) || Trim(reaction.reaction) == "" then None
      else Some([ReactionUpdated(conversation, id, reaction)])
    case PinMessage(conversation, id, pinned) =>
      if !HasMessage(s, conversation, id) then None else Some([MessagePinned(conversation, id, pinned)])
    case VotePoll(conversation, id, actor, selected) =>
      if !HasMessage(s, conversation, id) || !p.mayVote(s, s.messages[conversation][id], actor, selected) then None
      else Some([PollVoteChanged(conversation, id, actor, selected)])
    case Other(name) =>
      var payloads := p.decideOther(s, name);
      if payloads.None? then None
      else Some(seq(|payloads.value|, i requires 0 <= i < |payloads.value| => OtherChanged(payloads.value[i])))
  }

  function Put(messages: Messages, conversation: ConvId, m: Message): Messages
  {
    messages[conversation := (if conversation in messages then messages[conversation] else map[])[m.id := m]]
  }

  /** One conversation's messages with the selected ones marked deleted. */
  function MarkDeleted(messages: map<MsgId, Message>, ids: set<MsgId>): map<MsgId, Message>
  {
    map id | id in messages :: if id in ids then messages[id].(deleted := true) else messages[id]
  }

  function Acknowledge(messages: Messages, conversation: ConvId, local: MsgId, server: MsgId, at: i64): Messages
  {
    if conversation !in messages || local !in messages[conversation] then messages
    else
      var m := messages[conversation][local].(id := server, delivery := Sent, createdAt := at);
      messages[conversation := (messages[conversation] - {local})[server := m]]
  }

  function WithReaction(reactions: seq<Reaction>, r: Reaction): seq<Reaction>
  {
    if reactions == [] then if r.count > 0 then [r] else []
    else (if reactions[0].reaction == r.reaction then [] else [reactions[0]]) + WithReaction(reactions[1..], r)
  }

  function WithoutId(ids: seq<MsgId>, id: MsgId): seq<MsgId>
  {
    if ids == [] then [] else (if ids[0] == id then [] else [ids[0]]) + WithoutId(ids[1..], id)
  }

  /** The votes on one poll after an actor's new choice; an empty choice withdraws. */
  function Recorded(votes: Votes, actor: ActorId, selected: set<string>): Votes
  {
    if selected == {} then votes - {actor} else votes[actor := selected]
  }

  /** One message replaced, if it exists. */
  function Replace(messages: Messages, conversation: ConvId, id: MsgId, m: Message): Messages
    requires conversation in messages && id in messages[conversation]
  {
    messages[conversation := messages[conversation][id := m]]
  }

  function Apply(p: Policy, s: State, e: Event): State
  {
    match e
    case MessageQueued(m) =>
      s.(conversations :=
           if m.conversation !in s.conversations then s.conversations
           else s.conversations[m.conversation :=
             s.conversations[m.conversation].(lastMessage := Some(m.id), updatedAt := m.createdAt)],
         messages := Put(s.messages, m.conversation, m), rest := p.noteTopic(s.rest, m))
    case MessageAcknowledged(conversation, local, server, at) =>
      s.(conversations :=
           if conversation !in s.conversations then s.conversations
           else if s.conversations[conversation].lastMessage != Some(local) then s.conversations
           else s.conversations[conversation := s.conversations[conversation].(lastMessage := Some(server))],
         messages := Acknowledge(s.messages, conversation, local, server, at))
    case DeliveryStateUpdated(conversation, id, delivery) =>
      if !HasMessage(s, conversation, id) then s
      else s.(messages :=
        s.messages[conversation := s.messages[conversation][id := s.messages[conversation][id].(delivery := delivery)]])
    case MessageEdited(conversation, id, content, at) =>
      if !HasMessage(s, conversation, id) then s
      else s.(messages := s.messages[conversation := s.messages[conversation][id :=
                s.messages[conversation][id].(content := content, editedAt := Some(at))]])
    case MessagesDeleted(conversation, ids) =>
      if conversation !in s.messages then s
      else s.(messages := s.messages[conversation := MarkDeleted(s.messages[conversation], ids)])
    case ConversationRead(conversation, actor, id) =>
      s.(readCursors := s.readCursors[(conversation, actor) := id],
         conversations :=
           if conversation !in s.conversations then s.conversations
           else s.conversations[conversation :=
             s.conversations[conversation].(lastRead := Some(id), unreadCount := 0, markedUnread := false)])
    case ReactionUpdated(conversation, id, reaction) =>
      if !HasMessage(s, conversation, id) then s
      else
        var m := s.messages[conversation][id];
        s.(messages := Replace(s.messages, conversation, id, m.(reactions := WithReaction(m.reactions, reaction))))
    case MessagePinned(conversation, id, pinned) =>
      s.(messages :=
           if !HasMessage(s, conversation, id) then s.messages
           else Replace(s.messages, conversation, id, s.messages[conversation][id].(pinned := pinned)),
         conversations :=
           if conversation !in s.conversations then s.conversations
           else
             var others := WithoutId(s.conversations[conversation].pinnedMessages, id);
             s.conversations[conversation :=
               s.conversations[conversation].(pinnedMessages := if pinned then others + [id] else others)])
    case PollVoteChanged(conversation, id, actor, selected) =>
      var votes :=
        Recorded(if (conversation, id) in s.pollVotes then s.pollVotes[(conversation, id)] else map[], actor, selected);
      s.(pollVotes := s.pollVotes[(conversation, id) := votes],
         messages :=
           if !HasMessage(s, conversation, id) then s.messages
           else
             var m := s.messages[conversation][id];
             Replace(s.messages, conversation, id, m.(content := p.recount(m.content, votes))))
    case OtherChanged(payload) =>
      var changed := p.applyOther(s.conversations, s.rest, payload);
      s.(conversations := changed.0, rest := changed.1)
  }

  function ApplyAll(p: Policy, s: State, events: seq<Event>): State
    decreases |events|
  {
    if events == [] then s else ApplyAll(p, Apply(p, s, events[0]), events[1..])
  }

  /** The state after a batch of commands, the number of their events, and whether all of
      them succeeded; the batch stops at the first failure and keeps what came before. */
  datatype Batch = Batch(state: State, events: nat, ok: bool)

  function ExecuteAll(p: Policy, s: State, commands: seq<Command>): Batch
    decreases |commands|
  {
    if commands == [] then Batch(s, 0, true)
    else
      var events := Decide(p, s, commands[0]);
      if events.None? then Batch(s, 0, false)
      else
        var rest := ExecuteAll(p, ApplyAll(p, s, events.value), commands[1..]);
        rest.(events := rest.events + |events.value|)
  }

  // -------------------------------------------------------- message keys are ids

  ghost predicate KeysMatch(messages: Messages)
  {
    forall c, id :: c in messages && id in messages[c] ==> messages[c][id].id == id
  }

  lemma ApplyKeepsKeys(p: Policy, s: State, e: Event)
    requires KeysMatch(s.messages)
    ensures KeysMatch(Apply(p, s, e).messages)
  {
  }

  lemma {:induction false} ApplyAllKeepsKeys(p: Policy, s: State, events: seq<Event>)
    requires KeysMatch(s.messages)
    ensures KeysMatch(ApplyAll(p, s, events).messages)
    decreases |events|
  {
    if events != [] {
      ApplyKeepsKeys(p, s, events[0]);
      ApplyAllKeepsKeys(p, Apply(p, s, events[0]), events[1..]);
    }
  }

  lemma {:induction false} BatchKeepsKeys(p: Policy, s: State, commands: seq<Command>)
    requires KeysMatch(s.messages)
    ensures KeysMatch(ExecuteAll(p, s, commands).state.messages)
    decreases |commands|
  {
    hide Decide, ApplyAll, KeysMatch;
    if commands != [] {
      var events := Decide(p, s, commands[0]);
      if events.Some? {
        ApplyAllKeepsKeys(p, s, events.value);
        BatchKeepsKeys(p, ApplyAll(p, s, events.value), commands[1..]);
      }
    }
  }

  /** A successful batch without events changed nothing. */
  lemma {:induction false} NoEventsNoChange(p: Policy, s: State, commands: seq<Command>)
    requires ExecuteAll(p, s, commands).ok && ExecuteAll(p, s, commands).events == 0
    ensures ExecuteAll(p, s, commands).state == s
    decreases |commands|
  {
    hide Decide, Apply;
    if commands != [] {
      var events := Decide(p, s, commands[0]).value;
      assert events == [];
      NoEventsNoChange(p, s, commands[1..]);
    }
  }

  // ------------------------------------------------------------ client commands

  datatype ClientCommand =
    | Sync
    | SendMessage(conversation: ConvId, clientMessageId: string, content: string, options: Options)
    | Forward(source: ConvId, original: MsgId, destination: ConvId, clientMessageId: string)
    | Edit(conversation: ConvId, id: MsgId, content: string)
    | Delete(conversation: ConvId, ids: set<MsgId>)
    | Read(conversation: ConvId, id: MsgId)
    | React(conversation: ConvId, id: MsgId, reaction: Reaction)
    | Pin(conversation: ConvId, id: MsgId, pinned: bool)
    | Vote(conversation: ConvId, id: MsgId, selected: set<string>)
    | Single(name: string)
    | Typing(conversation: ConvId)
    | Blob(accepted: bool)
    | Query(permitted: bool)

  const PLAIN: Options := Options(None, None, None, false, false)

  function NewMessage(
    id: MsgId, conversation: ConvId, sender: ActorId, content: string, clientId: string, now: i64, options: Options,
    expiresAt: Option<i64>): Message
  {
    Message(id, conversation, sender, content, options, Pending(clientId), now, None, expiresAt, [], false, false)
  }

  /** `project_command`: the engine commands of one client command. */
  function Project(p: Policy, s: State, actor: ActorId, c: ClientCommand, now: i64): seq<Command>
  {
    match c
    case SendMessage(conversation, clientId, content, options) =>
      var id := p.stableId(actor, clientId);
      var expiresAt := p.expiry(s, conversation, if options.scheduledAt.Some? then options.scheduledAt.value else now);
      var stored := options.(guarded := options.guarded || p.isSecret(content));
      [QueueMessage(NewMessage(id, conversation, actor, content, clientId, now, stored, expiresAt)),
       AcknowledgeMessage(conversation, id, id, now)]
    case Forward(source, original, destination, clientId) =>
      [ForwardMessage(source, original,
         NewMessage("local:" + clientId, destination, actor, "", clientId, now, PLAIN, p.expiry(s, destination, now)))]
    case Edit(conversation, id, content) => [EditMessage(conversation, id, content, now)]
    case Delete(conversation, ids) => [DeleteMessages(conversation, ids)]
    case Read(conversation, id) =>
      [MarkRead(conversation, actor, id)] +
      (if conversation in s.conversations && s.conversations[conversation].directOrSecret &&
          HasMessage(s, conversation, id) && s.messages[conversation][id].sender != actor
       then [SetDeliveryState(conversation, id, DeliveryState.Read)] else [])
    case React(conversation, id, reaction) => [SetReaction(conversation, id, reaction)]
    case Pin(conversation, id, pinned) => [PinMessage(conversation, id, pinned)]
    case Vote(conversation, id, selected) => [VotePoll(conversation, id, actor, selected)]
    case Single(name) => [Other(name)]
    case _ => []
  }

  lemma SingleIsAtomic(p: Policy, s: State, c: Command)
    ensures !ExecuteAll(p, s, [c]).ok ==> ExecuteAll(p, s, [c]).state == s
  {
    hide Decide, ApplyAll;
    var events := Decide(p, s, c);
    if events.Some? { assert ExecuteAll(p, ApplyAll(p, s, events.value), [c][1..]).ok; }
  }

  /** When the second command cannot fail after the first, the pair is atomic. */
  lemma PairIsAtomic(p: Policy, s: State, c: Command, d: Command)
    requires Decide(p, s, c).Some? ==> Decide(p, ApplyAll(p, s, Decide(p, s, c).value), d).Some?
    ensures !ExecuteAll(p, s, [c, d]).ok ==> ExecuteAll(p, s, [c, d]).state == s
  {
    hide Decide, ApplyAll;
    var events := Decide(p, s, c);
    assert [c, d][1..] == [d];
    if events.Some? {
      var next := ApplyAll(p, s, events.value);
      var more := Decide(p, next, d);
      assert ExecuteAll(p, ApplyAll(p, next, more.value), [d][1..]).ok;
      assert ExecuteAll(p, next, [d]).ok;
    }
  }

  /** After a queued message its acknowledgement cannot fail ... */
  lemma QueueThenAcknowledge(p: Policy, s: State, m: Message, at: i64)
    requires Decide(p, s, QueueMessage(m)).Some?
    ensures Decide(p, ApplyAll(p, s, Decide(p, s, QueueMessage(m)).value),
      AcknowledgeMessage(m.conversation, m.id, m.id, at)).Some?
  {
    assert ApplyAll(p, s, [MessageQueued(m)]) == Apply(p, s, MessageQueued(m));
  }

  /** ... and after a read mark neither can the delivery state. */
  lemma ReadThenDeliver(p: Policy, s: State, conversation: ConvId, actor: ActorId, id: MsgId, d: DeliveryState)
    requires Decide(p, s, MarkRead(conversation, actor, id)).Some?
    ensures Decide(p, ApplyAll(p, s, Decide(p, s, MarkRead(conversation, actor, id)).value),
      SetDeliveryState(conversation, id, d)).Some?
  {
    assert ApplyAll(p, s, [ConversationRead(conversation, actor, id)]) ==
      Apply(p, s, ConversationRead(conversation, actor, id));
  }

  /** Once the first projected command succeeds the later ones cannot fail: a client
      command that fails leaves the engine as it was. */
  lemma ProjectedIsAtomic(p: Policy, s: State, actor: ActorId, c: ClientCommand, now: i64)
    ensures var batch := ExecuteAll(p, s, Project(p, s, actor, c, now)); !batch.ok ==> batch.state == s
  {
    var commands := Project(p, s, actor, c, now);
    if c.SendMessage? {
      var m := commands[0].message;
      if Decide(p, s, commands[0]).Some? { QueueThenAcknowledge(p, s, m, now); }
      PairIsAtomic(p, s, commands[0], commands[1]);
    } else if |commands| == 2 {
      if Decide(p, s, commands[0]).Some? { ReadThenDeliver(p, s, c.conversation, actor, c.id, DeliveryState.Read); }
      PairIsAtomic(p, s, commands[0], commands[1]);
      assert commands == [commands[0], commands[1]];
    } else if |commands| == 1 {
      assert commands == [commands[0]];
      SingleIsAtomic(p, s, commands[0]);
    }
  }

  // ------------------------------------------------------- batches over the state

  predicate IsExpired(m: Message, now: i64)
  {
    !m.deleted && m.expiresAt.Some? && m.expiresAt.value <= now
  }

  /** The specification of settlement: every expired message is marked deleted. */
  function Settled(s: State, now: i64): State
  {
    s.(messages := map c | c in s.messages :: map id | id in s.messages[c] ::
         if IsExpired(s.messages[c][id], now) then s.messages[c][id].(deleted := true) else s.messages[c][id])
  }

  predicate DirectWith(s: State, actor: ActorId, c: ConvId)
  {
    exists k | k in s.conversations ::
      s.conversations[k].id == c && s.conversations[k].directOrSecret && actor in s.conversations[k].participants
  }

  predicate IsDue(s: State, actor: ActorId, c: ConvId, m: Message)
  {
    DirectWith(s, actor, c) && m.sender != actor && m.delivery == Sent
  }

  /** The specification of delivery marks: every message sent to the actor in a direct or
      secret conversation is delivered. */
  function WithDeliveries(s: State, actor: ActorId): State
  {
    s.(messages := map c | c in s.messages :: map id | id in s.messages[c] ::
         if IsDue(s, actor, c, s.messages[c][id]) then s.messages[c][id].(delivery := DeliveryState.Delivered)
         else s.messages[c][id])
  }

  type Selection = seq<(ConvId, set<MsgId>)>

  predicate Selects(picks: Selection, c: ConvId, id: MsgId)
  {
    exists i :: 0 <= i < |picks| && picks[i].0 == c && id in picks[i].1
  }

  predicate SelectsExisting(s: State, picks: Selection)
  {
    forall i :: 0 <= i < |picks| ==>
      picks[i].0 in s.messages && picks[i].1 != {} && picks[i].1 <= s.messages[picks[i].0].Keys
  }

  function Deletes(picks: Selection): (r: seq<Command>)
    ensures |r| == |picks|
  {
    seq(|picks|, i requires 0 <= i < |picks| => DeleteMessages(picks[i].0, picks[i].1))
  }

  function DeletedBy(s: State, picks: Selection): State
  {
    s.(messages := map c | c in s.messages :: map id | id in s.messages[c] ::
         if Selects(picks, c, id) then s.messages[c][id].(deleted := true) else s.messages[c][id])
  }

  /** The state after the first pick. */
  function FirstDeleted(s: State, picks: Selection): State
    requires picks != [] && SelectsExisting(s, picks)
  {
    s.(messages := s.messages[picks[0].0 := MarkDeleted(s.messages[picks[0].0], picks[0].1)])
  }

  lemma DeleteDecides(p: Policy, s: State, picks: Selection)
    requires picks != [] && SelectsExisting(s, picks)
    ensures Decide(p, s, Deletes(picks)[0]) == Some([MessagesDeleted(picks[0].0, picks[0].1)])
    ensures ApplyAll(p, s, [MessagesDeleted(picks[0].0, picks[0].1)]) == FirstDeleted(s, picks)
    ensures SelectsExisting(FirstDeleted(s, picks), picks[1..])
  {
    var e := MessagesDeleted(picks[0].0, picks[0].1);
    var next := Apply(p, s, e);
    assert [e][1..] == [];
    assert ApplyAll(p, next, []) == next;
    assert forall c :: c in s.messages ==> next.messages[c].Keys == s.messages[c].Keys;
  }

  lemma DeletedInConversation(s: State, picks: Selection, c: ConvId)
    requires picks != [] && SelectsExisting(s, picks) && c in s.messages
    ensures DeletedBy(FirstDeleted(s, picks), picks[1..]).messages[c] == DeletedBy(s, picks).messages[c]
  {
    hide Selects, SelectsExisting;
    forall id | id in s.messages[c]
      ensures Selects(picks, c, id) <==> Selects(picks[1..], c, id) || (c == picks[0].0 && id in picks[0].1)
    {
      SelectsCons(picks, c, id);
    }
  }

  lemma DeleteStep(s: State, picks: Selection)
    requires picks != [] && SelectsExisting(s, picks)
    ensures DeletedBy(FirstDeleted(s, picks), picks[1..]) == DeletedBy(s, picks)
  {
    hide Selects, MarkDeleted;
    forall c | c in s.messages
      ensures DeletedBy(FirstDeleted(s, picks), picks[1..]).messages[c] == DeletedBy(s, picks).messages[c]
    {
      DeletedInConversation(s, picks, c);
    }
    assert DeletedBy(FirstDeleted(s, picks), picks[1..]).messages == DeletedBy(s, picks).messages;
  }

  lemma SelectsCons(picks: Selection, c: ConvId, id: MsgId)
    requires picks != []
    ensures Selects(picks, c, id) <==> Selects(picks[1..], c, id) || (c == picks[0].0 && id in picks[0].1)
  {
    if i :| 0 <= i < |picks| && picks[i].0 == c && id in picks[i].1 {
      if i > 0 { assert picks[1..][i - 1] == picks[i]; }
    }
    if i :| 0 <= i < |picks[1..]| && picks[1..][i].0 == c && id in picks[1..][i].1 {
      assert picks[i + 1] == picks[1..][i];
    }
  }

  /** A batch of deletions computed from the state cannot fail part way. */
  lemma {:induction false} DeletesSucceed(p: Policy, s: State, picks: Selection)
    requires SelectsExisting(s, picks)
    ensures ExecuteAll(p, s, Deletes(picks)) == Batch(DeletedBy(s, picks), |picks|, true)
    decreases |picks|
  {
    hide Decide, ApplyAll, SelectsExisting, Selects, DeletedBy, FirstDeleted;
    if picks == [] {
      NothingSelected(s);
    } else {
      DeleteDecides(p, s, picks);
      DeleteStep(s, picks);
      assert Deletes(picks)[1..] == Deletes(picks[1..]);
      DeletesSucceed(p, FirstDeleted(s, picks), picks[1..]);
    }
  }

  lemma NothingSelected(s: State)
    ensures DeletedBy(s, []) == s
  {
    forall c | c in s.messages
      ensures DeletedBy(s, []).messages[c] == s.messages[c]
    {
    }
    assert DeletedBy(s, []).messages == s.messages;
  }

  type Targets = seq<(ConvId, MsgId)>

  predicate TargetsExist(s: State, targets: Targets)
  {
    forall i :: 0 <= i < |targets| ==> HasMessage(s, targets[i].0, targets[i].1)
  }

  function Deliveries(targets: Targets): (r: seq<Command>)
    ensures |r| == |targets|
  {
    seq(|targets|, i requires 0 <= i < |targets| =>
      SetDeliveryState(targets[i].0, targets[i].1, DeliveryState.Delivered))
  }

  function DeliveredBy(s: State, targets: Targets): State
  {
    s.(messages := map c | c in s.messages :: map id | id in s.messages[c] ::
         if (c, id) in targets then s.messages[c][id].(delivery := DeliveryState.Delivered) else s.messages[c][id])
  }

  /** The state after the first target. */
  function FirstDelivered(s: State, targets: Targets): State
    requires targets != [] && TargetsExist(s, targets)
  {
    var c, id := targets[0].0, targets[0].1;
    assert HasMessage(s, c, id);
    s.(messages := s.messages[c := s.messages[c][id := s.messages[c][id].(delivery := DeliveryState.Delivered)]])
  }

  lemma DeliverDecides(p: Policy, s: State, targets: Targets)
    requires targets != [] && TargetsExist(s, targets)
    ensures var e := DeliveryStateUpdated(targets[0].0, targets[0].1, DeliveryState.Delivered);
      Decide(p, s, Deliveries(targets)[0]) == Some([e]) && ApplyAll(p, s, [e]) == FirstDelivered(s, targets)
    ensures TargetsExist(FirstDelivered(s, targets), targets[1..])
  {
    var e := DeliveryStateUpdated(targets[0].0, targets[0].1, DeliveryState.Delivered);
    var next := Apply(p, s, e);
    assert [e][1..] == [];
    assert ApplyAll(p, next, []) == next;
    assert HasMessage(s, targets[0].0, targets[0].1);
    forall i | 0 <= i < |targets[1..]|
      ensures HasMessage(next, targets[1..][i].0, targets[1..][i].1)
    {
      assert HasMessage(s, targets[i + 1].0, targets[i + 1].1);
    }
  }

  lemma HeadExists(s: State, targets: Targets)
    requires targets != [] && TargetsExist(s, targets)
    ensures HasMessage(s, targets[0].0, targets[0].1)
  {
  }

  lemma DeliveredInConversation(s: State, targets: Targets, c: ConvId)
    requires targets != [] && TargetsExist(s, targets) && c in s.messages
    ensures DeliveredBy(FirstDelivered(s, targets), targets[1..]).messages[c] == DeliveredBy(s, targets).messages[c]
  {
    HeadExists(s, targets);
    hide TargetsExist;
    assert forall id :: (c, id) in targets <==> (c, id) in targets[1..] || (c, id) == targets[0];
  }

  lemma DeliverStep(s: State, targets: Targets)
    requires targets != [] && TargetsExist(s, targets)
    ensures DeliveredBy(FirstDelivered(s, targets), targets[1..]) == DeliveredBy(s, targets)
  {
    HeadExists(s, targets);
    hide TargetsExist;
    forall c | c in s.messages
      ensures DeliveredBy(FirstDelivered(s, targets), targets[1..]).messages[c] == DeliveredBy(s, targets).messages[c]
    {
      DeliveredInConversation(s, targets, c);
    }
    assert DeliveredBy(FirstDelivered(s, targets), targets[1..]).messages.Keys == DeliveredBy(s, targets).messages.Keys;
  }

  /** Nor can a batch of delivery marks. */
  lemma {:induction false} DeliveriesSucceed(p: Policy, s: State, targets: Targets)
    requires TargetsExist(s, targets)
    ensures ExecuteAll(p, s, Deliveries(targets)) == Batch(DeliveredBy(s, targets), |targets|, true)
    decreases |targets|
  {
    hide Decide, ApplyAll, TargetsExist, DeliveredBy, FirstDelivered;
    if targets == [] {
      NothingDelivered(s);
    } else {
      DeliverDecides(p, s, targets);
      DeliverStep(s, targets);
      assert Deliveries(targets)[1..] == Deliveries(targets[1..]);
      DeliveriesSucceed(p, FirstDelivered(s, targets), targets[1..]);
    }
  }

  lemma NothingDelivered(s: State)
    ensures DeliveredBy(s, []) == s
  {
    forall c | c in s.messages
      ensures DeliveredBy(s, []).messages[c] == s.messages[c]
    {
    }
    assert DeliveredBy(s, []).messages == s.messages;
  }

  lemma SelectionSettles(s: State, now: i64, picks: Selection)
    requires forall c, id :: HasMessage(s, c, id) ==> (Selects(picks, c, id) <==> IsExpired(s.messages[c][id], now))
    ensures DeletedBy(s, picks) == Settled(s, now)
  {
    forall c | c in s.messages
      ensures DeletedBy(s, picks).messages[c] == Settled(s, now).messages[c]
    {
      assert forall id :: id in s.messages[c] ==> HasMessage(s, c, id);
    }
    assert DeletedBy(s, picks).messages == Settled(s, now).messages;
  }

  lemma TargetsDeliver(s: State, actor: ActorId, targets: Targets)
    requires forall c, id :: HasMessage(s, c, id) ==> ((c, id) in targets <==> IsDue(s, actor, c, s.messages[c][id]))
    ensures DeliveredBy(s, targets) == WithDeliveries(s, actor)
  {
    forall c | c in s.messages
      ensures DeliveredBy(s, targets).messages[c] == WithDeliveries(s, actor).messages[c]
    {
      assert forall id :: id in s.messages[c] ==> HasMessage(s, c, id);
    }
    assert DeliveredBy(s, targets).messages == WithDeliveries(s, actor).messages;
  }

  /** The expired messages, conversation by conversation. */
  method CollectExpired(s: State, now: i64) returns (picks: Selection)
    requires KeysMatch(s.messages)
    ensures SelectsExisting(s, picks)
    ensures forall c, id :: HasMessage(s, c, id) ==> (Selects(picks, c, id) <==> IsExpired(s.messages[c][id], now))
  {
    picks := [];
    var pending := s.messages.Keys;
    while pending != {}
      invariant pending <= s.messages.Keys && SelectsExisting(s, picks)
      invariant forall c, id :: HasMessage(s, c, id) ==>
        (Selects(picks, c, id) <==> c !in pending && IsExpired(s.messages[c][id], now))
      decreases pending
    {
      var c :| c in pending;
      var messages := s.messages[c];
      var ids := set id | id in messages && IsExpired(messages[id], now) :: messages[id].id;
      ghost var was := picks;
      if ids != {} {
        picks := picks + [(c, ids)];
      }
      pending := pending - {c};
      forall d, id | HasMessage(s, d, id)
        ensures Selects(picks, d, id) <==> Selects(was, d, id) || (d == c && id in ids)
      {
        if ids != {} { SelectsSnoc(was, c, ids, d, id); }
      }
    }
  }

  lemma SelectsSnoc(picks: Selection, c: ConvId, ids: set<MsgId>, d: ConvId, id: MsgId)
    ensures Selects(picks + [(c, ids)], d, id) <==> Selects(picks, d, id) || (d == c && id in ids)
  {
    var all := picks + [(c, ids)];
    if i :| 0 <= i < |picks| && picks[i].0 == d && id in picks[i].1 { assert all[i] == picks[i]; }
    assert all[|picks|] == (c, ids);
  }

  /** The messages waiting for an actor in its direct and secret conversations. */
  method CollectDue(s: State, actor: ActorId) returns (targets: Targets)
    requires KeysMatch(s.messages)
    ensures TargetsExist(s, targets)
    ensures forall c, id :: HasMessage(s, c, id) ==> ((c, id) in targets <==> IsDue(s, actor, c, s.messages[c][id]))
  {
    targets := [];
    var pending := set c, id | c in s.messages && id in s.messages[c] &&
      IsDue(s, actor, c, s.messages[c][id]) :: (c, id);
    ghost var all := pending;
    while pending != {}
      invariant pending <= all && TargetsExist(s, targets)
      invariant forall t :: t in targets <==> t in all - pending
      decreases pending
    {
      var t :| t in pending;
      targets := targets + [(t.0, s.messages[t.0][t.1].id)];
      pending := pending - {t};
    }
  }

  // -------------------------------------------------------------------- service

  datatype Version = Version(state: State, cursor: u64)

  /** The cursor never goes back, and below its ceiling it moves whenever the state does. */
  ghost predicate Versioned(history: seq<Version>)
  {
    forall i, j :: 0 <= i <= j < |history| ==>
      history[i].cursor <= history[j].cursor &&
      (history[i].cursor == history[j].cursor < U64_MAX ==> history[i].state == history[j].state)
  }

  lemma VersionedExtends(history: seq<Version>, next: Version)
    requires Versioned(history) && history != []
    requires var last := history[|history| - 1];
      last.cursor <= next.cursor && (last.cursor == next.cursor < U64_MAX ==> last.state == next.state)
    ensures Versioned(history + [next])
  {
  }

  /** The stored message a send would repeat, under its stable or its legacy id. */
  function Existing(policy: Policy, state: State, actor: ActorId, c: ClientCommand): Option<Message>
  {
    if !c.SendMessage? then None
    else
      var stable, legacy := policy.stableId(actor, c.clientMessageId), "local:" + c.clientMessageId;
      if HasMessage(state, c.conversation, stable) then Some(state.messages[c.conversation][stable])
      else if HasMessage(state, c.conversation, legacy) then Some(state.messages[c.conversation][legacy])
      else None
  }

  /** The stored message is what the retry asks for, or a tombstone that hides it. */
  predicate Repeats(m: Message, actor: ActorId, c: ClientCommand, now: i64)
    requires c.SendMessage?
  {
    (m.deleted && m.expiresAt.Some? && m.expiresAt.value <= now) ||
    (m.sender == actor && m.content == c.content && m.options == c.options)
  }

  predicate MayType(s: State, actor: ActorId, conversation: ConvId)
  {
    conversation in s.conversations && actor in s.conversations[conversation].participants
  }

  class MessagingService {
    const policy: Policy
    var state: State
    var cursor: u64
    /** The versions between calls, oldest first. */
    ghost var history: seq<Version>

    ghost predicate Valid()
      reads this
    {
      KeysMatch(state.messages) && Versioned(history) && history != [] &&
      history[|history| - 1] == Version(state, cursor)
    }

    constructor (policy: Policy, state: State, cursor: u64)
      requires KeysMatch(state.messages)
      ensures Valid() && this.policy == policy && this.state == state && this.cursor == cursor
      ensures history == [Version(state, cursor)]
    {
      this.policy, this.state, this.cursor := policy, state, cursor;
      history := [Version(state, cursor)];
    }

    /** Runs commands until one fails. */
    method ExecuteBatch(commands: seq<Command>) returns (ok: bool, events: nat)
      modifies this`state
      ensures var batch := ExecuteAll(policy, old(state), commands);
        state == batch.state && ok == batch.ok && (ok ==> events == batch.events)
    {
      hide Decide, Apply;
      events := 0;
      var i := 0;
      assert commands[0..] == commands;
      while i < |commands|
        invariant 0 <= i <= |commands|
        invariant var rest, all := ExecuteAll(policy, state, commands[i..]), ExecuteAll(policy, old(state), commands);
          rest.state == all.state && rest.ok == all.ok && (all.ok ==> events + rest.events == all.events)
      {
        var decided := Decide(policy, state, commands[i]);
        assert commands[i..][0] == commands[i] && commands[i..][1..] == commands[i + 1..];
        if decided.None? {
          return false, events;
        }
        state := ApplyAll(policy, state, decided.value);
        events := events + |decided.value|;
        i := i + 1;
      }
      return true, events;
    }

    /** Moves the cursor past the events of a finished batch. */
    method Advance(events: nat)
      requires Versioned(history) && history != [] && KeysMatch(state.messages)
      requires history[|history| - 1].cursor == cursor && (events == 0 ==> history[|history| - 1].state == state)
      modifies this`cursor, this`history
      ensures Valid() && cursor == SaturatingAdd(old(cursor), events) && old(history) <= history
    {
      cursor := SaturatingAdd(cursor, events);
      VersionedExtends(history, Version(state, cursor));
      history := history + [Version(state, cursor)];
    }

    /** `settle_expired_messages`: always succeeds, and marks exactly the expired messages. */
    method SettleExpiredMessages(now: i64)
      requires Valid()
      modifies this
      ensures Valid() && old(history) <= history && old(cursor) <= cursor
      ensures state == Settled(old(state), now)
    {
      hide Decide, ExecuteAll, Settled, DeletedBy, Versioned, KeysMatch, Selects;
      var picks := CollectExpired(state, now);
      SelectionSettles(state, now, picks);
      DeletesSucceed(policy, state, picks);
      BatchKeepsKeys(policy, state, Deletes(picks));
      if picks == [] {
        NothingSelected(state);
        return;
      }
      var ok, events := ExecuteBatch(Deletes(picks));
      assert ok && events == |picks|;
      Advance(events);
    }

    /** `mark_direct_messages_delivered`: always succeeds, and delivers exactly what is due. */
    method MarkDirectMessagesDelivered(actor: ActorId)
      requires Valid()
      modifies this
      ensures Valid() && old(history) <= history && old(cursor) <= cursor
      ensures state == WithDeliveries(old(state), actor)
    {
      hide Decide, ExecuteAll, WithDeliveries, DeliveredBy, Versioned, KeysMatch;
      var targets := CollectDue(state, actor);
      TargetsDeliver(state, actor, targets);
      DeliveriesSucceed(policy, state, targets);
      BatchKeepsKeys(policy, state, Deliveries(targets));
      if targets == [] {
        NothingDelivered(state);
        return;
      }
      var ok, events := ExecuteBatch(Deliveries(targets));
      assert ok && events == |targets|;
      Advance(events);
    }

    /** `typing_event` and `single_service_event`: an event that changes no engine state. */
    method Announce()
      requires Valid()
      modifies this`cursor, this`history
      ensures Valid() && old(history) <= history && cursor == SaturatingAdd(old(cursor), 1)
    {
      Advance(1);
    }

    /** `credit_wallet_from_settlement`: one engine command outside `handle`. */
    method CreditFromSettlement(name: string) returns (ok: bool)
      requires Valid()
      modifies this
      ensures Valid() && old(history) <= history && old(cursor) <= cursor
      ensures old(cursor) == cursor < U64_MAX ==> state == old(state)
      ensures var batch := ExecuteAll(policy, old(state), [Other(name)]);
        ok == (batch.ok && batch.events > 0) && state == if ok then batch.state else old(state)
    {
      hide Decide, ExecuteAll, KeysMatch;
      ghost var before := state;
      SingleIsAtomic(policy, state, Other(name));
      BatchKeepsKeys(policy, state, [Other(name)]);
      var events;
      ok, events := ExecuteBatch([Other(name)]);
      if !ok {
        return;
      }
      if events == 0 {
        NoEventsNoChange(policy, before, [Other(name)]);
        return false;
      }
      Advance(events);
    }

    /** `handle`: every call, failed ones included, keeps the cursor a faithful version of
        the state; a failed command has settled expired messages and done nothing else. */
    method Handle(actor: ActorId, c: ClientCommand, now: i64) returns (ok: bool)
      requires Valid()
      modifies this
      ensures Valid() && old(history) <= history && old(cursor) <= cursor
      ensures old(cursor) == cursor < U64_MAX ==> state == old(state)
      ensures !policy.authorized(old(state), actor, c) ==> !ok && state == old(state)
      ensures policy.authorized(old(state), actor, c) ==>
        var settled := Settled(old(state), now);
        if c.Sync? then ok && state == WithDeliveries(settled, actor)
        else if c.Typing? then ok == MayType(settled, actor, c.conversation) && state == settled
        else if c.Blob? then ok == c.accepted && state == settled
        else if c.Query? then ok == c.permitted && state == settled
        else if Existing(policy, settled, actor, c).Some? then
          ok == Repeats(Existing(policy, settled, actor, c).value, actor, c, now) && state == settled
        else
          var batch := ExecuteAll(policy, settled, Project(policy, settled, actor, c, now));
          ok == batch.ok && state == if ok then batch.state else settled
    {
      hide Decide, ExecuteAll, Project, Settled, WithDeliveries, KeysMatch;
      if !policy.authorized(state, actor, c) {
        return false;
      }
      SettleExpiredMessages(now);
      if c.Sync? {
        MarkDirectMessagesDelivered(actor);
        return true;
      }
      if c.Query? {
        return c.permitted;
      }
      if c.Typing? || c.Blob? {
        ok := if c.Typing? then MayType(state, actor, c.conversation) else c.accepted;
        if ok {
          Announce();
        }
        return;
      }
      var existing := Existing(policy, state, actor, c);
      if existing.Some? {
        return Repeats(existing.value, actor, c, now);
      }
      var commands := Project(policy, state, actor, c, now);
      ProjectedIsAtomic(policy, state, actor, c, now);
      BatchKeepsKeys(policy, state, commands);
      var events;
      ghost var before := state;
      ok, events := ExecuteBatch(commands);
      if !ok {
        return;
      }
      if events == 0 {
        NoEventsNoChange(policy, before, commands);
        return;
      }
      Advance(events);
    }
  }

  // ----------------------------------------------------------------- the ceiling

  /** Equal cursors mean equal states, without the exception at the ceiling. */
  ghost predicate Distinguishes(history: seq<Version>)
  {
    forall i, j :: 0 <= i <= j < |history| && history[i].cursor == history[j].cursor ==>
      history[i].state == history[j].state
  }

  /** The exception is exact: a batch with events keeps the cursor a version number without
      it, if and only if the cursor was below its ceiling or the state did not change. */
  lemma DistinguishesIff(history: seq<Version>, t: State, n: nat)
    requires Versioned(history) && Distinguishes(history) && history != [] && 1 <= n
    ensures var last := history[|history| - 1];
      Distinguishes(history + [Version(t, SaturatingAdd(last.cursor, n))]) <==> last.cursor < U64_MAX || t == last.state
  {
    var m := |history| - 1;
    var last := history[m];
    var all := history + [Version(t, SaturatingAdd(last.cursor, n))];
    assert all[m] == last && all[m + 1].state == t;
    if last.cursor < U64_MAX || t == last.state {
      forall i, j | 0 <= i <= j < |all| && all[i].cursor == all[j].cursor
        ensures all[i].state == all[j].state
      {
        if i <= m && j == m + 1 {
          assert history[i].cursor <= last.cursor;
          assert all[i] == history[i];
        }
      }
    }
  }

  /** At the ceiling an edit goes unnoticed: the state changes and the cursor does not. */
  lemma CeilingHidesEdits(p: Policy, s: State, conversation: ConvId, id: MsgId, content: string, now: i64)
    requires HasMessage(s, conversation, id) && content != s.messages[conversation][id].content
    ensures var batch := ExecuteAll(p, s, [EditMessage(conversation, id, content, now)]);
      batch.ok && batch.events == 1 &&
      !Distinguishes([Version(s, U64_MAX), Version(batch.state, SaturatingAdd(U64_MAX, batch.events))])
  {
    var c := EditMessage(conversation, id, content, now);
    var e := MessageEdited(conversation, id, content, now);
    assert [c][1..] == [] && [e][1..] == [];
    var t := Apply(p, s, e);
    assert ApplyAll(p, t, []) == t;
    assert ApplyAll(p, s, [e]) == t;
    assert ExecuteAll(p, t, []) == Batch(t, 0, true);
    assert t.messages[conversation][id].content == content;
    var versions := [Version(s, U64_MAX), Version(t, U64_MAX)];
    assert versions[0].cursor == versions[1].cursor && versions[0].state != versions[1].state;
  }
}
