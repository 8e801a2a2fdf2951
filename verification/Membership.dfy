/** What every community command keeps: sound communities always, and participants that
    agree with the active members exactly when upserts are harmless. */
module Membership {
  import opened Wrappers
  import opened Communities
  import opened Text

  // -------------------------------------------------- kept by every run whatsoever

  /** Keys name their values; nobody who left or was banned subscribes; nobody banned has
      a pending join request. */
  ghost predicate Sound(c: ConvId, k: Community)
  {
    k.conversation == c &&
    (forall a :: a in k.members ==> k.members[a].actorId == a) &&
    (forall a :: a in k.pending ==> k.pending[a].actorId == a) &&
    (forall a :: a in k.subscribers ==> a !in k.members || !Gone(k.members[a].status)) &&
    (forall a :: a in k.pending ==> !HasStatus(k, a, Banned))
  }

  ghost predicate AllSound(s: State)
  {
    (forall c :: c in s.communities ==> Sound(c, s.communities[c])) &&
    (forall c :: c in s.conversations ==> s.conversations[c].id == c)
  }

  ghost predicate SoundEvents(events: seq<Event>)
  {
    forall i :: 0 <= i < |events| && events[i].CommunityChanged? ==>
      Sound(events[i].community.conversation, events[i].community)
  }

  lemma SettleMemberSound(c: ConvId, k: Community, m: CommunityMember)
    requires Sound(c, k)
    ensures Sound(c, SettleMemberOf(k, m)) && SettleMemberOf(k, m).conversation == c
  {
  }

  lemma ApproveSound(c: ConvId, k: Community, a: ActorId, approver: ActorId, now: int)
    requires Sound(c, k) && ApproveJoinOf(k, a, approver, now).Some?
    ensures Sound(c, ApproveJoinOf(k, a, approver, now).value)
  {
  }

  lemma SubscriptionSound(c: ConvId, k: Community, a: ActorId, at: int)
    requires Sound(c, k)
    ensures SubscribeOf(k, a, at).Some? ==>
      Sound(c, SubscribeOf(k, a, at).value) && SubscribeOf(k, a, at).value.conversation == c
    ensures UnsubscribeOf(k, a).Some? ==>
      Sound(c, UnsubscribeOf(k, a).value) && UnsubscribeOf(k, a).value.conversation == c
  {
  }

  lemma RequestSound(c: ConvId, k: Community, r: JoinRequest)
    requires Sound(c, k) && !HasStatus(k, r.actorId, Banned)
    ensures Sound(c, RequestJoinOf(k, r)) && RequestJoinOf(k, r).conversation == c
  {
  }

  lemma {:induction false} SeedSound(ps: seq<Participant>, requested: map<ActorId, CommunityMember>)
    ensures forall a :: a in SeedMembers(ps, requested) ==> SeedMembers(ps, requested)[a].actorId == a
    decreases |ps|
  {
    if ps != [] { SeedSound(ps[..|ps| - 1], requested); }
  }

  lemma ParticipantSound(s: State, c: ConvId, p: Participant)
    requires AllSound(s) && DecideParticipant(s, c, p).Some?
    ensures SoundEvents(DecideParticipant(s, c, p).value)
  {
    if c in s.communities { assert Sound(c, s.communities[c]); }
  }

  lemma RemovalSound(s: State, c: ConvId, a: ActorId)
    requires AllSound(s) && DecideRemoval(s, c, a).Some?
    ensures SoundEvents(DecideRemoval(s, c, a).value)
  {
    if c in s.communities { assert Sound(c, s.communities[c]); }
  }

  lemma UpdateSound(s: State, a: ActorId, k: Community)
    requires AllSound(s) && DecideUpdate(s, a, k).Some?
    ensures SoundEvents(DecideUpdate(s, a, k).value)
  {
    hide SeedMembers;
    var c := k.conversation;
    SeedSound(s.conversations[c].participants, k.members);
    if c in s.communities { assert Sound(c, s.communities[c]); }
  }

  /** One sound community, followed by any participant events. */
  lemma OneSound(k: Community, rest: seq<Event>)
    requires Sound(k.conversation, k) && forall i :: 0 <= i < |rest| ==> !rest[i].CommunityChanged?
    ensures SoundEvents([CommunityChanged(k)]) && SoundEvents([CommunityChanged(k)] + rest)
  {
    hide Sound;
  }

  lemma RespondSound(s: State, a: ActorId, c: ConvId, requester: ActorId, approved: bool, at: int)
    requires AllSound(s) && DecideRespond(s, a, c, requester, approved, at).Some?
    ensures SoundEvents(DecideRespond(s, a, c, requester, approved, at).value)
  {
    hide SoundEvents;
    var k, events := s.communities[c], DecideRespond(s, a, c, requester, approved, at).value;
    assert Sound(c, k);
    if approved {
      ApproveSound(c, k, requester, a, at);
      OneSound(ApproveJoinOf(k, requester, a, at).value, events[1..]);
      assert events == [events[0]] + events[1..];
    } else {
      OneSound(k.(pending := k.pending - {requester}), []);
    }
  }

  /** Every community a command writes is sound. */
  lemma DecidesSoundly(s: State, command: Command)
    requires AllSound(s) && Decide(s, command).Some?
    ensures SoundEvents(Decide(s, command).value)
  {
    hide Sound, SoundEvents, SettleMemberOf, SubscribeOf, UnsubscribeOf, RequestJoinOf, ParticipantOf, MayAdminister,
      Trim, ValidId,
      DecideConversation, DecideParticipant, DecideRemoval, DecideUpdate, DecideRespond;
    match command
    case UpsertActor(a, name) => QuietSound([ActorUpserted(a)]);
    case UpsertConversation(v) => ConversationSound(s, v);
    case SetConversationParticipant(c, p) => ParticipantSound(s, c, p);
    case RemoveConversationParticipant(c, a) => RemovalSound(s, c, a);
    case UpdateCommunity(a, k) => UpdateSound(s, a, k);
    case SubscribeChannel(a, c, at) =>
      SubscriptionSound(c, s.communities[c], a, at);
      OneSound(SubscribeOf(s.communities[c], a, at).value, []);
    case UnsubscribeChannel(a, c) =>
      SubscriptionSound(c, s.communities[c], a, 0);
      OneSound(UnsubscribeOf(s.communities[c], a).value, []);
    case SetCommunitySlowMode(a, c, seconds) =>
      SlowModeSound(c, s.communities[c], seconds);
      OneSound(s.communities[c].(slowMode := seconds), []);
    case ModerateCommunityMember(a, c, m) =>
      SettleMemberSound(c, s.communities[c], m);
      OneSound(SettleMemberOf(s.communities[c], m), Follow(s, c, m));
    case SetCommunityMember(a, c, m) =>
      SettleMemberSound(c, s.communities[c], m);
      OneSound(SettleMemberOf(s.communities[c], m), Follow(s, c, m));
    case RequestCommunityJoin(a, r) =>
      RequestSound(r.conversation, s.communities[r.conversation], r);
      OneSound(RequestJoinOf(s.communities[r.conversation], r), []);
    case RespondCommunityJoin(a, c, requester, approved, at) => RespondSound(s, a, c, requester, approved, at);
  }

  lemma SlowModeSound(c: ConvId, k: Community, seconds: Option<nat>)
    requires Sound(c, k)
    ensures Sound(c, k.(slowMode := seconds)) && k.conversation == c
  {
  }

  lemma QuietSound(events: seq<Event>)
    requires forall i :: 0 <= i < |events| ==> !events[i].CommunityChanged?
    ensures SoundEvents(events)
  {
  }

  lemma ConversationSound(s: State, v: Conversation)
    requires DecideConversation(s, v).Some?
    ensures SoundEvents(DecideConversation(s, v).value)
  {
  }

  lemma ApplySound(s: State, e: Event)
    requires AllSound(s) && (e.CommunityChanged? ==> Sound(e.community.conversation, e.community))
    ensures AllSound(Apply(s, e))
  {
    hide Sound, Upsert, Remove;
  }

  lemma {:induction false} ApplyAllSound(s: State, events: seq<Event>)
    requires AllSound(s) && SoundEvents(events)
    ensures AllSound(ApplyAll(s, events))
    decreases |events|
  {
    hide AllSound, Sound, Apply;
    if events != [] {
      ApplySound(s, events[0]);
      ApplyAllSound(Apply(s, events[0]), events[1..]);
    }
  }

  /** Over every engine run a member who left or was banned is never a subscriber, and a
      banned member never has a pending join request. */
  lemma {:induction false} RunsStaySound(s: State, commands: seq<Command>)
    requires AllSound(s)
    ensures AllSound(Run(s, commands))
    decreases |commands|
  {
    hide AllSound, Decide, ApplyAll, SoundEvents;
    if commands != [] {
      var events := Decide(s, commands[0]);
      if events.Some? {
        DecidesSoundly(s, commands[0]);
        ApplyAllSound(s, events.value);
      }
      RunsStaySound(Execute(s, commands[0]), commands[1..]);
    }
  }

  // ------------------------------------- participants agree with active members

  ghost predicate AgreeAt(k: Community, ps: seq<Participant>, a: ActorId)
  {
    var p := Find(ps, a);
    if p.None? then !IsActive(k, a)
    else a in k.members && StatusOf(p.value.role) == k.members[a].status && p.value.joinedAt == k.members[a].joinedAt
  }

  /** One participant per active member, with the matching role and joining time, and no
      other participants. */
  ghost predicate Agrees(k: Community, ps: seq<Participant>)
  {
    Distinct(ps) && forall a :: AgreeAt(k, ps, a)
  }

  /** Somebody may create the community of the conversation. */
  predicate HasFounder(v: Conversation)
  {
    v.owner.Some? || exists i :: 0 <= i < |v.participants| && v.participants[i].role == OwnerRole
  }

  /** Agreement, with what keeps it: communities of groups and channels only, and distinct
      participants wherever a community may still be created. */
  ghost predicate InStep(s: State)
  {
    (forall c :: c in s.communities ==>
      c in s.conversations && GroupLike(s.conversations[c].kind) &&
      Agrees(s.communities[c], s.conversations[c].participants)) &&
    (forall c :: c in s.conversations && GroupLike(s.conversations[c].kind) && HasFounder(s.conversations[c]) ==>
      Distinct(s.conversations[c].participants))
  }

  /** An upsert is harmless when it is refused, or when it keeps a conversation that has a
      community a group or channel and lists the participants of a group or channel once, if
      somebody may create its community. Every other command is harmless. */
  predicate Harmless(s: State, command: Command)
  {
    command.UpsertConversation? ==>
      var v := command.upserted;
      DecideConversation(s, v).None? ||
      ((v.id in s.communities ==> GroupLike(v.kind)) &&
        (GroupLike(v.kind) && HasFounder(v) ==> Distinct(v.participants)))
  }

  predicate HarmlessRun(s: State, commands: seq<Command>)
    decreases |commands|
  {
    commands == [] || (Harmless(s, commands[0]) && HarmlessRun(Execute(s, commands[0]), commands[1..]))
  }

  /** Agreement before and after every command of the run. */
  ghost predicate AlwaysInStep(s: State, commands: seq<Command>)
    decreases |commands|
  {
    InStep(s) && (commands == [] || AlwaysInStep(Execute(s, commands[0]), commands[1..]))
  }

  lemma AgreesUpsert(k: Community, next: Community, ps: seq<Participant>, p: Participant)
    requires Agrees(k, ps) && p.actorId in next.members
    requires next.members == k.members[p.actorId := next.members[p.actorId]]
    requires StatusOf(p.role) == next.members[p.actorId].status && p.joinedAt == next.members[p.actorId].joinedAt
    ensures Agrees(next, Upsert(ps, p))
  {
    DistinctUpsert(ps, p);
    forall a
      ensures AgreeAt(next, Upsert(ps, p), a)
    {
      FindUpsert(ps, p, a);
      assert AgreeAt(k, ps, a);
    }
  }

  lemma AgreesRemove(k: Community, next: Community, ps: seq<Participant>, x: ActorId)
    requires Agrees(k, ps) && !IsActive(next, x)
    requires forall a :: a != x ==> (a in next.members <==> a in k.members)
    requires forall a :: a != x && a in k.members ==> next.members[a] == k.members[a]
    ensures Agrees(next, Remove(ps, x))
  {
    DistinctRemove(ps, x);
    forall a
      ensures AgreeAt(next, Remove(ps, x), a)
    {
      FindRemove(ps, x, a);
      assert AgreeAt(k, ps, a);
    }
  }

  lemma AgreesSeed(k: Community, ps: seq<Participant>, requested: map<ActorId, CommunityMember>)
    requires Distinct(ps) && k.members == SeedMembers(ps, requested)
    ensures Agrees(k, ps)
  {
    forall a
      ensures AgreeAt(k, ps, a)
    {
      SeedFinds(ps, requested, a);
    }
  }

  lemma AgreesSame(k: Community, next: Community, ps: seq<Participant>)
    requires Agrees(k, ps) && next.members == k.members
    ensures Agrees(next, ps)
  {
    forall a
      ensures AgreeAt(next, ps, a)
    {
      assert AgreeAt(k, ps, a);
    }
  }

  /** The state with one conversation's community and participants replaced. */
  function With(s: State, c: ConvId, k: Community, ps: seq<Participant>): State
    requires c in s.conversations
  {
    s.(communities := s.communities[c := k],
       conversations := s.conversations[c := s.conversations[c].(participants := ps)])
  }

  lemma WithInStep(s: State, c: ConvId, k: Community, ps: seq<Participant>)
    requires InStep(s) && c in s.conversations && GroupLike(s.conversations[c].kind) && Agrees(k, ps)
    ensures InStep(With(s, c, k, ps))
  {
    hide AgreeAt;
  }

  lemma ChangeIsWith(s: State, c: ConvId, k: Community, p: Participant, a: ActorId)
    requires c in s.conversations && k.conversation == c
    ensures ApplyAll(s, [CommunityChanged(k)]) == With(s, c, k, s.conversations[c].participants)
    ensures ApplyAll(s, [CommunityChanged(k), ParticipantUpserted(c, p)]) ==
      With(s, c, k, Upsert(s.conversations[c].participants, p))
    ensures ApplyAll(s, [CommunityChanged(k), ParticipantRemoved(c, a)]) ==
      With(s, c, k, Remove(s.conversations[c].participants, a))
  {
    hide Upsert, Remove;
    var changed := CommunityChanged(k);
    var t := Apply(s, changed);
    assert [changed][1..] == [];
    assert [changed, ParticipantUpserted(c, p)][1..] == [ParticipantUpserted(c, p)];
    assert [changed, ParticipantRemoved(c, a)][1..] == [ParticipantRemoved(c, a)];
    assert ApplyAll(t, [ParticipantUpserted(c, p)]) == Apply(t, ParticipantUpserted(c, p));
    assert ApplyAll(t, [ParticipantRemoved(c, a)]) == Apply(t, ParticipantRemoved(c, a));
    assert s.conversations[c := s.conversations[c].(participants := s.conversations[c].participants)] ==
      s.conversations;
  }

  lemma ParticipantInStep(s: State, c: ConvId, p: Participant)
    requires InStep(s) && AllSound(s) && DecideParticipant(s, c, p).Some?
    ensures InStep(ApplyAll(s, DecideParticipant(s, c, p).value))
  {
    hide ApplyAll, Agrees, Upsert;
    var events := DecideParticipant(s, c, p).value;
    if GroupLike(s.conversations[c].kind) {
      var k, ps := s.communities[c], s.conversations[c].participants;
      var next := events[0].community;
      ChangeIsWith(s, c, next, p, "");
      AgreesUpsert(k, next, ps, p);
      WithInStep(s, c, next, Upsert(ps, p));
    } else {
      OnlyParticipants(s, c, p, "");
      ElsewhereInStep(s, c, Upsert(s.conversations[c].participants, p));
    }
  }

  /** Participant events of conversations without a community. */
  lemma OnlyParticipants(s: State, c: ConvId, p: Participant, a: ActorId)
    requires c in s.conversations
    ensures ApplyAll(s, [ParticipantUpserted(c, p)]) ==
      s.(conversations :=
        s.conversations[c := s.conversations[c].(participants := Upsert(s.conversations[c].participants, p))])
    ensures ApplyAll(s, [ParticipantRemoved(c, a)]) ==
      s.(conversations :=
        s.conversations[c := s.conversations[c].(participants := Remove(s.conversations[c].participants, a))])
  {
    hide Upsert, Remove;
    assert [ParticipantUpserted(c, p)][1..] == [] && [ParticipantRemoved(c, a)][1..] == [];
    assert ApplyAll(Apply(s, ParticipantUpserted(c, p)), []) == Apply(s, ParticipantUpserted(c, p));
    assert ApplyAll(Apply(s, ParticipantRemoved(c, a)), []) == Apply(s, ParticipantRemoved(c, a));
  }

  lemma ElsewhereInStep(s: State, c: ConvId, ps: seq<Participant>)
    requires InStep(s) && c in s.conversations && !GroupLike(s.conversations[c].kind)
    ensures InStep(s.(conversations := s.conversations[c := s.conversations[c].(participants := ps)]))
  {
    hide Agrees;
  }

  lemma RemovalInStep(s: State, c: ConvId, a: ActorId)
    requires InStep(s) && AllSound(s) && DecideRemoval(s, c, a).Some?
    ensures InStep(ApplyAll(s, DecideRemoval(s, c, a).value))
  {
    hide ApplyAll, Agrees, Remove;
    var events := DecideRemoval(s, c, a).value;
    var filler := Participant("", MemberRole, 0, None);
    if GroupLike(s.conversations[c].kind) {
      var k, ps := s.communities[c], s.conversations[c].participants;
      var next := events[0].community;
      ChangeIsWith(s, c, next, filler, a);
      AgreesRemove(k, next, ps, a);
      WithInStep(s, c, next, Remove(ps, a));
    } else {
      OnlyParticipants(s, c, filler, a);
      ElsewhereInStep(s, c, Remove(s.conversations[c].participants, a));
    }
  }

  lemma UpdateInStep(s: State, a: ActorId, k: Community)
    requires InStep(s) && DecideUpdate(s, a, k).Some?
    ensures InStep(ApplyAll(s, DecideUpdate(s, a, k).value))
  {
    hide ApplyAll, Agrees, SeedMembers;
    var c := k.conversation;
    var next, ps := DecideUpdate(s, a, k).value[0].community, s.conversations[c].participants;
    ChangeIsWith(s, c, next, Participant("", MemberRole, 0, None), "");
    if c in s.communities { AgreesSame(s.communities[c], next, ps); } else { AgreesSeed(next, ps, k.members); }
    WithInStep(s, c, next, ps);
  }

  /** A change of a community that leaves its members alone. */
  lemma SameMembersInStep(s: State, c: ConvId, next: Community)
    requires InStep(s) && c in s.communities && next.conversation == c && next.members == s.communities[c].members
    ensures InStep(ApplyAll(s, [CommunityChanged(next)]))
  {
    hide ApplyAll, Agrees;
    var ps := s.conversations[c].participants;
    ChangeIsWith(s, c, next, Participant("", MemberRole, 0, None), "");
    AgreesSame(s.communities[c], next, ps);
    WithInStep(s, c, next, ps);
  }

  /** A changed member is followed by its participant. */
  lemma MemberInStep(s: State, c: ConvId, m: CommunityMember, next: Community)
    requires InStep(s) && c in s.communities && next.conversation == c
    requires next.members == s.communities[c].members[m.actorId := m]
    ensures InStep(ApplyAll(s, [CommunityChanged(next)] + Follow(s, c, m)))
  {
    hide ApplyAll, Agrees, Upsert, Remove;
    var k, ps := s.communities[c], s.conversations[c].participants;
    if ParticipantOf(m).Some? {
      var p := ParticipantOf(m).value;
      ChangeIsWith(s, c, next, p, m.actorId);
      AgreesUpsert(k, next, ps, p);
      WithInStep(s, c, next, Upsert(ps, p));
      assert [CommunityChanged(next)] + Follow(s, c, m) == [CommunityChanged(next), ParticipantUpserted(c, p)];
    } else {
      ChangeIsWith(s, c, next, Participant("", MemberRole, 0, None), m.actorId);
      AgreesRemove(k, next, ps, m.actorId);
      WithInStep(s, c, next, Remove(ps, m.actorId));
      assert [CommunityChanged(next)] + Follow(s, c, m) == [CommunityChanged(next), ParticipantRemoved(c, m.actorId)];
    }
  }

  lemma RespondInStep(s: State, a: ActorId, c: ConvId, requester: ActorId, approved: bool, at: int)
    requires InStep(s) && AllSound(s) && DecideRespond(s, a, c, requester, approved, at).Some?
    ensures InStep(ApplyAll(s, DecideRespond(s, a, c, requester, approved, at).value))
  {
    hide ApplyAll, InStep;
    var k := s.communities[c];
    if approved {
      var next := ApproveJoinOf(k, requester, a, at).value;
      var m := next.members[requester];
      MemberInStep(s, c, m, next);
      CommunityIsGroup(s, c);
      assert Follow(s, c, m) == [ParticipantUpserted(c, ParticipantOf(m).value)];
    } else {
      SameMembersInStep(s, c, k.(pending := k.pending - {requester}));
    }
  }

  lemma CommunityIsGroup(s: State, c: ConvId)
    requires InStep(s) && c in s.communities
    ensures c in s.conversations && GroupLike(s.conversations[c].kind)
  {
  }

  lemma ConversationInStepIff(s: State, v: Conversation)
    requires InStep(s) && AllSound(s) && DecideConversation(s, v).Some?
    ensures InStep(ApplyAll(s, DecideConversation(s, v).value)) <==> Harmless(s, UpsertConversation(v))
  {
    hide Agrees, Distinct, ValidId, Trim;
    assert [ConversationUpserted(v)][1..] == [];
    var t := Apply(s, ConversationUpserted(v));
    assert ApplyAll(t, []) == t;
    assert v.id in t.conversations && t.conversations[v.id] == v;
    if v.id in s.communities {
      CommunityIsGroup(s, v.id);
      assert v.participants == s.conversations[v.id].participants;
    }
  }

  lemma ActorInStep(s: State, a: ActorId)
    requires InStep(s)
    ensures InStep(ApplyAll(s, [ActorUpserted(a)]))
  {
    hide Agrees, Distinct;
    assert [ActorUpserted(a)][1..] == [];
    var t := Apply(s, ActorUpserted(a));
    assert ApplyAll(t, []) == t;
  }

  lemma OtherCommandsKeepStep(s: State, command: Command)
    requires InStep(s) && AllSound(s) && !command.UpsertConversation?
    ensures InStep(Execute(s, command))
  {
    hide InStep, ApplyAll, ParticipantOf, DecideParticipant, DecideRemoval, DecideUpdate, DecideRespond, Follow;
    if Decide(s, command).Some? {
      match command
      case UpsertActor(a, name) => ActorInStep(s, a);
      case SetConversationParticipant(c, p) => ParticipantInStep(s, c, p);
      case RemoveConversationParticipant(c, a) => RemovalInStep(s, c, a);
      case UpdateCommunity(a, k) => UpdateInStep(s, a, k);
      case SubscribeChannel(a, c, at) => SameMembersInStep(s, c, SubscribeOf(s.communities[c], a, at).value);
      case UnsubscribeChannel(a, c) => SameMembersInStep(s, c, UnsubscribeOf(s.communities[c], a).value);
      case SetCommunitySlowMode(a, c, seconds) => SameMembersInStep(s, c, s.communities[c].(slowMode := seconds));
      case ModerateCommunityMember(a, c, m) => MemberInStep(s, c, m, SettleMemberOf(s.communities[c], m));
      case SetCommunityMember(a, c, m) => MemberInStep(s, c, m, SettleMemberOf(s.communities[c], m));
      case RequestCommunityJoin(a, r) =>
        SameMembersInStep(s, r.conversation, RequestJoinOf(s.communities[r.conversation], r));
      case RespondCommunityJoin(a, c, requester, approved, at) => RespondInStep(s, a, c, requester, approved, at);
    }
  }

  /** The inductive core: a command keeps the strengthened agreement exactly when it is
      harmless. */
  lemma StepInStepIff(s: State, command: Command)
    requires InStep(s) && AllSound(s)
    ensures InStep(Execute(s, command)) <==> Harmless(s, command)
  {
    hide InStep, AllSound, ApplyAll, DecideConversation;
    if command.UpsertConversation? {
      var v := command.upserted;
      if DecideConversation(s, v).Some? { ConversationInStepIff(s, v); }
    } else {
      OtherCommandsKeepStep(s, command);
    }
  }

  /** The same over runs. */
  lemma {:induction false} RunsInStepIff(s: State, commands: seq<Command>)
    requires InStep(s) && AllSound(s)
    ensures AlwaysInStep(s, commands) <==> HarmlessRun(s, commands)
    decreases |commands|
  {
    hide InStep, AllSound, Execute, Harmless;
    if commands != [] {
      var next := Execute(s, commands[0]);
      StepInStepIff(s, commands[0]);
      if Harmless(s, commands[0]) {
        RunsStaySound(s, [commands[0]]);
        RunOne(s, commands[0]);
        RunsInStepIff(next, commands[1..]);
      } else {
        assert !AlwaysInStep(next, commands[1..]);
      }
    }
  }

  /** In particular a harmless run ends in step. */
  lemma {:induction false} AlwaysEndsInStep(s: State, commands: seq<Command>)
    requires AlwaysInStep(s, commands)
    ensures InStep(Run(s, commands))
    decreases |commands|
  {
    hide InStep, Execute;
    if commands != [] { AlwaysEndsInStep(Execute(s, commands[0]), commands[1..]); }
  }

  lemma RunOne(s: State, command: Command)
    ensures Run(s, [command]) == Execute(s, command)
  {
    hide Execute;
    assert [command][1..] == [];
    assert Run(Execute(s, command), []) == Execute(s, command);
  }

  // ---------------------------------------------- runs that are not harmless

  const G: ConvId := "g"

  lemma NamesAreValid()
    ensures ValidId(G, 200) && Trim(G) != ""
  {
    assert G[1..] == "" && G[..0] == "";
    assert TrimStart(G) == G && TrimEnd(G) == G;
    assert Utf8Len(G[1..]) == 0;
    assert Utf8Len(G) == 1;
  }

  function Person(a: ActorId, role: Role): Participant
  {
    Participant(a, role, 0, None)
  }

  function GroupOf(kind: Kind, ps: seq<Participant>): Conversation
  {
    Conversation(G, kind, G, Some("o"), ps, "")
  }

  /** Upserts decide and apply as written when they keep the participants or the
      conversation is not a group. */
  lemma UpsertRuns(s: State, v: Conversation)
    requires v.id == G && v.title == G && v.kind != Secret
    requires forall i :: 0 <= i < |v.participants| ==> v.participants[i].actorId in s.actors
    requires G in s.conversations && GroupLike(s.conversations[G].kind) ==>
      v.owner == s.conversations[G].owner && v.participants == s.conversations[G].participants &&
      v.topics == s.conversations[G].topics
    ensures Execute(s, UpsertConversation(v)) == s.(conversations := s.conversations[G := v])
  {
    NamesAreValid();
    hide ValidId, Trim;
    assert [ConversationUpserted(v)][1..] == [];
    var t := Apply(s, ConversationUpserted(v));
    assert ApplyAll(t, []) == t;
  }

  const OWNER: Participant := Person("o", OwnerRole)
  const GUEST: Participant := Person("b", MemberRole)
  const SOLO: Community :=
    Community(G, None, None, map["o" := CommunityMember("o", Owner, ALL_RIGHTS, 0, None, None)], map[], map[])

  /** The one community SOLO with conversation v. */
  function SoloState(v: Conversation): State
  {
    State({"o", "b"}, map[G := v], map[G := SOLO])
  }

  const SWAP: seq<Command> :=
    [UpsertConversation(GroupOf(Direct, [OWNER])), UpsertConversation(GroupOf(Direct, [OWNER, GUEST])),
     UpsertConversation(GroupOf(Group, [OWNER, GUEST]))]

  lemma SwapRuns()
    ensures Run(SoloState(GroupOf(Group, [OWNER])), SWAP) == SoloState(GroupOf(Group, [OWNER, GUEST]))
  {
    hide Execute, Run;
    SoloUpsert(GroupOf(Group, [OWNER]), GroupOf(Direct, [OWNER]));
    SoloUpsert(GroupOf(Direct, [OWNER]), GroupOf(Direct, [OWNER, GUEST]));
    SoloUpsert(GroupOf(Direct, [OWNER, GUEST]), GroupOf(Group, [OWNER, GUEST]));
    ThreeSteps(SoloState(GroupOf(Group, [OWNER])), SWAP[0], SWAP[1], SWAP[2]);
  }

  lemma SoloUpsert(v: Conversation, w: Conversation)
    requires v.participants == w.participants || v.kind == Direct
    requires v == GroupOf(v.kind, v.participants) && w == GroupOf(w.kind, w.participants) && w.kind != Secret
    requires forall i :: 0 <= i < |w.participants| ==> w.participants[i] == OWNER || w.participants[i] == GUEST
    ensures Execute(SoloState(v), UpsertConversation(w)) == SoloState(w)
  {
    hide Execute;
    UpsertRuns(SoloState(v), w);
    assert SoloState(v).conversations[G := w] == SoloState(w).conversations;
  }

  /** A group that is turned direct, changed and turned back has a participant who is no
      member: the first upsert was not harmless. */
  lemma KindChangeBreaksAgreement()
    ensures var s := SoloState(GroupOf(Group, [OWNER])); InStep(s) && AllSound(s) && !HarmlessRun(s, SWAP)
    ensures var t := Run(SoloState(GroupOf(Group, [OWNER])), SWAP);
      G in t.communities && G in t.conversations && t.conversations[G].kind == Group &&
      !AgreeAt(t.communities[G], t.conversations[G].participants, "b")
  {
    hide Run, Execute;
    SwapRuns();
    SoloAgrees(SOLO, OWNER);
    NamesAreValid();
    hide ValidId, Trim;
    assert !Harmless(SoloState(GroupOf(Group, [OWNER])), SWAP[0]);
    assert Find([OWNER, GUEST], "b") == Some(GUEST) by { assert [OWNER, GUEST][1..] == [GUEST] && [GUEST][0] == GUEST; }
  }

  lemma SoloAgrees(k: Community, o: Participant)
    requires k.members.Keys == {o.actorId} && k.members[o.actorId].status == StatusOf(o.role) &&
      k.members[o.actorId].joinedAt == o.joinedAt
    ensures Agrees(k, [o])
  {
    assert [o][1..] == [];
    forall a
      ensures AgreeAt(k, [o], a)
    {
      assert Find([], a).None?;
      assert Find([o], a) == if a == o.actorId then Some(o) else None;
    }
  }

  lemma ThreeSteps(s: State, a: Command, b: Command, c: Command)
    ensures Run(s, [a, b, c]) == Execute(Execute(Execute(s, a), b), c)
  {
    hide Execute;
    assert [a, b, c][1..] == [b, c] && [b, c][1..] == [c];
    RunOne(Execute(Execute(s, a), b), c);
    assert Run(Execute(s, a), [b, c]) == Run(Execute(Execute(s, a), b), [c]);
  }

  const TWICE: seq<Participant> := [OWNER, Person("o", MemberRole)]
  const NOBODY: State := State({"o"}, map[], map[])
  const BLANK: Community := Community(G, None, None, map[], map[], map[])

  /** What creating the community over TWICE leads to. */
  lemma TwiceRuns()
    ensures Run(NOBODY, [UpsertConversation(GroupOf(Group, TWICE)), UpdateCommunity("o", BLANK)]) ==
      State({"o"}, map[G := GroupOf(Group, TWICE)], map[G := BLANK.(members := SeedMembers(TWICE, map[]))])
  {
    hide SeedMembers;
    var v, update := GroupOf(Group, TWICE), UpdateCommunity("o", BLANK);
    var s1 := State({"o"}, map[G := v], map[]);
    UpsertRuns(NOBODY, v);
    assert NOBODY.conversations[G := v] == s1.conversations;
    var next := BLANK.(members := SeedMembers(TWICE, map[]));
    assert DecideUpdate(s1, "o", BLANK) == Some([CommunityChanged(next)]);
    var t := Apply(s1, CommunityChanged(next));
    assert [CommunityChanged(next)][1..] == [];
    assert ApplyAll(t, []) == t;
    assert [UpsertConversation(v), update][1..] == [update];
    RunOne(s1, update);
  }

  /** A group created with one actor listed twice gets a member whose status is not its
      participant's role: the upsert was not harmless. */
  lemma DuplicateParticipantsBreakAgreement()
    ensures InStep(NOBODY) && AllSound(NOBODY) && !Harmless(NOBODY, UpsertConversation(GroupOf(Group, TWICE)))
    ensures var t := Run(NOBODY, [UpsertConversation(GroupOf(Group, TWICE)), UpdateCommunity("o", BLANK)]);
      G in t.communities && G in t.conversations && t.conversations[G].kind == Group &&
      !AgreeAt(t.communities[G], t.conversations[G].participants, "o")
  {
    NamesAreValid();
    hide Run, ValidId, Trim;
    TwiceRuns();
    assert TWICE[..1] == [OWNER];
    assert SeedMembers(TWICE, map[])["o"].status == Member;
    assert Find(TWICE, "o") == Some(OWNER);
    assert TWICE[1..] == [Person("o", MemberRole)];
    assert Find(TWICE[1..], "o").Some?;
  }
}
