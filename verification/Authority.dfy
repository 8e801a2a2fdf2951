/** Who may change a community: which standing every change of an actor presupposes, read off
    the states before and after, and where the code departs from it. */
module Authority {
  import opened Wrappers
  import opened Text
  import opened Communities
  import opened Membership

  predicate IsOwner(s: State, c: ConvId, a: ActorId)
  {
    c in s.communities && a in s.communities[c].members && s.communities[c].members[a].status == Owner
  }

  predicate IsAdministrator(s: State, c: ConvId, a: ActorId)
  {
    c in s.communities && a in s.communities[c].members && s.communities[c].members[a].status == Administrator
  }

  /** The actor owns the community, or administers it with this right. */
  predicate Stands(s: State, c: ConvId, a: ActorId, right: Right)
  {
    IsOwner(s, c, a) || (IsAdministrator(s, c, a) && right in s.communities[c].members[a].rights)
  }

  predicate HasActor(command: Command)
  {
    command.UpdateCommunity? || command.SubscribeChannel? || command.UnsubscribeChannel? ||
    command.SetCommunitySlowMode? || command.ModerateCommunityMember? || command.SetCommunityMember? ||
    command.RequestCommunityJoin? || command.RespondCommunityJoin?
  }

  function MemberAt(s: State, c: ConvId, b: ActorId): Option<CommunityMember>
  {
    if c in s.communities && b in s.communities[c].members then Some(s.communities[c].members[b]) else None
  }

  function CommunityAt(s: State, c: ConvId): Option<Community>
  {
    if c in s.communities then Some(s.communities[c]) else None
  }

  predicate Officer(m: Option<CommunityMember>)
  {
    m.Some? && (m.value.status == Owner || m.value.status == Administrator)
  }

  /** The community differs at most in the actor's own subscription and join request. */
  ghost predicate OwnAffair(k: Community, l: Community, a: ActorId)
  {
    l.members == k.members && l.publicUsername == k.publicUsername && l.slowMode == k.slowMode &&
    l.pending - {a} == k.pending - {a} && l.subscribers - {a} == k.subscribers - {a}
  }

  /** Some right of a manager lets the actor act in the community. */
  predicate Manages(s: State, c: ConvId, a: ActorId)
  {
    Stands(s, c, a, ChangeInfo) || Stands(s, c, a, BanMembers) || Stands(s, c, a, InviteMembers) ||
      Stands(s, c, a, AddAdmins)
  }

  // --------------------------------------------------------------- applied events

  /** A command that writes one community leaves every other one alone. */
  lemma WritesOne(s: State, k: Community, rest: seq<Event>)
    requires forall i :: 0 <= i < |rest| ==> !rest[i].CommunityChanged?
    ensures ApplyAll(s, [CommunityChanged(k)] + rest).communities == s.communities[k.conversation := k]
  {
    var events := [CommunityChanged(k)] + rest;
    assert events[0] == CommunityChanged(k) && events[1..] == rest;
    OthersStay(Apply(s, events[0]), rest);
  }

  lemma {:induction false} OthersStay(s: State, events: seq<Event>)
    requires forall i :: 0 <= i < |events| ==> !events[i].CommunityChanged?
    ensures ApplyAll(s, events).communities == s.communities
    decreases |events|
  {
    if events != [] { OthersStay(Apply(s, events[0]), events[1..]); }
  }

  /** What the commands of an actor write. */
  lemma CommandWrites(s: State, command: Command)
    requires HasActor(command) && Decide(s, command).Some?
    ensures var events := Decide(s, command).value;
      events != [] && events[0].CommunityChanged? && Execute(s, command).communities ==
        s.communities[events[0].community.conversation := events[0].community]
  {
    hide ApplyAll, SettleMemberOf, ParticipantOf, ApproveJoinOf, SubscribeOf, UnsubscribeOf, RequestJoinOf, SeedMembers,
      MayAdminister;
    var events := Decide(s, command).value;
    assert events == [events[0]] + events[1..];
    WritesOne(s, events[0].community, events[1..]);
  }

  // ------------------------------------------------------------------- standing

  /** A command of a manager. */
  predicate Managing(command: Command)
  {
    command.UpdateCommunity? || command.SetCommunitySlowMode? || command.ModerateCommunityMember? ||
    command.SetCommunityMember? || command.RespondCommunityJoin?
  }

  lemma ManagersManage(s: State, command: Command, c: ConvId)
    requires AllSound(s) && Managing(command) && c in s.communities && Decide(s, command).Some?
    ensures var after := Execute(s, command);
      c in after.communities && (after.communities[c] == s.communities[c] || Manages(s, c, command.actor))
  {
    hide ApplyAll, SettleMemberOf, ParticipantOf, SeedMembers, ApproveJoinOf, Follow;
    CommandWrites(s, command);
    assert forall d :: d in s.communities ==> s.communities[d].conversation == d;
    match command
    case ModerateCommunityMember(a, d, m) => SettledMembers(s.communities[d], m);
    case SetCommunityMember(a, d, m) => SettledMembers(s.communities[d], m);
    case RespondCommunityJoin(a, d, requester, approved, at) => ApprovedMembers(s.communities[d], requester, a, at);
    case _ =>
  }

  lemma OthersMindTheirOwn(s: State, command: Command, c: ConvId)
    requires AllSound(s) && HasActor(command) && !Managing(command) && c in s.communities && Decide(s, command).Some?
    ensures var after := Execute(s, command);
      c in after.communities &&
      (after.communities[c] == s.communities[c] || OwnAffair(s.communities[c], after.communities[c], command.actor))
  {
    hide ApplyAll, SubscribeOf, UnsubscribeOf, RequestJoinOf, OwnAffair;
    CommandWrites(s, command);
    assert forall d :: d in s.communities ==> s.communities[d].conversation == d;
    match command
    case SubscribeChannel(a, d, at) => SubscriptionIsOwn(s.communities[d], a, at);
    case UnsubscribeChannel(a, d) => SubscriptionIsOwn(s.communities[d], a, 0);
    case RequestCommunityJoin(a, r) => RequestIsOwn(s.communities[r.conversation], r);
  }

  /** Whatever an actor changes in a community, the actor manages it, or the change is the
      actor's own subscription or join request. */
  lemma ChangeNeedsStanding(s: State, command: Command, c: ConvId)
    requires AllSound(s) && HasActor(command) && c in s.communities
    ensures var after := Execute(s, command);
      c in after.communities &&
      (after.communities[c] == s.communities[c] || Manages(s, c, command.actor) ||
       OwnAffair(s.communities[c], after.communities[c], command.actor))
  {
    hide ApplyAll, AllSound, Decide, Manages, OwnAffair;
    if Decide(s, command).Some? {
      if Managing(command) { ManagersManage(s, command, c); } else { OthersMindTheirOwn(s, command, c); }
    }
  }

  lemma SettledMembers(k: Community, m: CommunityMember)
    ensures SettleMemberOf(k, m).conversation == k.conversation &&
      SettleMemberOf(k, m).members == k.members[m.actorId := m]
  {
  }

  lemma ApprovedMembers(k: Community, a: ActorId, approver: ActorId, at: int)
    ensures var r := ApproveJoinOf(k, a, approver, at);
      r.Some? ==>
        r.value.conversation == k.conversation && a in k.pending &&
        var b := k.pending[a].actorId;
        r.value.members == k.members[b := CommunityMember(b, Member, {}, at, None, Some(approver))]
  {
  }

  lemma SubscriptionIsOwn(k: Community, a: ActorId, at: int)
    ensures SubscribeOf(k, a, at).Some? ==> OwnAffair(k, SubscribeOf(k, a, at).value, a)
    ensures SubscribeOf(k, a, at).Some? ==> SubscribeOf(k, a, at).value.conversation == k.conversation
    ensures UnsubscribeOf(k, a).Some? ==> OwnAffair(k, UnsubscribeOf(k, a).value, a)
    ensures UnsubscribeOf(k, a).Some? ==> UnsubscribeOf(k, a).value.conversation == k.conversation
  {
    assert k.subscribers[a := Subscription(a, at)] - {a} == k.subscribers - {a};
    assert k.subscribers - {a} - {a} == k.subscribers - {a};
  }

  lemma RequestIsOwn(k: Community, r: JoinRequest)
    ensures OwnAffair(k, RequestJoinOf(k, r), r.actorId) && RequestJoinOf(k, r).conversation == k.conversation
  {
    assert k.pending[r.actorId := r] - {r.actorId} == k.pending - {r.actorId};
  }

  /** The right that changing a member to a new record takes. */
  function RightFor(before: Option<CommunityMember>, status: MemberStatus): Right
  {
    if Officer(before) || status == Owner || status == Administrator then AddAdmins
    else if status == Member then InviteMembers
    else BanMembers
  }

  /** What a changed member record says about the command: a moderation with the right to ban
      that spares officers, a member command with the right its old and new status take and
      with ownership in an Owner's hand, or an approval with the right to invite. */
  ghost predicate Justified(s: State, command: Command, c: ConvId, b: ActorId, after: Option<CommunityMember>)
  {
    after.Some? &&
    match command
    case ModerateCommunityMember(a, d, m) =>
      d == c && b == m.actorId && after.value == m && Stands(s, c, a, BanMembers) && a != b &&
      !Officer(MemberAt(s, c, b)) && !Officer(after)
    case SetCommunityMember(a, d, m) =>
      d == c && b == m.actorId && after.value == m && Stands(s, c, a, RightFor(MemberAt(s, c, b), m.status)) &&
      (IsOwner(s, c, b) || m.status == Owner ==> IsOwner(s, c, a))
    case RespondCommunityJoin(a, d, requester, approved, at) =>
      d == c && b == requester && approved && c in s.communities && b in s.communities[c].pending &&
      Stands(s, c, a, InviteMembers) && after.value.status == Member
    case _ => false
  }

  lemma ModerationIsJustified(s: State, a: ActorId, d: ConvId, m: CommunityMember, c: ConvId, b: ActorId)
    requires AllSound(s) && c in s.communities
    ensures var command := ModerateCommunityMember(a, d, m); var after := MemberAt(Execute(s, command), c, b);
      after == MemberAt(s, c, b) || Justified(s, command, c, b, after)
  {
    hide ApplyAll, ParticipantOf, SettleMemberOf;
    var command := ModerateCommunityMember(a, d, m);
    if Decide(s, command).Some? {
      CommandWrites(s, command);
      SettledMembers(s.communities[d], m);
    }
  }

  lemma MemberCommandIsJustified(s: State, a: ActorId, d: ConvId, m: CommunityMember, c: ConvId, b: ActorId)
    requires AllSound(s) && c in s.communities
    ensures var command := SetCommunityMember(a, d, m); var after := MemberAt(Execute(s, command), c, b);
      after == MemberAt(s, c, b) || Justified(s, command, c, b, after)
  {
    hide ApplyAll, ParticipantOf, SettleMemberOf;
    var command := SetCommunityMember(a, d, m);
    if Decide(s, command).Some? {
      CommandWrites(s, command);
      SettledMembers(s.communities[d], m);
    }
  }

  lemma ResponseIsJustified(
    s: State, a: ActorId, d: ConvId, requester: ActorId, approved: bool, at: int, c: ConvId, b: ActorId)
    requires AllSound(s) && c in s.communities
    ensures var command := RespondCommunityJoin(a, d, requester, approved, at);
      var after := MemberAt(Execute(s, command), c, b);
      after == MemberAt(s, c, b) || Justified(s, command, c, b, after)
  {
    hide ApplyAll, ParticipantOf, ApproveJoinOf;
    var command := RespondCommunityJoin(a, d, requester, approved, at);
    if Decide(s, command).Some? {
      CommandWrites(s, command);
      ApprovedMembers(s.communities[d], requester, a, at);
      PendingKeys(s, d);
    }
  }

  lemma OtherCommandsKeepMembers(s: State, command: Command, c: ConvId, b: ActorId)
    requires AllSound(s) && c in s.communities && HasActor(command)
    requires !command.ModerateCommunityMember? && !command.SetCommunityMember? && !command.RespondCommunityJoin?
    ensures MemberAt(Execute(s, command), c, b) == MemberAt(s, c, b)
  {
    hide ApplyAll, SeedMembers, SubscribeOf, UnsubscribeOf, RequestJoinOf;
    if Decide(s, command).Some? {
      CommandWrites(s, command);
      match command
      case SubscribeChannel(a, d, at) => OwnKeepsMembers(s.communities[d], a, at, JoinRequest(d, a, 0));
      case UnsubscribeChannel(a, d) => OwnKeepsMembers(s.communities[d], a, 0, JoinRequest(d, a, 0));
      case RequestCommunityJoin(a, r) => OwnKeepsMembers(s.communities[r.conversation], a, 0, r);
      case _ =>
    }
  }

  /** A member record changes only where the change is justified. */
  lemma MemberChangeNeedsRight(s: State, command: Command, c: ConvId, b: ActorId)
    requires AllSound(s) && HasActor(command) && c in s.communities
    requires MemberAt(Execute(s, command), c, b) != MemberAt(s, c, b)
    ensures Justified(s, command, c, b, MemberAt(Execute(s, command), c, b))
  {
    hide Execute, Justified, AllSound;
    match command
    case ModerateCommunityMember(a, d, m) => ModerationIsJustified(s, a, d, m, c, b);
    case SetCommunityMember(a, d, m) => MemberCommandIsJustified(s, a, d, m, c, b);
    case RespondCommunityJoin(a, d, requester, approved, at) =>
      ResponseIsJustified(s, a, d, requester, approved, at, c, b);
    case _ => OtherCommandsKeepMembers(s, command, c, b);
  }

  lemma PendingKeys(s: State, c: ConvId)
    requires AllSound(s) && c in s.communities
    ensures forall a :: a in s.communities[c].pending ==> s.communities[c].pending[a].actorId == a
  {
    assert Sound(c, s.communities[c]);
  }

  /** The actor's own affairs touch no member record. */
  lemma OwnKeepsMembers(k: Community, a: ActorId, at: int, r: JoinRequest)
    ensures var l := SubscribeOf(k, a, at);
      l.Some? ==> l.value.members == k.members && l.value.conversation == k.conversation
    ensures var l := UnsubscribeOf(k, a);
      l.Some? ==> l.value.members == k.members && l.value.conversation == k.conversation
    ensures var l := RequestJoinOf(k, r); l.members == k.members && l.conversation == k.conversation
  {
  }

  /** So an actor who is neither Owner nor Administrator changes no member record, its own
      included: whoever left or was banned cannot come back alone. */
  lemma OrdinaryActorsChangeNoMember(s: State, command: Command, c: ConvId, b: ActorId)
    requires AllSound(s) && HasActor(command) && c in s.communities && !Officer(MemberAt(s, c, command.actor))
    ensures MemberAt(Execute(s, command), c, b) == MemberAt(s, c, b)
  {
    if MemberAt(Execute(s, command), c, b) != MemberAt(s, c, b) { MemberChangeNeedsRight(s, command, c, b); }
  }

  // ------------------------------------------------------------------- ownership

  /** Owners come and go by the hand of an Owner, with one exception that is exact: an
      administrator who approves an Owner's own pending join request makes it a plain member. */
  lemma OwnershipIff(s: State, command: Command, c: ConvId, b: ActorId)
    requires AllSound(s) && HasActor(command) && c in s.communities && !IsOwner(s, c, command.actor)
    ensures !IsOwner(s, c, b) ==> !IsOwner(Execute(s, command), c, b)
    ensures IsOwner(s, c, b) && !IsOwner(Execute(s, command), c, b) <==>
      IsOwner(s, c, b) && command.RespondCommunityJoin? && command.conversation == c && command.requester == b &&
      command.approved && b in s.communities[c].pending && Stands(s, c, command.actor, InviteMembers)
  {
    var after := Execute(s, command);
    if MemberAt(after, c, b) != MemberAt(s, c, b) {
      MemberChangeNeedsRight(s, command, c, b);
    }
    if command.RespondCommunityJoin? && command.conversation == c && command.requester == b && command.approved &&
      b in s.communities[c].pending && Stands(s, c, command.actor, InviteMembers) {
      ApprovalDemotes(s, command.actor, c, b, command.at);
    }
  }

  lemma ApprovalDemotes(s: State, a: ActorId, c: ConvId, b: ActorId, at: int)
    requires AllSound(s) && c in s.communities && b in s.communities[c].pending && Stands(s, c, a, InviteMembers)
    ensures MemberAt(Execute(s, RespondCommunityJoin(a, c, b, true, at)), c, b) ==
      Some(CommunityMember(b, Member, {}, at, None, Some(a)))
  {
    hide ApplyAll, ParticipantOf;
    assert Sound(c, s.communities[c]);
    CommandWrites(s, RespondCommunityJoin(a, c, b, true, at));
  }

  // --------------------------------------------------------------------- founding

  /** A community comes into being only for a group or channel, by its owner or a participant
      in the owner's role, with nobody pending or subscribed. */
  lemma FoundingNeedsOwner(s: State, command: Command, c: ConvId)
    requires AllSound(s) && c !in s.communities && c in Execute(s, command).communities
    ensures command.UpdateCommunity? && c in s.conversations && GroupLike(s.conversations[c].kind)
    ensures var v := s.conversations[c];
      v.owner == Some(command.actor) ||
      exists i :: 0 <= i < |v.participants| &&
        v.participants[i].actorId == command.actor && v.participants[i].role == OwnerRole
    ensures var k := Execute(s, command).communities[c]; k.pending == map[] && k.subscribers == map[]
  {
    hide ParticipantOf, SeedMembers;
    if HasActor(command) && Decide(s, command).Some? {
      hide ApplyAll;
      CommandWrites(s, command);
    } else if Decide(s, command).Some? {
      QuietCommands(s, command);
    }
  }

  /** Commands without an actor write at most a community that exists. */
  lemma QuietCommands(s: State, command: Command)
    requires AllSound(s) && !HasActor(command)
    ensures Execute(s, command).communities.Keys == s.communities.Keys
  {
    hide ApplyAll, ValidId;
    var events := Decide(s, command);
    if events.Some? {
      if events.value[0].CommunityChanged? {
        assert events.value == [events.value[0]] + events.value[1..];
        WritesOne(s, events.value[0].community, events.value[1..]);
      } else {
        OthersStay(s, events.value);
      }
    }
  }

  // ------------------------------------------------------------------ acceptance

  /** The commands are accepted exactly on these conditions. */
  lemma MemberCommandIff(s: State, a: ActorId, c: ConvId, m: CommunityMember)
    ensures Decide(s, SetCommunityMember(a, c, m)).Some? <==>
      m.actorId in s.actors && c in s.communities && Stands(s, c, a, RightFor(MemberAt(s, c, m.actorId), m.status)) &&
      (IsOwner(s, c, m.actorId) || m.status == Owner ==> IsOwner(s, c, a))
    ensures Decide(s, ModerateCommunityMember(a, c, m)).Some? <==>
      m.actorId in s.actors && Stands(s, c, a, BanMembers) && a != m.actorId && !Officer(MemberAt(s, c, m.actorId)) &&
      !Officer(Some(m))
    ensures forall requester, at ::
      Decide(s, RespondCommunityJoin(a, c, requester, true, at)).Some? <==>
      Stands(s, c, a, InviteMembers) && requester in s.communities[c].pending
  {
  }

  predicate HasName(s: State, c: ConvId)
  {
    c in s.communities && s.communities[c].publicUsername.Some? && Trim(s.communities[c].publicUsername.value) != ""
  }

  predicate IsKind(s: State, c: ConvId, kind: Kind)
  {
    c in s.conversations && s.conversations[c].kind == kind
  }

  /** Subscribing takes a known actor, a channel with a community that is public or knows the
      actor already, and nobody who left or was banned; the actor then subscribes. */
  lemma SubscribeIff(s: State, a: ActorId, c: ConvId, at: int)
    requires AllSound(s)
    ensures Decide(s, SubscribeChannel(a, c, at)).Some? <==>
      a in s.actors && IsKind(s, c, Channel) && c in s.communities &&
      (HasName(s, c) || a in s.communities[c].subscribers || a in s.communities[c].members) &&
      !(a in s.communities[c].members && s.communities[c].members[a].status in {Left, Banned})
    ensures Decide(s, SubscribeChannel(a, c, at)).Some? ==>
      var k := CommunityAt(Execute(s, SubscribeChannel(a, c, at)), c); k.Some? && a in k.value.subscribers
  {
    hide Trim, ApplyAll;
    if Decide(s, SubscribeChannel(a, c, at)).Some? { CommandWrites(s, SubscribeChannel(a, c, at)); }
  }

  /** Unsubscribing takes a known actor and a channel with a community the actor does not own. */
  lemma UnsubscribeIff(s: State, a: ActorId, c: ConvId)
    requires AllSound(s)
    ensures Decide(s, UnsubscribeChannel(a, c)).Some? <==>
      a in s.actors && IsKind(s, c, Channel) && s.conversations[c].owner != Some(a) && c in s.communities &&
      !IsOwner(s, c, a)
    ensures Decide(s, UnsubscribeChannel(a, c)).Some? ==>
      var k := CommunityAt(Execute(s, UnsubscribeChannel(a, c)), c); k.Some? && a !in k.value.subscribers
  {
    hide ApplyAll;
    if Decide(s, UnsubscribeChannel(a, c)).Some? { CommandWrites(s, UnsubscribeChannel(a, c)); }
  }

  /** A join request is the actor's own, to a public group or channel that has not banned it. */
  lemma RequestIff(s: State, a: ActorId, r: JoinRequest)
    requires AllSound(s)
    ensures var c := r.conversation;
      Decide(s, RequestCommunityJoin(a, r)).Some? <==>
      r.actorId == a && a in s.actors && (IsKind(s, c, Group) || IsKind(s, c, Channel)) && HasName(s, c) &&
      !(a in s.communities[c].members && s.communities[c].members[a].status == Banned)
    ensures Decide(s, RequestCommunityJoin(a, r)).Some? ==>
      var k := CommunityAt(Execute(s, RequestCommunityJoin(a, r)), r.conversation);
      k.Some? && a in k.value.pending && k.value.pending[a] == r
  {
    hide Trim, ApplyAll;
    if Decide(s, RequestCommunityJoin(a, r)).Some? { CommandWrites(s, RequestCommunityJoin(a, r)); }
  }

  /** The description of a community is changed by those who may change it, and only that:
      members, requests, subscribers and slow mode stay. */
  lemma DescriptionIff(s: State, a: ActorId, k: Community)
    requires AllSound(s) && k.conversation in s.communities
    ensures var c := k.conversation;
      Decide(s, UpdateCommunity(a, k)).Some? <==>
        (IsKind(s, c, Group) || IsKind(s, c, Channel)) && Stands(s, c, a, ChangeInfo)
    ensures Decide(s, UpdateCommunity(a, k)).Some? ==>
      var c := k.conversation; var before := s.communities[c];
      CommunityAt(Execute(s, UpdateCommunity(a, k)), c) == Some(before.(publicUsername := k.publicUsername))
  {
    hide ApplyAll, SeedMembers;
    if Decide(s, UpdateCommunity(a, k)).Some? { CommandWrites(s, UpdateCommunity(a, k)); }
  }

  /** Slow mode is set by the same, to at most a day, and nothing else changes. */
  lemma SlowModeIff(s: State, a: ActorId, c: ConvId, seconds: Option<nat>)
    requires AllSound(s)
    ensures Decide(s, SetCommunitySlowMode(a, c, seconds)).Some? <==>
      (IsKind(s, c, Group) || IsKind(s, c, Channel)) && (seconds.Some? ==> seconds.value <= 86_400) &&
      Stands(s, c, a, ChangeInfo)
    ensures Decide(s, SetCommunitySlowMode(a, c, seconds)).Some? ==>
      CommunityAt(Execute(s, SetCommunitySlowMode(a, c, seconds)), c) == Some(s.communities[c].(slowMode := seconds))
  {
    hide ApplyAll;
    if Decide(s, SetCommunitySlowMode(a, c, seconds)).Some? { CommandWrites(s, SetCommunitySlowMode(a, c, seconds)); }
  }

  // ---------------------------------------------------------------- participants

  predicate Grouped(s: State, c: ConvId)
  {
    IsKind(s, c, Group) || IsKind(s, c, Channel)
  }

  function EntryOf(s: State, c: ConvId, a: ActorId): Option<Participant>
  {
    if c in s.conversations then Find(s.conversations[c].participants, a) else None
  }

  /** Setting a participant takes an existing conversation, a known actor, the owner's role for
      the owner, and a community if it is a group or channel; that actor then has this entry,
      and in a group or channel a member record with its status and joining time, and nobody
      else's entry or record changes. */
  lemma ParticipantIff(s: State, c: ConvId, p: Participant)
    requires AllSound(s)
    ensures Decide(s, SetConversationParticipant(c, p)).Some? <==>
      c in s.conversations && p.actorId in s.actors &&
      (s.conversations[c].owner == Some(p.actorId) ==> p.role == OwnerRole) &&
      (Grouped(s, c) ==> c in s.communities)
    ensures Decide(s, SetConversationParticipant(c, p)).Some? ==>
      var t := Execute(s, SetConversationParticipant(c, p));
      (forall b :: EntryOf(t, c, b) == if b == p.actorId then Some(p) else EntryOf(s, c, b)) &&
      (forall b :: b != p.actorId || !Grouped(s, c) ==> MemberAt(t, c, b) == MemberAt(s, c, b)) &&
      (Grouped(s, c) ==>
        var m := MemberAt(t, c, p.actorId);
        m.Some? && m.value.status == StatusOf(p.role) && m.value.joinedAt == p.joinedAt)
  {
    hide ApplyAll, Upsert, Remove;
    var events := Decide(s, SetConversationParticipant(c, p));
    if events.Some? {
      var ps := s.conversations[c].participants;
      forall b
        ensures Find(Upsert(ps, p), b) == if b == p.actorId then Some(p) else Find(ps, b)
      {
        FindUpsert(ps, p, b);
      }
      if Grouped(s, c) { ChangeIsWith(s, c, events.value[0].community, p, ""); } else { OnlyParticipants(s, c, p, ""); }
    }
  }

  /** Removing a participant takes an existing conversation the actor does not own, and a
      community if it is a group or channel; that actor then has no entry and, in a group or
      channel, neither an active record nor a subscription, and nobody else's entry or record
      changes. */
  lemma RemovalIff(s: State, c: ConvId, a: ActorId)
    requires AllSound(s)
    ensures Decide(s, RemoveConversationParticipant(c, a)).Some? <==>
      c in s.conversations && s.conversations[c].owner != Some(a) && (Grouped(s, c) ==> c in s.communities)
    ensures Decide(s, RemoveConversationParticipant(c, a)).Some? ==>
      var t := Execute(s, RemoveConversationParticipant(c, a));
      (forall b :: EntryOf(t, c, b) == if b == a then None else EntryOf(s, c, b)) &&
      (forall b :: b != a || !Grouped(s, c) ==> MemberAt(t, c, b) == MemberAt(s, c, b)) &&
      (Grouped(s, c) ==>
        var m, k := MemberAt(t, c, a), CommunityAt(t, c);
        (m.Some? <==> MemberAt(s, c, a).Some?) && (m.Some? ==> m.value.status == Left) && k.Some? &&
        a !in k.value.subscribers)
  {
    hide ApplyAll, Upsert, Remove;
    var events := Decide(s, RemoveConversationParticipant(c, a));
    var filler := Participant("", MemberRole, 0, None);
    if events.Some? {
      var ps := s.conversations[c].participants;
      forall b
        ensures Find(Remove(ps, a), b) == if b == a then None else Find(ps, b)
      {
        FindRemove(ps, a, b);
      }
      if Grouped(s, c) {
        ChangeIsWith(s, c, events.value[0].community, filler, a);
      } else {
        OnlyParticipants(s, c, filler, a);
      }
    }
  }

  // ------------------------------------------------------------ an owner demoted

  const CHAT: ConvId := "c"

  /** An owner with a pending join request, and an administrator who may invite. */
  function Demoting(): State
  {
    var owner := CommunityMember("o", Owner, ALL_RIGHTS, 0, None, None);
    var helper := CommunityMember("h", Administrator, {InviteMembers}, 0, None, None);
    var v := Conversation(CHAT, Group, "t", Some("o"), [OWNER_ENTRY, HELPER_ENTRY], "");
    State({"o", "h"}, map[CHAT := v],
          map[CHAT := Community(CHAT, Some("name"), None, map["o" := owner, "h" := helper],
                                map["o" := JoinRequest(CHAT, "o", 0)], map[])])
  }

  const OWNER_ENTRY: Participant := Participant("o", OwnerRole, 0, None)
  const HELPER_ENTRY: Participant := Participant("h", AdminRole, 0, None)

  /** Two actors, a group of theirs, its community with the helper's rights, and the owner's
      own join request. */
  function Setup(): seq<Command>
  {
    var rights := map["h" := CommunityMember("h", Administrator, {InviteMembers}, 0, None, None)];
    [UpsertActor("o", "o"), UpsertActor("h", "h"),
     UpsertConversation(Conversation(CHAT, Group, "t", Some("o"), [OWNER_ENTRY, HELPER_ENTRY], "")),
     UpdateCommunity("o", Community(CHAT, Some("name"), None, rights, map[], map[])),
     RequestCommunityJoin("o", JoinRequest(CHAT, "o", 0))]
  }

  lemma OneLetter(s: string)
    requires |s| == 1 && 'a' <= s[0] <= 'z'
    ensures Trim(s) == s && ValidId(s, 160) && ValidId(s, 200)
  {
    PlainTrims(s);
    assert s[1..] == "" && Utf8Len("") == 0;
    assert Utf8Len(s) == 1;
  }

  lemma SetupReaches()
    ensures Run(State({}, map[], map[]), Setup()) == Demoting()
  {
    var commands := Setup();
    OneLetter("o");
    OneLetter("h");
    OneLetter("c");
    OneLetter("t");
    PlainTrims("name");
    hide Trim, ValidId;
    var v := commands[2].upserted;
    var s0 := State({}, map[], map[]);
    var s1 := s0.(actors := {"o"});
    var s2 := s0.(actors := {"o", "h"});
    var s3 := s2.(conversations := map[CHAT := v]);
    var s4 := s3.(communities := map[CHAT := Demoting().communities[CHAT].(pending := map[])]);
    ExecuteOne(s0, commands[0], ActorUpserted("o"));
    ExecuteOne(s1, commands[1], ActorUpserted("h"));
    assert s1.actors + {"h"} == s2.actors;
    ExecuteOne(s2, commands[2], ConversationUpserted(v));
    FoundingStep(s3, commands[3]);
    RequestStep(s4, commands[4]);
    FiveSteps(s0, commands, s1, s2, s3, s4, Demoting());
  }

  lemma FoundingStep(s: State, command: Command)
    requires command == Setup()[3] && s == State({"o", "h"}, map[CHAT := Setup()[2].upserted], map[])
    ensures Execute(s, command) == s.(communities := map[CHAT := Demoting().communities[CHAT].(pending := map[])])
  {
    var k := command.community;
    var ps := [OWNER_ENTRY, HELPER_ENTRY];
    assert ps[..1] == [OWNER_ENTRY] && [OWNER_ENTRY][..0] == [];
    var seeded := SeedMembers(ps, k.members);
    assert SeedMembers([OWNER_ENTRY], k.members) == map["o" := SeedMember(OWNER_ENTRY, k.members)];
    assert seeded == Demoting().communities[CHAT].members;
    ExecuteOne(s, command, CommunityChanged(k.(members := seeded, pending := map[], subscribers := map[])));
  }

  lemma RequestStep(s: State, command: Command)
    requires command == Setup()[4] && Trim("name") != ""
    requires s == Demoting().(communities := map[CHAT := Demoting().communities[CHAT].(pending := map[])])
    ensures Execute(s, command) == Demoting()
  {
    hide Trim;
    ExecuteOne(s, command, CommunityChanged(Demoting().communities[CHAT]));
    assert s.communities[CHAT := Demoting().communities[CHAT]] == Demoting().communities;
  }

  lemma ExecuteOne(s: State, command: Command, e: Event)
    requires Decide(s, command) == Some([e])
    ensures Execute(s, command) == Apply(s, e)
  {
    hide Decide;
    assert [e][1..] == [];
    assert ApplyAll(Apply(s, e), []) == Apply(s, e);
  }

  lemma FiveSteps(s: State, c: seq<Command>, s1: State, s2: State, s3: State, s4: State, s5: State)
    requires |c| == 5 && Execute(s, c[0]) == s1 && Execute(s1, c[1]) == s2 && Execute(s2, c[2]) == s3
    requires Execute(s3, c[3]) == s4 && Execute(s4, c[4]) == s5
    ensures Run(s, c) == s5
  {
    hide Execute;
    assert c[1..][0] == c[1] && c[1..][1..] == c[2..] && c[2..][1..] == c[3..] && c[3..][1..] == c[4..] &&
      c[4..][1..] == [];
    assert Run(s5, []) == s5;
    assert Run(s4, c[4..]) == s5;
    assert Run(s3, c[3..]) == s5;
    assert Run(s2, c[2..]) == s5;
    assert Run(s1, c[1..]) == s5;
  }

  /** The exception happens in a state that a run from the empty one reaches: the
      administrator's approval demotes the owner. */
  lemma AdministratorDemotesOwner()
    ensures Run(State({}, map[], map[]), Setup()) == Demoting()
    ensures AllSound(Demoting()) && IsOwner(Demoting(), CHAT, "o") && !IsOwner(Demoting(), CHAT, "h")
    ensures !IsOwner(Execute(Demoting(), RespondCommunityJoin("h", CHAT, "o", true, 0)), CHAT, "o")
  {
    SetupReaches();
    hide Run;
    var s := Demoting();
    assert AllSound(s);
    ApprovalDemotes(s, "h", CHAT, "o", 0);
  }
}
