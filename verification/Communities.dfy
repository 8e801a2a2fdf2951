/** Community membership: members, subscribers, pending join requests and the participant
    list of the conversation, kept together by the engine's community commands. */
module Communities {
  import opened Wrappers
  import opened Text

  type ActorId = string
  type ConvId = string

  datatype MemberStatus = Owner | Administrator | Member | Restricted | Left | Banned

  datatype Role = OwnerRole | AdminRole | MemberRole | RestrictedRole

  datatype Right = ChangeInfo | PostMessages | EditMessages | DeleteMessages | BanMembers | InviteMembers
    | PinMessages | ManageTopics | ManageCalls | AddAdmins | RemainAnonymous

  const ALL_RIGHTS: set<Right> :=
    {ChangeInfo, PostMessages, EditMessages, DeleteMessages, BanMembers, InviteMembers,
     PinMessages, ManageTopics, ManageCalls, AddAdmins, RemainAnonymous}

  datatype CommunityMember = CommunityMember(
    actorId: ActorId, status: MemberStatus, rights: set<Right>, joinedAt: int, until: Option<int>,
    invitedBy: Option<ActorId>)

  datatype JoinRequest = JoinRequest(conversation: ConvId, actorId: ActorId, requestedAt: int)

  datatype Subscription = Subscription(actorId: ActorId, subscribedAt: int)

  datatype Community = Community(
    conversation: ConvId, publicUsername: Option<string>, slowMode: Option<nat>,
    members: map<ActorId, CommunityMember>, pending: map<ActorId, JoinRequest>, subscribers: map<ActorId, Subscription>)

  datatype Participant = Participant(actorId: ActorId, role: Role, joinedAt: int, mutedUntil: Option<int>)

  datatype Kind = Direct | Group | Channel | Secret | SavedMessages

  datatype Conversation = Conversation(
    id: ConvId, kind: Kind, title: string, owner: Option<ActorId>, participants: seq<Participant>, topics: string)

  datatype State = State(
    actors: set<ActorId>, conversations: map<ConvId, Conversation>, communities: map<ConvId, Community>)

  predicate Gone(status: MemberStatus)
  {
    status == Left || status == Banned
  }

  predicate HasStatus(k: Community, a: ActorId, status: MemberStatus)
  {
    a in k.members && k.members[a].status == status
  }

  predicate IsActive(k: Community, a: ActorId)
  {
    a in k.members && !Gone(k.members[a].status)
  }

  /** `require_community_admin`. */
  predicate MayAdminister(k: Community, a: ActorId, right: Right)
  {
    HasStatus(k, a, Owner) || (HasStatus(k, a, Administrator) && right in k.members[a].rights)
  }

  // -------------------------------------------------------- community operations

  function SubscribeOf(k: Community, a: ActorId, at: int): Option<Community>
  {
    if a in k.members && Gone(k.members[a].status) then None
    else if a in k.subscribers then Some(k)
    else Some(k.(subscribers := k.subscribers[a := Subscription(a, at)]))
  }

  function UnsubscribeOf(k: Community, a: ActorId): Option<Community>
  {
    if HasStatus(k, a, Owner) then None else Some(k.(subscribers := k.subscribers - {a}))
  }

  function UpsertMemberOf(k: Community, m: CommunityMember): Community
  {
    k.(pending := k.pending - {m.actorId}, members := k.members[m.actorId := m])
  }

  function RequestJoinOf(k: Community, r: JoinRequest): Community
  {
    k.(pending := k.pending[r.actorId := r])
  }

  function ApproveJoinOf(k: Community, a: ActorId, approver: ActorId, now: int): Option<Community>
  {
    if !MayAdminister(k, approver, InviteMembers) || a !in k.pending then None
    else
      Some(UpsertMemberOf(k.(pending := k.pending - {a}),
                          CommunityMember(k.pending[a].actorId, Member, {}, now, None, Some(approver))))
  }

  /** `upsert_member` followed by the removal of a departed member's subscription. */
  function SettleMemberOf(k: Community, m: CommunityMember): Community
  {
    var next := UpsertMemberOf(k, m);
    if Gone(m.status) then next.(subscribers := next.subscribers - {m.actorId}) else next
  }

  /** The mutable community; each method is the operation on its value. */
  class CommunityState {
    const conversation: ConvId
    var publicUsername: Option<string>
    var slowMode: Option<nat>
    var members: map<ActorId, CommunityMember>
    var pending: map<ActorId, JoinRequest>
    var subscribers: map<ActorId, Subscription>

    function Value(): Community
      reads this
    {
      Community(conversation, publicUsername, slowMode, members, pending, subscribers)
    }

    constructor (conversation: ConvId)
      ensures Value() == Community(conversation, None, None, map[], map[], map[])
    {
      this.conversation := conversation;
      publicUsername, slowMode, members, pending, subscribers := None, None, map[], map[], map[];
    }

    method SubscribeChannel(a: ActorId, at: int) returns (ok: bool)
      modifies this`subscribers
      ensures ok == SubscribeOf(old(Value()), a, at).Some?
      ensures Value() == if ok then SubscribeOf(old(Value()), a, at).value else old(Value())
    {
      if a in members && (members[a].status == Banned || members[a].status == Left) {
        return false;
      }
      if a !in subscribers {
        subscribers := subscribers[a := Subscription(a, at)];
      }
      return true;
    }

    method UnsubscribeChannel(a: ActorId) returns (ok: bool)
      modifies this`subscribers
      ensures ok == UnsubscribeOf(old(Value()), a).Some?
      ensures Value() == if ok then UnsubscribeOf(old(Value()), a).value else old(Value())
    {
      if a in members && members[a].status == Owner {
        return false;
      }
      subscribers := subscribers - {a};
      return true;
    }

    method UpsertMember(m: CommunityMember)
      modifies this`members, this`pending
      ensures Value() == UpsertMemberOf(old(Value()), m)
    {
      pending := pending - {m.actorId};
      members := members[m.actorId := m];
    }

    method RequestJoin(r: JoinRequest)
      modifies this`pending
      ensures Value() == RequestJoinOf(old(Value()), r)
    {
      pending := pending[r.actorId := r];
    }

    method ApproveJoin(a: ActorId, approver: ActorId, now: int) returns (ok: bool)
      modifies this`members, this`pending
      ensures ok == ApproveJoinOf(old(Value()), a, approver, now).Some?
      ensures Value() == if ok then ApproveJoinOf(old(Value()), a, approver, now).value else old(Value())
    {
      if !MayAdminister(Value(), approver, InviteMembers) {
        return false;
      }
      if a !in pending {
        return false;
      }
      var request := pending[a];
      pending := pending - {a};
      UpsertMember(CommunityMember(request.actorId, Member, {}, now, None, Some(approver)));
      return true;
    }
  }

  // ---------------------------------------------------------------- participants

  /** The participant entry of an actor: the first one in the list. */
  function Find(ps: seq<Participant>, a: ActorId): (r: Option<Participant>)
    ensures r.Some? ==> r.value.actorId == a
  {
    if ps == [] then None else if ps[0].actorId == a then Some(ps[0]) else Find(ps[1..], a)
  }

  function Upsert(ps: seq<Participant>, p: Participant): seq<Participant>
  {
    if ps == [] then [p] else if ps[0].actorId == p.actorId then [p] + ps[1..] else [ps[0]] + Upsert(ps[1..], p)
  }

  function Remove(ps: seq<Participant>, a: ActorId): seq<Participant>
  {
    if ps == [] then [] else if ps[0].actorId == a then Remove(ps[1..], a) else [ps[0]] + Remove(ps[1..], a)
  }

  /** One entry per actor. */
  predicate Distinct(ps: seq<Participant>)
  {
    ps == [] || (Find(ps[1..], ps[0].actorId).None? && Distinct(ps[1..]))
  }

  lemma {:induction false} FindUpsert(ps: seq<Participant>, p: Participant, a: ActorId)
    ensures Find(Upsert(ps, p), a) == if a == p.actorId then Some(p) else Find(ps, a)
  {
    if ps != [] {
      FindUpsert(ps[1..], p, a);
      if ps[0].actorId == p.actorId {
        assert Upsert(ps, p)[1..] == ps[1..];
      } else {
        assert Upsert(ps, p)[1..] == Upsert(ps[1..], p);
      }
    }
  }

  lemma {:induction false} FindRemove(ps: seq<Participant>, x: ActorId, a: ActorId)
    ensures Find(Remove(ps, x), a) == if a == x then None else Find(ps, a)
  {
    if ps != [] {
      FindRemove(ps[1..], x, a);
      if ps[0].actorId != x { assert Remove(ps, x)[1..] == Remove(ps[1..], x); }
    }
  }

  lemma {:induction false} DistinctUpsert(ps: seq<Participant>, p: Participant)
    requires Distinct(ps)
    ensures Distinct(Upsert(ps, p))
  {
    if ps != [] {
      if ps[0].actorId == p.actorId {
        assert Upsert(ps, p)[1..] == ps[1..];
      } else {
        assert Upsert(ps, p)[1..] == Upsert(ps[1..], p);
        DistinctUpsert(ps[1..], p);
        FindUpsert(ps[1..], p, ps[0].actorId);
      }
    }
  }

  lemma {:induction false} DistinctRemove(ps: seq<Participant>, x: ActorId)
    requires Distinct(ps)
    ensures Distinct(Remove(ps, x))
  {
    if ps != [] {
      DistinctRemove(ps[1..], x);
      FindRemove(ps[1..], x, ps[0].actorId);
      if ps[0].actorId != x { assert Remove(ps, x)[1..] == Remove(ps[1..], x); }
    }
  }

  function StatusOf(role: Role): MemberStatus
  {
    match role
    case OwnerRole => Owner
    case AdminRole => Administrator
    case MemberRole => Member
    case RestrictedRole => Restricted
  }

  /** `participant_for_community_member`. */
  function ParticipantOf(m: CommunityMember): Option<Participant>
  {
    match m.status
    case Owner => Some(Participant(m.actorId, OwnerRole, m.joinedAt, m.until))
    case Administrator => Some(Participant(m.actorId, AdminRole, m.joinedAt, m.until))
    case Member => Some(Participant(m.actorId, MemberRole, m.joinedAt, m.until))
    case Restricted => Some(Participant(m.actorId, RestrictedRole, m.joinedAt, m.until))
    case Left => None
    case Banned => None
  }

  /** The member a participant becomes when the community is first created. */
  function SeedMember(p: Participant, requested: map<ActorId, CommunityMember>): CommunityMember
  {
    var asked := p.actorId in requested;
    var rights :=
      if p.role == OwnerRole then ALL_RIGHTS
      else if p.role == MemberRole || !asked then {}
      else requested[p.actorId].rights;
    CommunityMember(p.actorId, StatusOf(p.role), rights, p.joinedAt,
                    if asked then requested[p.actorId].until else None,
                    if asked then requested[p.actorId].invitedBy else None)
  }

  /** Collecting into a map: a later entry replaces an earlier one. */
  function SeedMembers(ps: seq<Participant>, requested: map<ActorId, CommunityMember>): map<ActorId, CommunityMember>
  {
    if ps == [] then map[]
    else
      var p := ps[|ps| - 1];
      SeedMembers(ps[..|ps| - 1], requested)[p.actorId := SeedMember(p, requested)]
  }

  lemma {:induction false} DistinctPrefix(ps: seq<Participant>)
    requires ps != [] && Distinct(ps)
    ensures Distinct(ps[..|ps| - 1]) && Find(ps[..|ps| - 1], ps[|ps| - 1].actorId).None?
    ensures forall a :: Find(ps, a) == if a == ps[|ps| - 1].actorId then Some(ps[|ps| - 1]) else Find(ps[..|ps| - 1], a)
  {
    if |ps| > 1 {
      var rest, front := ps[1..], ps[..|ps| - 1];
      DistinctPrefix(rest);
      assert front[1..] == rest[..|rest| - 1];
      assert Find(rest, ps[0].actorId).None?;
    } else {
      assert ps[..0] == [];
    }
  }

  lemma {:induction false} SeedFinds(ps: seq<Participant>, requested: map<ActorId, CommunityMember>, a: ActorId)
    requires Distinct(ps)
    ensures a in SeedMembers(ps, requested) <==> Find(ps, a).Some?
    ensures a in SeedMembers(ps, requested) ==>
      SeedMembers(ps, requested)[a] == SeedMember(Find(ps, a).value, requested)
    decreases |ps|
  {
    if ps != [] {
      DistinctPrefix(ps);
      SeedFinds(ps[..|ps| - 1], requested, a);
    }
  }

  // ---------------------------------------------------------------- the commands

  datatype Command =
    | UpsertActor(actor: ActorId, displayName: string)
    | UpsertConversation(upserted: Conversation)
    | SetConversationParticipant(conversation: ConvId, participant: Participant)
    | RemoveConversationParticipant(conversation: ConvId, target: ActorId)
    | UpdateCommunity(actor: ActorId, community: Community)
    | SubscribeChannel(actor: ActorId, conversation: ConvId, at: int)
    | UnsubscribeChannel(actor: ActorId, conversation: ConvId)
    | SetCommunitySlowMode(actor: ActorId, conversation: ConvId, seconds: Option<nat>)
    | ModerateCommunityMember(actor: ActorId, conversation: ConvId, member: CommunityMember)
    | SetCommunityMember(actor: ActorId, conversation: ConvId, member: CommunityMember)
    | RequestCommunityJoin(actor: ActorId, request: JoinRequest)
    | RespondCommunityJoin(actor: ActorId, conversation: ConvId, requester: ActorId, approved: bool, at: int)

  datatype Event =
    | ActorUpserted(actor: ActorId)
    | ConversationUpserted(conversation: Conversation)
    | ParticipantUpserted(target: ConvId, participant: Participant)
    | ParticipantRemoved(target: ConvId, actor: ActorId)
    | CommunityChanged(community: Community)

  predicate GroupLike(kind: Kind)
  {
    kind == Group || kind == Channel
  }

  predicate ValidId(id: string, limit: nat)
  {
    Trim(id) != "" && Utf8Len(Trim(id)) <= limit
  }

  /** The participant event that follows a changed member of a group or channel. */
  function Follow(s: State, c: ConvId, m: CommunityMember): seq<Event>
  {
    if c !in s.conversations || !GroupLike(s.conversations[c].kind) then []
    else if ParticipantOf(m).Some? then [ParticipantUpserted(c, ParticipantOf(m).value)]
    else [ParticipantRemoved(c, m.actorId)]
  }

  function DecideConversation(s: State, v: Conversation): Option<seq<Event>>
  {
    if !ValidId(v.id, 200) || Trim(v.title) == "" then None
    else if v.id in s.conversations && GroupLike(s.conversations[v.id].kind) &&
      (v.owner != s.conversations[v.id].owner || v.participants != s.conversations[v.id].participants ||
       v.topics != s.conversations[v.id].topics) then None
    else if exists i | 0 <= i < |v.participants| :: v.participants[i].actorId !in s.actors then None
    else if v.kind == Secret && |v.participants| != 2 then None
    else Some([ConversationUpserted(v)])
  }

  function DecideParticipant(s: State, c: ConvId, p: Participant): Option<seq<Event>>
  {
    if c !in s.conversations || p.actorId !in s.actors then None
    else if s.conversations[c].owner == Some(p.actorId) && p.role != OwnerRole then None
    else if !GroupLike(s.conversations[c].kind) then Some([ParticipantUpserted(c, p)])
    else if c !in s.communities then None
    else
      var k := s.communities[c];
      var member :=
        if p.actorId in k.members then k.members[p.actorId]
        else CommunityMember(p.actorId, Member, {}, p.joinedAt, None, None);
      var changed := member.(status := StatusOf(p.role), joinedAt := p.joinedAt);
      Some([CommunityChanged(k.(members := k.members[p.actorId := changed])), ParticipantUpserted(c, p)])
  }

  function DecideRemoval(s: State, c: ConvId, a: ActorId): Option<seq<Event>>
  {
    if c !in s.conversations || s.conversations[c].owner == Some(a) then None
    else if !GroupLike(s.conversations[c].kind) then Some([ParticipantRemoved(c, a)])
    else if c !in s.communities then None
    else
      var k := s.communities[c];
      var members := if a in k.members then k.members[a := k.members[a].(status := Left)] else k.members;
      Some([CommunityChanged(k.(members := members, subscribers := k.subscribers - {a})), ParticipantRemoved(c, a)])
  }

  function DecideUpdate(s: State, a: ActorId, k: Community): Option<seq<Event>>
  {
    var c := k.conversation;
    if c !in s.conversations || !GroupLike(s.conversations[c].kind) then None
    else if c in s.communities then
      var existing := s.communities[c];
      if !MayAdminister(existing, a, ChangeInfo) then None
      else
        Some([CommunityChanged(k.(members := existing.members, pending := existing.pending,
                                  subscribers := existing.subscribers, slowMode := existing.slowMode))])
    else
      var v := s.conversations[c];
      var owns := exists i | 0 <= i < |v.participants| ::
        v.participants[i].actorId == a && v.participants[i].role == OwnerRole;
      if v.owner != Some(a) && !owns then None
      else
        Some([CommunityChanged(k.(members := SeedMembers(v.participants, k.members), pending := map[],
                                  subscribers := map[]))])
  }

  function DecideSubscribe(s: State, a: ActorId, c: ConvId, at: int): Option<seq<Event>>
  {
    if a !in s.actors || c !in s.conversations || s.conversations[c].kind != Channel || c !in s.communities then None
    else
      var k := s.communities[c];
      var public := k.publicUsername.Some? && Trim(k.publicUsername.value) != "";
      if !public && a !in k.subscribers && a !in k.members then None
      else if SubscribeOf(k, a, at).None? then None
      else Some([CommunityChanged(SubscribeOf(k, a, at).value)])
  }

  function DecideUnsubscribe(s: State, a: ActorId, c: ConvId): Option<seq<Event>>
  {
    if a !in s.actors || c !in s.conversations || s.conversations[c].kind != Channel then None
    else if s.conversations[c].owner == Some(a) || c !in s.communities then None
    else if UnsubscribeOf(s.communities[c], a).None? then None
    else Some([CommunityChanged(UnsubscribeOf(s.communities[c], a).value)])
  }

  function DecideSlowMode(s: State, a: ActorId, c: ConvId, seconds: Option<nat>): Option<seq<Event>>
  {
    if c !in s.conversations || !GroupLike(s.conversations[c].kind) then None
    else if seconds.Some? && seconds.value > 86_400 then None
    else if c !in s.communities || !MayAdminister(s.communities[c], a, ChangeInfo) then None
    else Some([CommunityChanged(s.communities[c].(slowMode := seconds))])
  }

  function DecideModerate(s: State, a: ActorId, c: ConvId, m: CommunityMember): Option<seq<Event>>
  {
    if m.actorId !in s.actors || c !in s.communities || !MayAdminister(s.communities[c], a, BanMembers) then None
    else
      var k := s.communities[c];
      if m.actorId == a || HasStatus(k, m.actorId, Owner) || HasStatus(k, m.actorId, Administrator) ||
        m.status == Owner || m.status == Administrator then None
      else Some([CommunityChanged(SettleMemberOf(k, m))] + Follow(s, c, m))
  }

  function DecideMember(s: State, a: ActorId, c: ConvId, m: CommunityMember): Option<seq<Event>>
  {
    if m.actorId !in s.actors || c !in s.communities then None
    else
      var k := s.communities[c];
      var targetOwner, targetAdmin := HasStatus(k, m.actorId, Owner), HasStatus(k, m.actorId, Administrator);
      var right :=
        if targetOwner || targetAdmin || m.status == Owner || m.status == Administrator then AddAdmins
        else if m.status == Member then InviteMembers else BanMembers;
      if (targetOwner || m.status == Owner) && !HasStatus(k, a, Owner) then None
      else if !MayAdminister(k, a, right) then None
      else Some([CommunityChanged(SettleMemberOf(k, m))] + Follow(s, c, m))
  }

  function DecideRequest(s: State, a: ActorId, r: JoinRequest): Option<seq<Event>>
  {
    var c := r.conversation;
    if r.actorId != a || a !in s.actors then None
    else if c !in s.conversations || !GroupLike(s.conversations[c].kind) || c !in s.communities then None
    else
      var k := s.communities[c];
      if HasStatus(k, a, Banned) || k.publicUsername.None? || Trim(k.publicUsername.value) == "" then None
      else Some([CommunityChanged(RequestJoinOf(k, r))])
  }

  function DecideRespond(
    s: State, a: ActorId, c: ConvId, requester: ActorId, approved: bool, at: int): Option<seq<Event>>
  {
    if c !in s.communities || !MayAdminister(s.communities[c], a, InviteMembers) then None
    else
      var k := s.communities[c];
      if !approved then
        if requester !in k.pending then None else Some([CommunityChanged(k.(pending := k.pending - {requester}))])
      else if ApproveJoinOf(k, requester, a, at).None? then None
      else
        var next := ApproveJoinOf(k, requester, a, at).value;
        Some([CommunityChanged(next)] +
             if c in s.conversations && GroupLike(s.conversations[c].kind) && requester in next.members &&
               ParticipantOf(next.members[requester]).Some?
             then [ParticipantUpserted(c, ParticipantOf(next.members[requester]).value)] else [])
  }

  function Decide(s: State, command: Command): Option<seq<Event>>
  {
    match command
    case UpsertActor(a, name) => if !ValidId(a, 160) || Trim(name) == "" then None else Some([ActorUpserted(a)])
    case UpsertConversation(v) => DecideConversation(s, v)
    case SetConversationParticipant(c, p) => DecideParticipant(s, c, p)
    case RemoveConversationParticipant(c, a) => DecideRemoval(s, c, a)
    case UpdateCommunity(a, k) => DecideUpdate(s, a, k)
    case SubscribeChannel(a, c, at) => DecideSubscribe(s, a, c, at)
    case UnsubscribeChannel(a, c) => DecideUnsubscribe(s, a, c)
    case SetCommunitySlowMode(a, c, seconds) => DecideSlowMode(s, a, c, seconds)
    case ModerateCommunityMember(a, c, m) => DecideModerate(s, a, c, m)
    case SetCommunityMember(a, c, m) => DecideMember(s, a, c, m)
    case RequestCommunityJoin(a, r) => DecideRequest(s, a, r)
    case RespondCommunityJoin(a, c, requester, approved, at) => DecideRespond(s, a, c, requester, approved, at)
  }

  function Apply(s: State, e: Event): State
  {
    match e
    case ActorUpserted(a) => s.(actors := s.actors + {a})
    case ConversationUpserted(v) => s.(conversations := s.conversations[v.id := v])
    case ParticipantUpserted(c, p) =>
      if c !in s.conversations then s
      else s.(conversations :=
        s.conversations[c := s.conversations[c].(participants := Upsert(s.conversations[c].participants, p))])
    case ParticipantRemoved(c, a) =>
      if c !in s.conversations then s
      else s.(conversations :=
        s.conversations[c := s.conversations[c].(participants := Remove(s.conversations[c].participants, a))])
    case CommunityChanged(k) => s.(communities := s.communities[k.conversation := k])
  }

  function ApplyAll(s: State, events: seq<Event>): State
    decreases |events|
  {
    if events == [] then s else ApplyAll(Apply(s, events[0]), events[1..])
  }

  /** A refused command leaves the state as it was. */
  function Execute(s: State, command: Command): State
  {
    var events := Decide(s, command);
    if events.None? then s else ApplyAll(s, events.value)
  }

  function Run(s: State, commands: seq<Command>): State
    decreases |commands|
  {
    if commands == [] then s else Run(Execute(s, commands[0]), commands[1..])
  }
}
