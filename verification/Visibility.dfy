/** Who sees a conversation: the test on one actor and the audience of an event. */
module Visibility {
  import opened Wrappers
  import opened Communities
  import opened Membership

  predicate Listed(ps: seq<Participant>, a: ActorId)
  {
    exists i :: 0 <= i < |ps| && ps[i].actorId == a
  }

  /** `actor_can_see_conversation`. */
  predicate CanSee(s: State, a: ActorId, v: Conversation)
  {
    if v.id in s.communities then
      var k := s.communities[v.id];
      v.owner == Some(a) || IsActive(k, a) || (v.kind == Channel && a in k.subscribers)
    else v.owner == Some(a) || Listed(v.participants, a)
  }

  /** What `extend_conversation_id_audience` adds, clause by clause. */
  ghost predicate Addressed(s: State, c: ConvId, a: ActorId)
  {
    c in s.conversations &&
    var v := s.conversations[c];
    if c in s.communities then
      var k := s.communities[c];
      (Listed(v.participants, a) &&
        (v.owner == Some(a) || IsActive(k, a) || (v.kind == Channel && a in k.subscribers))) ||
      (exists b :: b in k.members && !Gone(k.members[b].status) && k.members[b].actorId == a) ||
      (v.kind == Channel && a in k.subscribers) || v.owner == Some(a)
    else Listed(v.participants, a) || v.owner == Some(a)
  }

  method AddParticipants(audience: set<ActorId>, ps: seq<Participant>, keep: ActorId -> bool) returns (r: set<ActorId>)
    ensures forall a :: a in r <==> a in audience || (Listed(ps, a) && keep(a))
  {
    r := audience;
    for i := 0 to |ps|
      invariant forall a :: a in r <==> a in audience || (Listed(ps[..i], a) && keep(a))
    {
      if keep(ps[i].actorId) {
        r := r + {ps[i].actorId};
      }
      ListedSnoc(ps, i);
    }
    assert ps[..|ps|] == ps;
  }

  lemma ListedSnoc(ps: seq<Participant>, i: nat)
    requires i < |ps|
    ensures forall a :: Listed(ps[..i + 1], a) <==> Listed(ps[..i], a) || ps[i].actorId == a
  {
    forall a
      ensures Listed(ps[..i + 1], a) <==> Listed(ps[..i], a) || ps[i].actorId == a
    {
      if j :| 0 <= j < i && ps[..i][j].actorId == a { assert ps[..i + 1][j].actorId == a; }
      assert ps[..i + 1][i] == ps[i];
    }
  }

  method AddMembers(audience: set<ActorId>, k: Community) returns (r: set<ActorId>)
    ensures forall a :: a in r <==>
      a in audience || exists b :: b in k.members && !Gone(k.members[b].status) && k.members[b].actorId == a
  {
    r := audience;
    var pending := k.members.Keys;
    while pending != {}
      invariant pending <= k.members.Keys
      invariant forall a :: a in r <==>
        a in audience ||
        exists b :: b in k.members && b !in pending && !Gone(k.members[b].status) && k.members[b].actorId == a
      decreases pending
    {
      var b :| b in pending;
      if !Gone(k.members[b].status) {
        r := r + {k.members[b].actorId};
      }
      pending := pending - {b};
    }
  }

  /** `extend_conversation_id_audience`. */
  method ExtendAudience(s: State, audience: set<ActorId>, c: ConvId) returns (r: set<ActorId>)
    ensures forall a :: a in r <==> a in audience || Addressed(s, c, a)
  {
    r := audience;
    if c in s.conversations {
      var v := s.conversations[c];
      if c in s.communities {
        var k := s.communities[c];
        r := AddParticipants(r, v.participants,
          a => v.owner == Some(a) || IsActive(k, a) || (v.kind == Channel && a in k.subscribers));
        r := AddMembers(r, k);
        if v.kind == Channel {
          r := r + k.subscribers.Keys;
        }
      } else {
        r := AddParticipants(r, v.participants, a => true);
      }
      if v.owner.Some? {
        r := r + {v.owner.value};
      }
    }
  }

  /** In every sound state the two definitions agree, with or without a community. */
  lemma AudienceIsVisibility(s: State, c: ConvId, a: ActorId)
    requires AllSound(s) && c in s.conversations
    ensures Addressed(s, c, a) <==> CanSee(s, a, s.conversations[c])
  {
    if c in s.communities {
      assert Sound(c, s.communities[c]);
    }
  }

  /** Hence in every state a run reaches. */
  lemma VisibilityAgreesOverRuns(s: State, commands: seq<Command>, c: ConvId, a: ActorId)
    requires AllSound(s) && c in Run(s, commands).conversations
    ensures var t := Run(s, commands); Addressed(t, c, a) <==> CanSee(t, a, t.conversations[c])
  {
    hide Run, AllSound, Addressed, CanSee;
    RunsStaySound(s, commands);
    AudienceIsVisibility(Run(s, commands), c, a);
  }

  /** While participants agree with members, a group is seen by its owner and its
      participants, as if it had no community, and a channel by its subscribers as well. */
  lemma CommunityVisibilityIsParticipation(s: State, c: ConvId, a: ActorId)
    requires AllSound(s) && InStep(s) && c in s.communities
    ensures var v := s.conversations[c];
      CanSee(s, a, v) <==>
        v.owner == Some(a) || Find(v.participants, a).Some? || (v.kind == Channel && a in s.communities[c].subscribers)
  {
    assert AgreeAt(s.communities[c], s.conversations[c].participants, a);
  }
}
