/** Exactly which commands keep participants in agreement with members, now and in every
    continuation. */
module Agreement {
  import opened Wrappers
  import opened Text
  import opened Communities
  import opened Membership

  /** Participants and roles agree exactly with the active members of every community. */
  ghost predicate AllAgree(s: State)
  {
    forall c :: c in s.communities ==> c in s.conversations && Agrees(s.communities[c], s.conversations[c].participants)
  }

  /** Agreement in every continuation by harmless commands. */
  ghost predicate Robust(s: State)
  {
    forall more :: HarmlessRun(s, more) ==> AllAgree(Run(s, more))
  }

  lemma InStepIsRobust(s: State)
    requires InStep(s) && AllSound(s)
    ensures Robust(s)
  {
    hide InStep, AllSound, Run, HarmlessRun, AllAgree;
    forall more | HarmlessRun(s, more)
      ensures AllAgree(Run(s, more))
    {
      RunsInStepIff(s, more);
      AlwaysEndsInStep(s, more);
      InStepAgrees(Run(s, more));
    }
  }

  lemma InStepAgrees(s: State)
    requires InStep(s)
    ensures AllAgree(s)
  {
    hide Agrees;
  }

  lemma BrokenIsNotRobust(s: State, more: seq<Command>, c: ConvId)
    requires HarmlessRun(s, more) && c in Run(s, more).communities && c in Run(s, more).conversations
    requires !Agrees(Run(s, more).communities[c], Run(s, more).conversations[c].participants)
    ensures !Robust(s)
  {
    hide Run, Agrees, HarmlessRun;
    assert !AllAgree(Run(s, more));
  }

  // -------------------------------------------------- a community left behind

  /** A participant entry that the member of the same actor cannot match. */
  function Misfit(k: Community, a: ActorId): Participant
  {
    Participant(a, OwnerRole, if a in k.members then k.members[a].joinedAt + 1 else 0, None)
  }

  const Z: ActorId := "z"

  lemma NewcomerIsValid()
    ensures ValidId(Z, 160) && Trim(Z) != ""
  {
    assert Z[1..] == "" && Z[..0] == "";
    assert TrimStart(Z) == Z && TrimEnd(Z) == Z;
    assert Utf8Len(Z[1..]) == 0;
    assert Utf8Len(Z) == 1;
  }

  /** Once a conversation with a community is no group or channel, its participants change
      without their members. */
  lemma LeftBehind(s: State, c: ConvId)
    requires c in s.communities && c in s.conversations && !GroupLike(s.conversations[c].kind)
    ensures !Robust(s)
  {
    hide Robust, Trim, ValidId, Agrees;
    NewcomerIsValid();
    var k := s.communities[c];
    var p := Misfit(k, Z);
    var join, change := UpsertActor(Z, Z), SetConversationParticipant(c, p);
    var s1 := s.(actors := s.actors + {Z});
    JoinStep(s);
    ChangeStep(s1, c, p);
    var more := [join, change];
    TwoSteps(s, join, change);
    MisfitDisagrees(k, s.conversations[c].participants, Z);
    BrokenIsNotRobust(s, more, c);
  }

  lemma JoinStep(s: State)
    ensures Execute(s, UpsertActor(Z, Z)) == s.(actors := s.actors + {Z})
  {
    hide Trim, ValidId;
    NewcomerIsValid();
    assert [ActorUpserted(Z)][1..] == [];
    var t := Apply(s, ActorUpserted(Z));
    assert ApplyAll(t, []) == t;
  }

  lemma ChangeStep(s: State, c: ConvId, p: Participant)
    requires c in s.conversations && !GroupLike(s.conversations[c].kind) && p.actorId in s.actors && p.role == OwnerRole
    ensures var v := s.conversations[c];
      Execute(s, SetConversationParticipant(c, p)) ==
      s.(conversations := s.conversations[c := v.(participants := Upsert(v.participants, p))])
  {
    hide Upsert;
    OnlyParticipants(s, c, p, "");
  }

  lemma TwoSteps(s: State, a: Command, b: Command)
    requires !a.UpsertConversation? && !b.UpsertConversation?
    ensures Run(s, [a, b]) == Execute(Execute(s, a), b) && HarmlessRun(s, [a, b])
  {
    hide Execute;
    var t := Execute(s, a);
    assert [a, b][1..] == [b] && [b][1..] == [];
    assert Run(Execute(t, b), []) == Execute(t, b);
    assert Run(t, [b]) == Execute(t, b);
    assert HarmlessRun(Execute(t, b), []) && HarmlessRun(t, [b]);
  }

  lemma MisfitDisagrees(k: Community, ps: seq<Participant>, a: ActorId)
    ensures !Agrees(k, Upsert(ps, Misfit(k, a)))
  {
    FindUpsert(ps, Misfit(k, a), a);
    assert !AgreeAt(k, Upsert(ps, Misfit(k, a)), a);
  }

  // ---------------------------------------------------------- doubled participants

  /** A group or channel with a doubled participant and somebody to found its community gets
      one that disagrees. */
  lemma Doubled(s: State, c: ConvId)
    requires c !in s.communities && c in s.conversations && GroupLike(s.conversations[c].kind)
    requires HasFounder(s.conversations[c]) && !Distinct(s.conversations[c].participants)
    ensures !Robust(s)
  {
    hide Robust, SeedMembers, Agrees, Distinct;
    var v := s.conversations[c];
    var founder := Founder(v);
    var k := Community(c, None, None, map[], map[], map[]);
    var found := UpdateCommunity(founder, k);
    var next := k.(members := SeedMembers(v.participants, map[]));
    assert Decide(s, found) == Some([CommunityChanged(next)]);
    assert [CommunityChanged(next)][1..] == [];
    var t := Apply(s, CommunityChanged(next));
    assert ApplyAll(t, []) == t;
    assert Execute(s, found) == t;
    RunOne(s, found);
    assert HarmlessRun(s, [found]) by {
      assert [found][1..] == [];
      assert HarmlessRun(t, []);
    }
    DoubledDisagrees(next, v.participants);
    BrokenIsNotRobust(s, [found], c);
  }

  function Founder(v: Conversation): (a: ActorId)
    requires HasFounder(v)
    ensures v.owner == Some(a) ||
      exists i :: 0 <= i < |v.participants| && v.participants[i].actorId == a && v.participants[i].role == OwnerRole
  {
    if v.owner.Some? then v.owner.value else FirstOwner(v.participants)
  }

  function FirstOwner(ps: seq<Participant>): (a: ActorId)
    requires exists i :: 0 <= i < |ps| && ps[i].role == OwnerRole
    ensures exists i :: 0 <= i < |ps| && ps[i].actorId == a && ps[i].role == OwnerRole
  {
    if ps[0].role == OwnerRole then ps[0].actorId
    else
      assert forall i :: 0 < i < |ps| ==> ps[1..][i - 1] == ps[i];
      var a := FirstOwner(ps[1..]);
      assert forall i :: 0 <= i < |ps[1..]| ==> ps[1..][i] == ps[i + 1];
      a
  }

  lemma DoubledDisagrees(k: Community, ps: seq<Participant>)
    requires !Distinct(ps)
    ensures !Agrees(k, ps)
  {
  }

  // ------------------------------------------------------------------ exactness

  lemma BadUpsertIsNotRobust(s: State, v: Conversation)
    requires InStep(s) && AllSound(s) && !Harmless(s, UpsertConversation(v))
    ensures !Robust(Execute(s, UpsertConversation(v)))
  {
    hide Robust, Agrees, Distinct, ValidId, Trim;
    assert [ConversationUpserted(v)][1..] == [];
    var t := Apply(s, ConversationUpserted(v));
    assert ApplyAll(t, []) == t;
    assert Execute(s, UpsertConversation(v)) == t;
    if v.id in s.communities && !GroupLike(v.kind) {
      LeftBehind(t, v.id);
    } else {
      if v.id in s.communities { SameParticipants(s, v); }
      Doubled(t, v.id);
    }
  }

  /** An accepted upsert of a conversation with a community keeps its distinct participants. */
  lemma SameParticipants(s: State, v: Conversation)
    requires InStep(s) && DecideConversation(s, v).Some? && v.id in s.communities
    ensures Distinct(v.participants)
  {
    hide ValidId, Trim, AgreeAt;
    CommunityIsGroup(s, v.id);
    assert Agrees(s.communities[v.id], s.conversations[v.id].participants);
  }

  /** A command leaves participants and members in agreement for good if and only if it is
      harmless. */
  lemma HarmlessIff(s: State, command: Command)
    requires InStep(s) && AllSound(s)
    ensures Robust(Execute(s, command)) <==> Harmless(s, command)
  {
    hide InStep, AllSound, Robust, Execute, Run;
    if Harmless(s, command) {
      StepInStepIff(s, command);
      RunsStaySound(s, [command]);
      RunOne(s, command);
      InStepIsRobust(Execute(s, command));
    } else {
      BadUpsertIsNotRobust(s, command.upserted);
    }
  }

  /** Robust before and after every command of the run. */
  ghost predicate AlwaysRobust(s: State, commands: seq<Command>)
    decreases |commands|
  {
    Robust(s) && (commands == [] || AlwaysRobust(Execute(s, commands[0]), commands[1..]))
  }

  /** A run keeps participants and roles in exact agreement with the active members and their
      statuses, for good, if and only if every command of it is harmless. */
  lemma {:induction false} RunsAgreeIff(s: State, commands: seq<Command>)
    requires InStep(s) && AllSound(s)
    ensures AlwaysRobust(s, commands) <==> HarmlessRun(s, commands)
    ensures HarmlessRun(s, commands) ==> AllAgree(Run(s, commands))
    decreases |commands|
  {
    hide InStep, AllSound, Robust, Execute, Harmless, AllAgree;
    InStepIsRobust(s);
    if commands == [] {
      InStepAgrees(s);
    } else {
      var next := Execute(s, commands[0]);
      HarmlessIff(s, commands[0]);
      if Harmless(s, commands[0]) {
        StepInStepIff(s, commands[0]);
        RunsStaySound(s, [commands[0]]);
        RunOne(s, commands[0]);
        RunsAgreeIff(next, commands[1..]);
      } else {
        assert !AlwaysRobust(next, commands[1..]);
      }
    }
  }
}
