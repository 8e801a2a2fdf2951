/** When a client is owed a delta: exactly which positions the journal still reaches, and that
    a client within reach is never reset to a snapshot. */
module Reach {
  import opened Wrappers
  import opened Bytes
  import opened Journal
  import opened Sync

  /** The position is not pruned away, not ahead, and either current or followed by events. */
  ghost predicate InReach(s: Service, c: u64)
  {
    s.store.floorCursor <= c <= s.cursor && (c == s.cursor || Groups(s.store.journal, c) != {})
  }

  lemma {:induction false} NothingSelected(j: seq<Entry>, c: u64, room: nat)
    requires Ordered(j) && Groups(j, c) == {}
    ensures ScanFrom(j, c, room, None) == Scanned([], false, None)
  {
    if j != [] {
      GroupsStep(j, c);
      var a := At(j[0]);
      assert a <= c || a in Groups(j, c);
      NothingSelected(j[1..], c, room);
    }
  }

  /** A sync is answered by a delta if and only if the position is in reach. */
  lemma DeltaIff(s: Service, history: seq<Entry>, actor: ActorId, c: u64, limit: u32, now: int)
    requires ServiceInv(s, history)
    ensures SyncResponse(s, actor, Some(c), limit, now).Delta? <==> InReach(s, c)
    ensures SyncResponse(s, actor, None, limit, now) == SnapshotAt(s.cursor)
  {
    var j := s.store.journal;
    assert Ordered(j);
    hide ScanFrom, Groups, Addressed;
    var room := GroupLimit(limit);
    ScanSelects(j, c, room, None);
    if Groups(j, c) == {} { NothingSelected(j, c, room); } else { ScanSelectsSome(j, c, room); }
  }

  /** A client in reach moves on by one page; any other is reset to the current snapshot. */
  lemma SyncMovesClient(w: World, id: string, limit: u32, now: int)
    requires Inv(w) && id in w.clients && w.clients[id].Following?
    ensures var c := w.clients[id]; var after := Next(w, DoSync(id, limit, now));
      id in after.clients && after.service == w.service && after.clients[id].Following? &&
      if InReach(w.service, c.cursor) then
        after.clients[id].base == c.base && |after.clients[id].pages| == |c.pages| + 1 &&
        c.pages <= after.clients[id].pages
      else after.clients[id] == Following(c.actor, SnapshotServed(w.service.cursor, |w.history|), [], w.service.cursor)
  {
    hide InReach, SyncResponse, ServiceInv;
    InvService(w);
    var c := w.clients[id];
    DeltaIff(w.service, w.history, c.actor, c.cursor, limit, now);
    SyncIsComplete(w.service, w.history, c.actor, Some(c.cursor), limit, now);
  }

  /** In reach at each of its syncs, and not connecting anew. */
  ghost predicate StaysInReach(w: World, steps: seq<Step>, id: string)
    decreases |steps|
  {
    steps == [] ||
    (!(steps[0].Connect? && steps[0].id == id) &&
     (steps[0].DoSync? && steps[0].id == id && id in w.clients && w.clients[id].Following? ==>
        InReach(w.service, w.clients[id].cursor)) &&
     StaysInReach(Next(w, steps[0]), steps[1..], id))
  }

  lemma StepKeepsBase(w: World, step: Step, id: string)
    requires Inv(w) && id in w.clients && w.clients[id].Following? && !(step.Connect? && step.id == id)
    requires step.DoSync? && step.id == id ==> InReach(w.service, w.clients[id].cursor)
    ensures var c := w.clients[id]; var after := Next(w, step).clients;
      id in after && after[id].Following? && after[id].base == c.base && c.pages <= after[id].pages
  {
    hide InReach, Inv, SyncResponse, BatchOf, SettleOf, Stamp;
    if step.DoSync? && step.id == id { SyncMovesClient(w, id, step.limit, step.now); }
  }

  /** Over every run a client that stays in reach keeps its base and every page it has. */
  lemma {:induction false} InReachIsNeverReset(w: World, steps: seq<Step>, id: string)
    requires Inv(w) && ExactRun(w, steps) && id in w.clients && w.clients[id].Following? && StaysInReach(w, steps, id)
    ensures var c := w.clients[id]; var after := Run(w, steps).clients;
      id in after && after[id].Following? && after[id].base == c.base && c.pages <= after[id].pages
    decreases |steps|
  {
    hide InReach, Inv, Next, Exact;
    if steps != [] {
      StepKeepsInv(w, steps[0]);
      StepKeepsBase(w, steps[0], id);
      InReachIsNeverReset(Next(w, steps[0]), steps[1..], id);
    }
  }

  // ----------------------------------------------------------- journaling runs

  /** The newest journal entry, or else the floor, stands at the cursor. */
  ghost predicate Tipped(s: Service)
  {
    if s.store.journal == [] then s.store.floorCursor == s.cursor
    else At(s.store.journal[|s.store.journal| - 1]) == s.cursor
  }

  /** While the newest entry stands at the cursor, reach is decided by the floor alone. */
  lemma TippedReach(s: Service, c: u64)
    requires Tipped(s)
    ensures InReach(s, c) <==> s.store.floorCursor <= c <= s.cursor
  {
    var j := s.store.journal;
    if j != [] && c < s.cursor { assert At(j[|j| - 1]) in Groups(j, c); }
  }

  /** Every batch journals something and no settlement moves the cursor silently. */
  predicate Journaling(steps: seq<Step>)
  {
    forall i :: 0 <= i < |steps| ==> !steps[i].Settle? && (steps[i].Batch? ==> steps[i].drafts != [])
  }

  lemma BatchKeepsTip(s: Service, history: seq<Entry>, n: nat, drafts: seq<Draft>)
    requires ServiceInv(s, history) && drafts != []
    ensures Tipped(BatchOf(s, n, drafts))
  {
    hide ServiceInv;
    BatchShape(s, n, drafts);
    BatchKeepsServiceInv(s, history, n, drafts);
    var c := SaturatingAdd(s.cursor, n);
    var full := s.store.journal + Stamp(drafts, c);
    PrunedTip(full, s.store.floorCursor, c);
  }

  lemma PrunedTip(full: seq<Entry>, floor: u64, c: u64)
    requires full != [] && full[|full| - 1].cursor == Some(c)
    ensures var (kept, newFloor) := Pruned(full, floor);
      (kept != [] ==> At(kept[|kept| - 1]) == c) && (kept == [] ==> c <= newFloor)
  {
    if |full| > JOURNAL_LIMIT {
      var p := At(full[|full| - JOURNAL_LIMIT - 1]);
      LeadingBound(full, p);
    }
  }

  lemma {:induction false} LeadingBound(j: seq<Entry>, c: u64)
    ensures forall i :: 0 <= i < LeadingUpTo(j, c) ==> At(j[i]) <= c
  {
    if j != [] {
      LeadingBound(j[1..], c);
      assert forall i :: 0 < i < |j| ==> j[i] == j[1..][i - 1];
    }
  }

  lemma StepKeepsTip(w: World, step: Step)
    requires Inv(w) && Tipped(w.service) && !step.Settle? && (step.Batch? ==> step.drafts != [])
    ensures Tipped(Next(w, step).service)
  {
    hide ServiceInv, SyncResponse, BatchOf;
    InvService(w);
    match step
    case Batch(n, drafts) => BatchKeepsTip(w.service, w.history, n, drafts);
    case Reload => ReloadIsIdentity(w.service, w.history);
    case Connect(_, _, _) =>
    case DoSync(_, _, _) =>
  }

  lemma ReloadIsIdentity(s: Service, history: seq<Entry>)
    requires ServiceInv(s, history)
    ensures ReloadOf(s) == s
  {
  }

  /** The client's position is not behind the floor at any of its syncs. */
  ghost predicate StaysAboveFloor(w: World, steps: seq<Step>, id: string)
    decreases |steps|
  {
    steps == [] ||
    (!(steps[0].Connect? && steps[0].id == id) &&
     (steps[0].DoSync? && steps[0].id == id && id in w.clients && w.clients[id].Following? ==>
        w.service.store.floorCursor <= w.clients[id].cursor <= w.service.cursor) &&
     StaysAboveFloor(Next(w, steps[0]), steps[1..], id))
  }

  lemma {:induction false} AboveFloorIsInReach(w: World, steps: seq<Step>, id: string)
    requires Inv(w) && Tipped(w.service) && ExactRun(w, steps) && Journaling(steps) && StaysAboveFloor(w, steps, id)
    ensures StaysInReach(w, steps, id)
    decreases |steps|
  {
    hide Inv, Next, Exact, Tipped, InReach;
    if steps != [] {
      if steps[0].DoSync? && steps[0].id == id && id in w.clients && w.clients[id].Following? {
        TippedReach(w.service, w.clients[id].cursor);
      }
      StepKeepsInv(w, steps[0]);
      StepKeepsTip(w, steps[0]);
      AboveFloorIsInReach(Next(w, steps[0]), steps[1..], id);
    }
  }

  /** Over every run in which each batch journals, a client whose position is not pruned away
      is served by delta only: it keeps its base and every page it has. */
  lemma PresentClientsFollowByDelta(w: World, steps: seq<Step>, id: string)
    requires Inv(w) && Tipped(w.service) && ExactRun(w, steps) && Journaling(steps) && StaysAboveFloor(w, steps, id)
    requires id in w.clients && w.clients[id].Following?
    ensures var c := w.clients[id]; var after := Run(w, steps).clients;
      id in after && after[id].Following? && after[id].base == c.base && c.pages <= after[id].pages
  {
    AboveFloorIsInReach(w, steps, id);
    InReachIsNeverReset(w, steps, id);
  }

  lemma InitialIsTipped(w: World)
    requires Initial(w)
    ensures Tipped(w.service)
  {
  }

  // -------------------------------------------------------------------- pruning

  /** Pruning keeps as much as whole cursor groups allow: what is kept fits the limit and lies
      above the floor, and the last group that went would not have fitted. */
  lemma PruningIsMinimal(j: seq<Entry>, floor: u64)
    requires Ordered(j)
    ensures var (kept, newFloor) := Pruned(j, floor);
      |kept| <= JOURNAL_LIMIT && |kept| <= |j| && kept == j[|j| - |kept|..] &&
      (|j| <= JOURNAL_LIMIT ==> kept == j && newFloor == floor) &&
      (|j| > JOURNAL_LIMIT ==>
        (forall i :: 0 <= i < |j| ==> (i < |j| - |kept| <==> At(j[i]) <= newFloor)) &&
        exists i :: 0 <= i < |j| - JOURNAL_LIMIT && At(j[i]) == newFloor)
  {
    if |j| > JOURNAL_LIMIT {
      var m := |j| - JOURNAL_LIMIT - 1;
      var c := At(j[m]);
      LeadingSplits(j, c);
      var k := LeadingUpTo(j, c);
      assert m < k;
      assert |j[k..]| == |j| - k;
    }
  }

  // --------------------------------------------------------------- what is served

  /** A delta holds an entry exactly if it addresses the actor and is no typing event whose
      time is up. */
  lemma {:induction false} AddressedIff(entries: seq<Entry>, actor: ActorId, now: int, e: Entry)
    ensures e in Addressed(entries, actor, now) <==>
      e in entries && actor in e.audience && (e.typingExpiry.Some? ==> now < e.typingExpiry.value)
  {
    if entries != [] { AddressedIff(entries[1..], actor, now, e); }
  }

  /** A batch of n events moves the cursor by n, up to the ceiling, and stamps its entries
      with the cursor it reaches. */
  lemma BatchMoves(s: Service, n: nat, drafts: seq<Draft>, i: nat)
    requires i < |drafts|
    ensures BatchOf(s, n, drafts).cursor == if s.cursor + n < U64_END then s.cursor + n else U64_END - 1
    ensures At(Added(s, n, drafts)[i]) == BatchOf(s, n, drafts).cursor
    ensures Added(s, n, drafts)[i].audience == drafts[i].audience && Added(s, n, drafts)[i].payload == drafts[i].payload
  {
  }
}
