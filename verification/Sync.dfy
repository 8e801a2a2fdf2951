/** Durable sync: a server that versions its state by a cursor and journals events, and
    clients that move by snapshot or by delta. The main theorem is that no interleaving
    of server batches, pruning, restarts and client syncs loses an event. */
module Sync {
  import opened Wrappers
  import opened Bytes
  import opened Journal

  // ------------------------------------------------------------------ the service

  datatype Service = Service(cursor: u64, store: Store)

  /** An event before it is journaled: everything but its cursor. */
  datatype Draft = Draft(audience: seq<ActorId>, typingExpiry: Option<int>, payload: string)

  datatype Response = SnapshotAt(cursor: u64) | Delta(entries: seq<Entry>, checkpoint: u64) | SyncFailed

  /** All entries of one batch carry the cursor reached after the batch. */
  function Stamp(drafts: seq<Draft>, c: u64): (r: seq<Entry>)
    ensures |r| == |drafts|
    ensures forall i :: 0 <= i < |r| ==>
      r[i] == Entry(Some(c), drafts[i].audience, drafts[i].typingExpiry, drafts[i].payload)
  {
    seq(|drafts|, i requires 0 <= i < |drafts| =>
      Entry(Some(c), drafts[i].audience, drafts[i].typingExpiry, drafts[i].payload))
  }

  /** n engine events, of which the given ones are journaled. */
  function BatchOf(s: Service, n: nat, drafts: seq<Draft>): Service
  {
    var c := SaturatingAdd(s.cursor, n);
    Service(c, SaveWithEventsOf(s.store, Snapshot(SNAPSHOT_SCHEMA, c), Stamp(drafts, c)).0)
  }

  /** n engine events persisted without journal entries, as a wallet settlement does. */
  function SettleOf(s: Service, n: nat): Service
  {
    var c := SaturatingAdd(s.cursor, n);
    Service(c, SaveOf(s.store, Snapshot(SNAPSHOT_SCHEMA, c)).0)
  }

  /** Loading the service again from its store. */
  function ReloadOf(s: Service): Service
  {
    Service(if s.store.snapshot.Some? then s.store.snapshot.value.cursor else 0, s.store)
  }

  predicate Expired(e: Entry, now: int)
  {
    e.typingExpiry.Some? && e.typingExpiry.value <= now
  }

  /** The entries addressed to an actor, without typing events that have expired. */
  function Addressed(entries: seq<Entry>, actor: ActorId, now: int): seq<Entry>
  {
    if entries == [] then []
    else
      (if actor in entries[0].audience && !Expired(entries[0], now) then [entries[0]] else []) +
      Addressed(entries[1..], actor, now)
  }

  /** `sync_response`: a client without a usable position gets a snapshot, any other a
      page of the journal with a checkpoint. */
  function SyncResponse(s: Service, actor: ActorId, requested: Option<u64>, limit: u32, now: int): Response
  {
    if requested.None? || requested.value > s.cursor then SnapshotAt(s.cursor)
    else
      var current := if s.store.snapshot.Some? then s.store.snapshot.value.cursor else 0;
      match SliceOf(s.store.journal, s.store.floorCursor, current, requested.value, if limit < 1 then 1 else limit)
      case SliceFailed(_) => SyncFailed
      case Sliced(slice) =>
        if requested.value < slice.floorCursor || (slice.entries == [] && requested.value < slice.currentCursor)
        then SnapshotAt(s.cursor)
        else Delta(Addressed(slice.entries, actor, now), slice.checkpointCursor)
  }

  class MessagingService {
    const store: MemoryStateStore
    var cursor: u64

    function View(): Service
      reads this, store
    {
      Service(cursor, store.View())
    }

    /** `load`. */
    constructor (s: MemoryStateStore)
      ensures store == s && View() == ReloadOf(Service(0, s.View()))
    {
      store := s;
      cursor := if s.snapshot.Some? then s.snapshot.value.cursor else 0;
    }

    /** The tail of `handle`: count the events, stamp and persist the journal entries. */
    method PersistBatch(n: nat, drafts: seq<Draft>)
      modifies this, store
      ensures View() == BatchOf(old(View()), n, drafts)
    {
      cursor := SaturatingAdd(cursor, n);
      var r := store.SaveWithEvents(Snapshot(SNAPSHOT_SCHEMA, cursor), Stamp(drafts, cursor));
    }

    /** The tail of `credit_wallet_from_settlement`. */
    method PersistSettlement(n: nat)
      modifies this, store
      ensures View() == SettleOf(old(View()), n)
    {
      cursor := SaturatingAdd(cursor, n);
      var r := store.Save(Snapshot(SNAPSHOT_SCHEMA, cursor));
    }

    method Sync(actor: ActorId, requested: Option<u64>, limit: u32, now: int) returns (r: Response)
      ensures r == SyncResponse(View(), actor, requested, limit, now)
    {
      if requested.None? || requested.value > cursor {
        return SnapshotAt(cursor);
      }
      var loaded := store.LoadEventJournalAfter(requested.value, if limit < 1 then 1 else limit);
      if loaded.SliceFailed? {
        return SyncFailed;
      }
      var slice := loaded.slice;
      if requested.value < slice.floorCursor || (slice.entries == [] && requested.value < slice.currentCursor) {
        return SnapshotAt(cursor);
      }
      return Delta(Addressed(slice.entries, actor, now), slice.checkpointCursor);
    }
  }

  // ------------------------------------------------------------- clients and runs

  /** One delta as the client saw it: it moved the client from lo to hi. */
  datatype Page = Page(lo: u64, hi: u64, now: int, entries: seq<Entry>)

  /** Where a client's chain of deltas begins: a snapshot, served when the history held
      `seen` entries, or the client's own first claim. */
  datatype Base = SnapshotServed(cursor: u64, seen: nat) | StartedAt(cursor: u64)

  datatype Client =
    | Blank(actor: ActorId)
    | Following(actor: ActorId, base: Base, pages: seq<Page>, cursor: u64)

  function PositionOf(c: Client): Option<u64>
  {
    if c.Blank? then None else Some(c.cursor)
  }

  /** A client takes the answer given when the history held `seen` entries. */
  function Receive(c: Client, r: Response, now: int, seen: nat): Client
  {
    match r
    case SnapshotAt(k) => Following(c.actor, SnapshotServed(k, seen), [], k)
    case Delta(entries, checkpoint) =>
      if c.Blank? then c
      else Following(c.actor, c.base, c.pages + [Page(c.cursor, checkpoint, now, entries)], checkpoint)
    case SyncFailed => c
  }

  /** The service, everything it ever journaled, and the clients. */
  datatype World = World(service: Service, history: seq<Entry>, clients: map<string, Client>)

  datatype Step =
    | Batch(n: nat, drafts: seq<Draft>)
    | Settle(n: nat)
    | Reload
    | Connect(id: string, actor: ActorId, start: Option<u64>)
    | DoSync(id: string, limit: u32, now: int)

  function Next(w: World, step: Step): World
  {
    match step
    case Batch(n, drafts) =>
      World(BatchOf(w.service, n, drafts), w.history + Stamp(drafts, SaturatingAdd(w.service.cursor, n)), w.clients)
    case Settle(n) => w.(service := SettleOf(w.service, n))
    case Reload => w.(service := ReloadOf(w.service))
    case Connect(id, actor, start) =>
      var c := if start.None? then Blank(actor) else Following(actor, StartedAt(start.value), [], start.value);
      w.(clients := w.clients[id := c])
    case DoSync(id, limit, now) =>
      if id !in w.clients then w
      else
        var c := w.clients[id];
        w.(clients :=
          w.clients[id := Receive(c, SyncResponse(w.service, c.actor, PositionOf(c), limit, now), now, |w.history|)])
  }

  /** A journaling batch counts at least one event, and the cursor has not saturated before it. */
  predicate Exact(w: World, step: Step)
  {
    step.Batch? ==> step.drafts == [] || (1 <= step.n && w.service.cursor < U64_MAX)
  }

  function Run(w: World, steps: seq<Step>): World
    decreases |steps|
  {
    if steps == [] then w else Run(Next(w, steps[0]), steps[1..])
  }

  predicate ExactRun(w: World, steps: seq<Step>)
    decreases |steps|
  {
    steps == [] || (Exact(w, steps[0]) && ExactRun(Next(w, steps[0]), steps[1..]))
  }

  /** A fresh store, or one imported at some cursor with an empty journal. */
  predicate Initial(w: World)
  {
    var s := w.service;
    w.history == [] && w.clients == map[] && s.store.journal == [] && s.store.floorCursor == s.cursor &&
    s.store.snapshot == if s.cursor == 0 then None else Some(Snapshot(SNAPSHOT_SCHEMA, s.cursor))
  }

  // ------------------------------------------------------------------ invariants

  ghost predicate ServiceInv(s: Service, history: seq<Entry>)
  {
    var pruned := |history| - |s.store.journal|;
    Ordered(history) &&
    (forall i :: 0 <= i < |history| ==> At(history[i]) <= s.cursor) &&
    0 <= pruned && s.store.journal == history[pruned..] &&
    (forall i :: 0 <= i < pruned ==> At(history[i]) <= s.store.floorCursor) &&
    s.store.floorCursor <= s.cursor &&
    s.cursor == if s.store.snapshot.Some? then s.store.snapshot.value.cursor else 0
  }

  /** Pages are consecutive from the base to the client's cursor. */
  ghost predicate Chained(base: u64, pages: seq<Page>, cursor: u64)
  {
    if pages == [] then base == cursor
    else
      var p := pages[|pages| - 1];
      p.hi == cursor && p.lo <= p.hi && Chained(base, pages[..|pages| - 1], p.lo)
  }

  /** A page holds exactly what the history addresses to the actor in its interval. */
  ghost predicate Faithful(p: Page, history: seq<Entry>, actor: ActorId)
  {
    p.entries == Addressed(Window(history, p.lo, p.hi), actor, p.now)
  }

  /** A snapshot stands at a cursor of the service and covers exactly the entries up to it. */
  ghost predicate BaseInv(base: Base, s: Service, history: seq<Entry>)
  {
    base.SnapshotServed? ==>
      base.cursor <= s.cursor && base.seen <= |history| &&
      forall i :: 0 <= i < |history| ==> (At(history[i]) <= base.cursor <==> i < base.seen)
  }

  ghost predicate ClientInv(c: Client, s: Service, history: seq<Entry>)
  {
    c.Following? ==>
      BaseInv(c.base, s, history) && Chained(c.base.cursor, c.pages, c.cursor) &&
      forall k :: 0 <= k < |c.pages| ==> c.pages[k].hi <= s.cursor && Faithful(c.pages[k], history, c.actor)
  }

  ghost predicate Inv(w: World)
  {
    ServiceInv(w.service, w.history) && ClientsInv(w.clients, w.service, w.history)
  }

  ghost predicate ClientsInv(clients: map<string, Client>, s: Service, history: seq<Entry>)
  {
    forall id :: id in clients ==> ClientInv(clients[id], s, history)
  }

  lemma {:induction false} WindowConcat(a: seq<Entry>, b: seq<Entry>, lo: int, hi: int)
    ensures Window(a + b, lo, hi) == Window(a, lo, hi) + Window(b, lo, hi)
  {
    if a == [] {
      assert a + b == b;
    } else {
      WindowConcat(a[1..], b, lo, hi);
      assert (a + b)[1..] == a[1..] + b && (a + b)[0] == a[0];
      var head := if lo < At(a[0]) <= hi then [a[0]] else [];
      var x, y := Window(a[1..], lo, hi), Window(b, lo, hi);
      assert Window(a + b, lo, hi) == head + (x + y);
      assert head + (x + y) == (head + x) + y;
    }
  }

  /** Pruning only ever drops entries at or below the new floor. */
  lemma PrunedIsSuffix(all: seq<Entry>, journal: seq<Entry>, floor: u64)
    requires Ordered(all) && |journal| <= |all| && journal == all[|all| - |journal|..]
    requires forall i :: 0 <= i < |all| - |journal| ==> At(all[i]) <= floor
    ensures var (kept, newFloor) := Pruned(journal, floor);
      |kept| <= |all| && kept == all[|all| - |kept|..] &&
      (forall i :: 0 <= i < |all| - |kept| ==> At(all[i]) <= newFloor) &&
      (newFloor == floor || exists i :: 0 <= i < |all| && At(all[i]) == newFloor)
  {
    if |journal| > JOURNAL_LIMIT {
      var p := |all| - |journal|;
      var m := |journal| - JOURNAL_LIMIT - 1;
      var c := At(journal[m]);
      assert Ordered(journal);
      assert all[p + m] == journal[m];
      LeadingSplits(journal, c);
      var k := LeadingUpTo(journal, c);
      forall i | 0 <= i < p + k
        ensures At(all[i]) <= c
      {
        if i < p { assert At(all[i]) <= At(all[p + m]); } else { assert all[i] == journal[i - p]; }
      }
    }
  }

  lemma AppendKeepsServiceInv(s: Service, history: seq<Entry>, added: seq<Entry>, c: u64, t: Service)
    requires ServiceInv(s, history) && s.cursor <= c
    requires forall i :: 0 <= i < |added| ==> added[i].cursor == Some(c)
    requires var (kept, floor) := Pruned(s.store.journal + added, s.store.floorCursor);
      t == Service(c, Store(Some(Snapshot(SNAPSHOT_SCHEMA, c)), kept, floor))
    ensures ServiceInv(t, history + added)
  {
    var all := history + added;
    var full := s.store.journal + added;
    OrderedAppend(history, added, c);
    SuffixAppend(history, s.store.journal, added, s.store.floorCursor);
    PrunedIsSuffix(all, full, s.store.floorCursor);
    AssembleInv(t, s.store.floorCursor, all, full, c);
  }

  /** What a batch journals. */
  function Added(s: Service, n: nat, drafts: seq<Draft>): seq<Entry>
  {
    Stamp(drafts, SaturatingAdd(s.cursor, n))
  }

  /** The service stays consistent under every batch, saturating ones included. */
  lemma BatchKeepsServiceInv(s: Service, history: seq<Entry>, n: nat, drafts: seq<Draft>)
    requires ServiceInv(s, history)
    ensures ServiceInv(BatchOf(s, n, drafts), history + Added(s, n, drafts))
  {
    BatchShape(s, n, drafts);
    AppendKeepsServiceInv(s, history, Added(s, n, drafts), SaturatingAdd(s.cursor, n), BatchOf(s, n, drafts));
  }

  lemma BatchShape(s: Service, n: nat, drafts: seq<Draft>)
    ensures var c := SaturatingAdd(s.cursor, n);
      var (kept, floor) := Pruned(s.store.journal + Stamp(drafts, c), s.store.floorCursor);
      BatchOf(s, n, drafts) == Service(c, Store(Some(Snapshot(SNAPSHOT_SCHEMA, c)), kept, floor))
  {
  }

  lemma SuffixAppend(history: seq<Entry>, journal: seq<Entry>, added: seq<Entry>, floor: u64)
    requires |journal| <= |history| && journal == history[|history| - |journal|..]
    requires forall i :: 0 <= i < |history| - |journal| ==> At(history[i]) <= floor
    ensures var all, full := history + added, journal + added;
      full == all[|all| - |full|..] && forall i :: 0 <= i < |all| - |full| ==> At(all[i]) <= floor
  {
  }

  lemma AssembleInv(t: Service, floor: u64, all: seq<Entry>, full: seq<Entry>, c: u64)
    requires Ordered(all) && (forall i :: 0 <= i < |all| ==> At(all[i]) <= c) && floor <= c
    requires var (kept, newFloor) := Pruned(full, floor);
      t == Service(c, Store(Some(Snapshot(SNAPSHOT_SCHEMA, c)), kept, newFloor)) &&
      |kept| <= |all| && kept == all[|all| - |kept|..] &&
      (forall i :: 0 <= i < |all| - |kept| ==> At(all[i]) <= newFloor) &&
      (newFloor == floor || exists i :: 0 <= i < |all| && At(all[i]) == newFloor)
    ensures ServiceInv(t, all)
  {
  }

  lemma OrderedAppend(history: seq<Entry>, added: seq<Entry>, c: u64)
    requires Ordered(history) && forall i :: 0 <= i < |history| ==> At(history[i]) <= c
    requires forall i :: 0 <= i < |added| ==> added[i].cursor == Some(c)
    ensures Ordered(history + added)
    ensures forall i :: 0 <= i < |history + added| ==> At((history + added)[i]) <= c
  {
  }

  /** A later batch does not disturb what a client already holds. */
  lemma PagesSurviveBatch(c: Client, s: Service, history: seq<Entry>, n: nat, drafts: seq<Draft>)
    requires ClientInv(c, s, history) && (drafts == [] || (1 <= n && s.cursor < U64_MAX))
    ensures ClientInv(c, BatchOf(s, n, drafts), history + Added(s, n, drafts))
  {
    var added := Added(s, n, drafts);
    if c.Following? {
      forall k | 0 <= k < |c.pages|
        ensures Faithful(c.pages[k], history + added, c.actor)
      {
        var p := c.pages[k];
        WindowConcat(history, added, p.lo, p.hi);
        WindowEmpty(added, p.lo, p.hi);
        assert Window(history, p.lo, p.hi) + [] == Window(history, p.lo, p.hi);
      }
    }
  }

  /** What a sync answers on a consistent store: a snapshot at the current cursor, or
      exactly the addressed events between the client's cursor and the checkpoint. */
  lemma SyncIsComplete(s: Service, history: seq<Entry>, actor: ActorId, requested: Option<u64>, limit: u32, now: int)
    requires ServiceInv(s, history)
    ensures var r := SyncResponse(s, actor, requested, limit, now);
      !r.SyncFailed? && (r.SnapshotAt? ==> r.cursor == s.cursor) &&
      (r.Delta? ==> requested.Some? && requested.value <= r.checkpoint && r.checkpoint <= s.cursor) &&
      (r.Delta? ==> r.entries == Addressed(Window(history, requested.value, r.checkpoint), actor, now))
  {
    hide ScanFrom, Window, Addressed;
    if requested.Some? && requested.value <= s.cursor {
      var j := s.store.journal;
      var pruned := |history| - |j|;
      var lo := requested.value;
      var room := if limit < 1 then 1 else limit;
      assert Ordered(j);
      ScanSelects(j, lo, room, None);
      var scan := ScanFrom(j, lo, room, None);
      if s.store.floorCursor <= lo {
        var hi := if scan.hasMore then scan.last.value else s.cursor;
        assert history == history[..pruned] + j;
        WindowConcat(history[..pruned], j, lo, hi);
        WindowEmpty(history[..pruned], lo, hi);
        assert [] + Window(j, lo, hi) == Window(j, lo, hi);
        if !scan.hasMore { WindowClip(j, lo, s.cursor); } else { BoundaryInside(j, lo, room, s.cursor); }
      }
    }
  }

  lemma {:induction false} WindowClip(j: seq<Entry>, lo: int, top: u64)
    requires forall i :: 0 <= i < |j| ==> At(j[i]) <= top
    ensures Window(j, lo, top) == Window(j, lo, U64_MAX)
  {
    if j != [] { WindowClip(j[1..], lo, top); }
  }

  /** A page boundary is the cursor of some journal entry. */
  lemma {:induction false} ScanLastIsReal(j: seq<Entry>, requested: u64, room: nat, last: Option<u64>, top: u64)
    requires forall i :: 0 <= i < |j| ==> At(j[i]) <= top
    requires last.Some? ==> last.value <= top
    ensures var r := ScanFrom(j, requested, room, last); r.Scanned? && r.last.Some? ==> r.last.value <= top
  {
    if j != [] && j[0].cursor.Some? {
      ScanLastIsReal(j[1..], requested, room, last, top);
      if room > 0 { ScanLastIsReal(j[1..], requested, room - 1, Some(At(j[0])), top); }
    }
  }

  lemma BoundaryInside(j: seq<Entry>, requested: u64, room: nat, top: u64)
    requires forall i :: 0 <= i < |j| ==> At(j[i]) <= top
    ensures var r := ScanFrom(j, requested, room, None); r.Scanned? && r.last.Some? ==> r.last.value <= top
  {
    ScanLastIsReal(j, requested, room, None, top);
  }

  lemma ReceiveKeepsClientInv(c: Client, s: Service, history: seq<Entry>, r: Response, now: int)
    requires ServiceInv(s, history) && ClientInv(c, s, history)
    requires r.SnapshotAt? ==> r.cursor == s.cursor
    requires r.Delta? ==> c.Following? && c.cursor <= r.checkpoint && r.checkpoint <= s.cursor
    requires r.Delta? ==> r.entries == Addressed(Window(history, c.cursor, r.checkpoint), c.actor, now)
    ensures ClientInv(Receive(c, r, now, |history|), s, history)
  {
    hide Window, Addressed;
    if r.Delta? {
      var after := Receive(c, r, now, |history|);
      assert after.pages[..|after.pages| - 1] == c.pages;
    }
  }

  lemma SyncKeepsClientInv(c: Client, s: Service, history: seq<Entry>, limit: u32, now: int)
    requires ServiceInv(s, history) && ClientInv(c, s, history)
    ensures ClientInv(Receive(c, SyncResponse(s, c.actor, PositionOf(c), limit, now), now, |history|), s, history)
  {
    hide SyncResponse, ServiceInv, ClientInv;
    SyncIsComplete(s, history, c.actor, PositionOf(c), limit, now);
    ReceiveKeepsClientInv(c, s, history, SyncResponse(s, c.actor, PositionOf(c), limit, now), now);
  }

  lemma SettleKeepsServiceInv(s: Service, history: seq<Entry>, n: nat)
    requires ServiceInv(s, history)
    ensures ServiceInv(SettleOf(s, n), history)
  {
  }

  lemma ClientsSurviveBatch(clients: map<string, Client>, s: Service, history: seq<Entry>, n: nat, drafts: seq<Draft>)
    requires ClientsInv(clients, s, history) && (drafts == [] || (1 <= n && s.cursor < U64_MAX))
    ensures ClientsInv(clients, BatchOf(s, n, drafts), history + Added(s, n, drafts))
  {
    hide ClientInv, BatchOf, Added;
    forall id | id in clients
      ensures ClientInv(clients[id], BatchOf(s, n, drafts), history + Added(s, n, drafts))
    {
      PagesSurviveBatch(clients[id], s, history, n, drafts);
    }
  }

  lemma BatchKeepsInv(w: World, n: nat, drafts: seq<Draft>)
    requires Inv(w) && Exact(w, Batch(n, drafts))
    ensures Inv(Next(w, Batch(n, drafts)))
  {
    hide ServiceInv, ClientsInv, BatchOf, Stamp;
    BatchKeepsServiceInv(w.service, w.history, n, drafts);
    ClientsSurviveBatch(w.clients, w.service, w.history, n, drafts);
  }

  /** A client that was just served a snapshot. */
  const UP_TO_DATE: string := "up to date"

  function UpToDate(s: Service, history: seq<Entry>): map<string, Client>
  {
    map[UP_TO_DATE := Following(UP_TO_DATE, SnapshotServed(s.cursor, |history|), [], s.cursor)]
  }

  /** The condition on batches is exact: a batch keeps the invariant whatever clients there
      are, if and only if it journals nothing or moves the cursor. */
  lemma BatchKeepsInvIff(s: Service, history: seq<Entry>, n: nat, drafts: seq<Draft>)
    requires ServiceInv(s, history)
    ensures (forall clients :: ClientsInv(clients, s, history) ==>
      Inv(Next(World(s, history, clients), Batch(n, drafts)))) <==>
      drafts == [] || (1 <= n && s.cursor < U64_MAX)
  {
    if drafts == [] || (1 <= n && s.cursor < U64_MAX) {
      forall clients | ClientsInv(clients, s, history)
        ensures Inv(Next(World(s, history, clients), Batch(n, drafts)))
      {
        BatchKeepsInv(World(s, history, clients), n, drafts);
      }
    } else {
      var clients := UpToDate(s, history);
      assert ClientsInv(clients, s, history);
      var after := Next(World(s, history, clients), Batch(n, drafts));
      var m := |history|;
      assert after.history[m] == Stamp(drafts, SaturatingAdd(s.cursor, n))[0];
      assert At(after.history[m]) <= s.cursor;
      assert !BaseInv(clients[UP_TO_DATE].base, after.service, after.history);
      assert !ClientInv(after.clients[UP_TO_DATE], after.service, after.history);
    }
  }

  lemma SyncKeepsInv(w: World, id: string, limit: u32, now: int)
    requires Inv(w)
    ensures Inv(Next(w, DoSync(id, limit, now)))
  {
    if id in w.clients { SyncKeepsClientInv(w.clients[id], w.service, w.history, limit, now); }
  }

  lemma SettleKeepsInv(w: World, n: nat)
    requires Inv(w)
    ensures Inv(Next(w, Settle(n)))
  {
    SettleKeepsServiceInv(w.service, w.history, n);
    forall id | id in w.clients
      ensures ClientInv(w.clients[id], SettleOf(w.service, n), w.history)
    {
      assert ClientInv(w.clients[id], w.service, w.history);
    }
  }

  lemma StepKeepsInv(w: World, step: Step)
    requires Inv(w) && Exact(w, step)
    ensures Inv(Next(w, step))
  {
    match step
    case Batch(n, drafts) => BatchKeepsInv(w, n, drafts);
    case Settle(n) => SettleKeepsInv(w, n);
    case Reload => assert ReloadOf(w.service) == w.service;
    case Connect(id, actor, start) =>
    case DoSync(id, limit, now) => SyncKeepsInv(w, id, limit, now);
  }

  lemma {:induction false} RunKeepsInv(w: World, steps: seq<Step>)
    requires Inv(w) && ExactRun(w, steps)
    ensures Inv(Run(w, steps))
    decreases |steps|
  {
    if steps != [] {
      StepKeepsInv(w, steps[0]);
      RunKeepsInv(Next(w, steps[0]), steps[1..]);
    }
  }

  // ------------------------------------------------------------- no event is lost

  /** Everything the client received by delta since its base, in order. */
  function Received(pages: seq<Page>): seq<Entry>
  {
    if pages == [] then [] else Received(pages[..|pages| - 1]) + pages[|pages| - 1].entries
  }

  predicate Covers(p: Page, e: Entry)
  {
    p.lo < At(e) <= p.hi
  }

  /** The event was not an expired typing event when its page was served. */
  predicate Live(e: Entry, pages: seq<Page>)
  {
    exists k :: 0 <= k < |pages| && Covers(pages[k], e) && !Expired(e, pages[k].now)
  }

  /** The part of the history that is addressed to the actor and live on its page. */
  function Owed(history: seq<Entry>, actor: ActorId, pages: seq<Page>): seq<Entry>
  {
    if history == [] then []
    else
      (if actor in history[0].audience && Live(history[0], pages) then [history[0]] else []) +
      Owed(history[1..], actor, pages)
  }

  lemma {:induction false} ChainBounds(base: u64, pages: seq<Page>, cursor: u64)
    requires Chained(base, pages, cursor)
    ensures base <= cursor
    ensures forall k :: 0 <= k < |pages| ==> base <= pages[k].lo <= pages[k].hi <= cursor
  {
    if pages != [] {
      var m := |pages| - 1;
      ChainBounds(base, pages[..m], pages[m].lo);
      forall k | 0 <= k < |pages|
        ensures base <= pages[k].lo <= pages[k].hi <= cursor
      {
        if k < m { assert pages[..m][k] == pages[k]; }
      }
    }
  }

  /** The pages tile the interval from base to cursor: each cursor lies in exactly one. */
  lemma {:induction false} ChainTiles(base: u64, pages: seq<Page>, cursor: u64, e: Entry)
    requires Chained(base, pages, cursor)
    ensures base < At(e) <= cursor <==> exists k :: 0 <= k < |pages| && Covers(pages[k], e)
    ensures forall i, k :: 0 <= i < |pages| && 0 <= k < |pages| && Covers(pages[i], e) && Covers(pages[k], e) ==> i == k
  {
    ChainBounds(base, pages, cursor);
    if pages != [] {
      var m := |pages| - 1;
      var front := pages[..m];
      ChainTiles(base, front, pages[m].lo, e);
      ChainBounds(base, front, pages[m].lo);
      assert forall k :: 0 <= k < m ==> front[k] == pages[k];
      if base < At(e) <= cursor {
        if At(e) <= pages[m].lo {
          var k :| 0 <= k < |front| && Covers(front[k], e);
          assert Covers(pages[k], e);
        } else {
          assert Covers(pages[m], e);
        }
      }
    }
  }

  lemma LiveOnLastPage(base: u64, pages: seq<Page>, cursor: u64, e: Entry)
    requires Chained(base, pages, cursor) && pages != []
    ensures var m := |pages| - 1;
      Live(e, pages) ==
      if At(e) <= pages[m].lo then Live(e, pages[..m]) else Covers(pages[m], e) && !Expired(e, pages[m].now)
  {
    var m := |pages| - 1;
    var front := pages[..m];
    ChainBounds(base, front, pages[m].lo);
    assert forall k :: 0 <= k < m ==> front[k] == pages[k];
    if Live(e, front) {
      var k :| 0 <= k < |front| && Covers(front[k], e) && !Expired(e, front[k].now);
      assert Covers(pages[k], e);
    }
  }

  /** On an ordered history the owed events of a chain are those of its front followed by
      those of its last page. */
  lemma {:induction false} OwedSplits(h: seq<Entry>, actor: ActorId, base: u64, pages: seq<Page>, cursor: u64)
    requires Ordered(h) && Chained(base, pages, cursor) && pages != []
    ensures var m := |pages| - 1; var p := pages[m];
      Owed(h, actor, pages) == Owed(h, actor, pages[..m]) + Addressed(Window(h, p.lo, p.hi), actor, p.now)
  {
    var m := |pages| - 1;
    var p := pages[m];
    if h != [] {
      OwedSplits(h[1..], actor, base, pages, cursor);
      LiveOnLastPage(base, pages, cursor, h[0]);
      if At(h[0]) > p.lo {
        NothingOwedBeyond(h, actor, base, pages[..m], p.lo);
        NothingOwedBeyond(h[1..], actor, base, pages[..m], p.lo);
        var tail := Window(h[1..], p.lo, p.hi);
        var owed := Addressed(tail, actor, p.now);
        assert Owed(h[1..], actor, pages) == owed;
        if At(h[0]) <= p.hi {
          assert ([h[0]] + tail)[1..] == tail;
          assert Window(h, p.lo, p.hi) == [h[0]] + tail;
        } else {
          assert Window(h, p.lo, p.hi) == tail;
        }
        assert Owed(h, actor, pages) == Addressed(Window(h, p.lo, p.hi), actor, p.now);
      } else {
        var head := if actor in h[0].audience && Live(h[0], pages) then [h[0]] else [];
        var front := Owed(h[1..], actor, pages[..m]);
        var last := Addressed(Window(h[1..], p.lo, p.hi), actor, p.now);
        assert head + (front + last) == (head + front) + last;
        assert Window(h, p.lo, p.hi) == Window(h[1..], p.lo, p.hi);
      }
    }
  }

  lemma {:induction false} NothingOwedBeyond(h: seq<Entry>, actor: ActorId, base: u64, pages: seq<Page>, cursor: u64)
    requires Chained(base, pages, cursor) && forall i :: 0 <= i < |h| ==> cursor < At(h[i])
    ensures Owed(h, actor, pages) == []
  {
    if h != [] {
      ChainBounds(base, pages, cursor);
      NothingOwedBeyond(h[1..], actor, base, pages, cursor);
    }
  }

  lemma {:induction false} ReceivedIsOwed(h: seq<Entry>, actor: ActorId, base: u64, pages: seq<Page>, cursor: u64)
    requires Ordered(h) && Chained(base, pages, cursor)
    requires forall k :: 0 <= k < |pages| ==> Faithful(pages[k], h, actor)
    ensures Received(pages) == Owed(h, actor, pages)
  {
    if pages == [] {
      NothingOwedAtAll(h, actor);
    } else {
      var m := |pages| - 1;
      assert forall k :: 0 <= k < m ==> pages[..m][k] == pages[k];
      ReceivedIsOwed(h, actor, base, pages[..m], pages[m].lo);
      OwedSplits(h, actor, base, pages, cursor);
    }
  }

  lemma {:induction false} NothingOwedAtAll(h: seq<Entry>, actor: ActorId)
    ensures Owed(h, actor, []) == []
  {
    if h != [] { NothingOwedAtAll(h[1..], actor); }
  }

  lemma {:induction false} RunSnoc(w: World, steps: seq<Step>)
    requires steps != []
    ensures Run(w, steps) == Next(Run(w, steps[..|steps| - 1]), steps[|steps| - 1])
    decreases |steps|
  {
    hide Next;
    var m := |steps| - 1;
    if m == 0 {
      assert steps[1..] == [] && steps[..0] == [];
      assert Run(Next(w, steps[0]), steps[1..]) == Next(w, steps[0]);
      assert Run(w, steps[..0]) == w;
    } else {
      RunSnoc(Next(w, steps[0]), steps[1..]);
      assert steps[1..][..m - 1] == steps[..m][1..];
    }
  }

  /** The k-th step of the run served this snapshot, and the history was then exactly the
      first `seen` entries of what it is now. */
  ghost predicate ServedAt(w: World, steps: seq<Step>, k: nat, id: string, base: Base)
    requires k < |steps| && base.SnapshotServed?
  {
    var moment := Run(w, steps[..k]);
    steps[k].DoSync? && steps[k].id == id && moment.service.cursor == base.cursor &&
    base.seen <= |Run(w, steps).history| && moment.history == Run(w, steps).history[..base.seen]
  }

  /** The base of a client is its own claim or a snapshot that some step really served. */
  ghost predicate WasServed(w: World, steps: seq<Step>, id: string, base: Base)
  {
    base.SnapshotServed? ==> exists k :: 0 <= k < |steps| && ServedAt(w, steps, k, id, base)
  }

  lemma HistoryGrows(w: World, step: Step)
    ensures w.history <= Next(w, step).history
  {
    hide SyncResponse, BatchOf, SettleOf, Receive;
  }

  lemma ServedStays(w: World, steps: seq<Step>, k: nat, id: string, base: Base)
    requires steps != [] && k < |steps| - 1 && base.SnapshotServed? && ServedAt(w, steps[..|steps| - 1], k, id, base)
    ensures ServedAt(w, steps, k, id, base)
  {
    hide Run, Next;
    var front := steps[..|steps| - 1];
    RunSnoc(w, steps);
    HistoryGrows(Run(w, front), steps[|steps| - 1]);
    assert front[..k] == steps[..k] && front[k] == steps[k];
    var h, g := Run(w, front).history, Run(w, steps).history;
    assert h[..base.seen] == g[..base.seen];
  }

  lemma {:induction false} BasesWereServed(w: World, steps: seq<Step>, id: string)
    requires Inv(w) && w.clients == map[] && ExactRun(w, steps) && id in Run(w, steps).clients
    ensures var c := Run(w, steps).clients[id]; c.Following? ==> WasServed(w, steps, id, c.base)
    decreases |steps|
  {
    hide ExactRun, Inv, SyncResponse, BatchOf, SettleOf, ReloadOf, Stamp, ServedAt;
    if steps != [] {
      var m := |steps| - 1;
      var front, step := steps[..m], steps[m];
      var before := Run(w, front);
      RunSnoc(w, steps);
      ExactPrefix(w, steps);
      if id in before.clients {
        BasesWereServed(w, front, id);
        var c := before.clients[id];
        if c.Following? && c.base.SnapshotServed? {
          var k :| 0 <= k < |front| && ServedAt(w, front, k, id, c.base);
          ServedStays(w, steps, k, id, c.base);
        }
      }
      if step.DoSync? && step.id == id && id in before.clients { ServedNow(w, steps, id); }
    }
  }

  lemma {:induction false} ExactPrefix(w: World, steps: seq<Step>)
    requires steps != [] && ExactRun(w, steps)
    ensures ExactRun(w, steps[..|steps| - 1])
    decreases |steps|
  {
    hide Next, Exact;
    if |steps| > 1 {
      ExactPrefix(Next(w, steps[0]), steps[1..]);
      assert steps[1..][..|steps| - 2] == steps[..|steps| - 1][1..];
    }
  }

  /** A sync that serves a snapshot serves it at the cursor and history of that moment. */
  lemma ServedNow(w: World, steps: seq<Step>, id: string)
    requires steps != [] && Inv(w) && ExactRun(w, steps)
    requires var last := steps[|steps| - 1]; last.DoSync? && last.id == id && id in Run(w, steps[..|steps| - 1]).clients
    ensures id in Run(w, steps).clients
    ensures var before, c := Run(w, steps[..|steps| - 1]).clients[id], Run(w, steps).clients[id];
      c.Following? && c.base.SnapshotServed? ==>
        (before.Following? && before.base == c.base) || ServedAt(w, steps, |steps| - 1, id, c.base)
  {
    hide SyncResponse, Run, Inv;
    var m := |steps| - 1;
    RunSnoc(w, steps);
    ExactPrefix(w, steps);
    RunKeepsInv(w, steps[..m]);
    var moment := Run(w, steps[..m]);
    var c := moment.clients[id];
    InvService(moment);
    SyncIsComplete(moment.service, moment.history, c.actor, PositionOf(c), steps[m].limit, steps[m].now);
    assert moment.history[..|moment.history|] == moment.history;
  }

  lemma InvService(w: World)
    requires Inv(w)
    ensures ServiceInv(w.service, w.history)
  {
  }

  /** No run loses an event. Whatever the interleaving, a client's deltas since its base
      are, in order and without repetition, exactly the journaled events addressed to it
      between its base and its cursor, except typing events already expired when served;
      and a snapshot base was served when the history held exactly the events at or below
      its cursor, so those are the events the snapshot covers. */
  lemma NoEventIsLost(w: World, steps: seq<Step>, id: string)
    requires Initial(w) && ExactRun(w, steps) && id in Run(w, steps).clients
    ensures var after := Run(w, steps);
      var c := after.clients[id];
      c.Following? ==>
        Received(c.pages) == Owed(after.history, c.actor, c.pages) &&
        (forall e :: e in after.history && c.base.cursor < At(e) <= c.cursor && e.typingExpiry.None? ==>
          Live(e, c.pages)) &&
        BaseInv(c.base, after.service, after.history) && WasServed(w, steps, id, c.base)
  {
    RunKeepsInv(w, steps);
    BasesWereServed(w, steps, id);
    hide WasServed, Run;
    var after := Run(w, steps);
    var c := after.clients[id];
    assert ClientInv(c, after.service, after.history);
    if c.Following? {
      ReceivedIsOwed(after.history, c.actor, c.base.cursor, c.pages, c.cursor);
      forall e | e in after.history && c.base.cursor < At(e) <= c.cursor && e.typingExpiry.None?
        ensures Live(e, c.pages)
      {
        ChainTiles(c.base.cursor, c.pages, c.cursor, e);
        var k :| 0 <= k < |c.pages| && Covers(c.pages[k], e);
        assert !Expired(e, c.pages[k].now);
      }
    }
  }

  // ------------------------------------------------------------------- paging

  /** The client's position after k consecutive syncs, if all of them are deltas. */
  function Paged(s: Service, actor: ActorId, from: u64, limit: u32, now: int, k: nat): Option<u64>
    decreases k
  {
    if k == 0 then Some(from)
    else
      match SyncResponse(s, actor, Some(from), limit, now)
      case Delta(_, checkpoint) => Paged(s, actor, checkpoint, limit, now, k - 1)
      case _ => None
  }

  function GroupLimit(limit: u32): nat
  {
    if limit < 1 then 1 else limit
  }

  /** One delta page either reaches the current cursor or consumes exactly `limit` groups. */
  lemma PageProgress(s: Service, history: seq<Entry>, actor: ActorId, from: u64, limit: u32, now: int)
    requires ServiceInv(s, history) && SyncResponse(s, actor, Some(from), limit, now).Delta?
    ensures var r := SyncResponse(s, actor, Some(from), limit, now);
      var n := |Groups(s.store.journal, from)|;
      if n > GroupLimit(limit)
      then from < r.checkpoint && |Groups(s.store.journal, r.checkpoint)| == n - GroupLimit(limit)
      else r.checkpoint == s.cursor
  {
    var j := s.store.journal;
    assert Ordered(j);
    hide ScanFrom, Groups, Window, CountGroups, Ordered;
    var room := GroupLimit(limit);
    ScanSelects(j, from, room, None);
    ScanCounts(j, from, room, None);
    CountAllGroups(j, from);
    var scan := ScanFrom(j, from, room, None);
    if scan.hasMore { CountAllGroups(j, scan.last.value); }
  }

  lemma CountAllGroups(j: seq<Entry>, lo: u64)
    requires Ordered(j)
    ensures CountGroups(j, lo, None) == |Groups(j, lo)|
  {
    CountIsCardinality(j, lo, None);
    assert Groups(j, lo) - LastSet(None) == Groups(j, lo);
  }

  /** A client that is served by delta and keeps asking reaches the current cursor in
      ceil(groups / limit) pages (one page when nothing is new). */
  lemma {:induction false} PagingTerminates(
    s: Service, history: seq<Entry>, actor: ActorId, from: u64, limit: u32, now: int, k: nat)
    requires ServiceInv(s, history) && SyncResponse(s, actor, Some(from), limit, now).Delta?
    requires 1 <= k && |Groups(s.store.journal, from)| <= k * GroupLimit(limit)
    requires (k - 1) * GroupLimit(limit) < |Groups(s.store.journal, from)| || k == 1
    ensures Paged(s, actor, from, limit, now, k) == Some(s.cursor)
    decreases k
  {
    hide SyncResponse, ServiceInv, Groups, GroupLimit;
    PageProgress(s, history, actor, from, limit, now);
    var c := SyncResponse(s, actor, Some(from), limit, now).checkpoint;
    if k == 1 {
      assert Paged(s, actor, c, limit, now, 0) == Some(c);
    } else {
      PageArithmetic(k, GroupLimit(limit), |Groups(s.store.journal, from)|);
      SyncIsComplete(s, history, actor, Some(from), limit, now);
      StaysDelta(s, history, actor, from, c, limit, now);
      PagingTerminates(s, history, actor, c, limit, now, k - 1);
    }
  }

  lemma PageArithmetic(k: int, g: nat, n: int)
    requires 2 <= k && n <= k * g && (k - 1) * g < n
    ensures g < n && n - g <= (k - 1) * g && (k - 2) * g < n - g
  {
    assert k * g == g + (k - 1) * g;
    assert (k - 1) * g == g + (k - 2) * g;
    assert 0 <= (k - 2) * g;
  }

  /** While groups remain above the checkpoint the next answer is again a delta. */
  lemma StaysDelta(s: Service, history: seq<Entry>, actor: ActorId, from: u64, c: u64, limit: u32, now: int)
    requires ServiceInv(s, history) && SyncResponse(s, actor, Some(from), limit, now) .Delta?
    requires from <= c <= s.cursor && Groups(s.store.journal, c) != {}
    ensures SyncResponse(s, actor, Some(c), limit, now).Delta?
  {
    var j := s.store.journal;
    assert Ordered(j);
    ScanSelects(j, c, GroupLimit(limit), None);
    ScanSelectsSome(j, c, GroupLimit(limit));
  }

  lemma {:induction false} ScanSelectsSome(j: seq<Entry>, c: u64, room: nat)
    requires Ordered(j) && 0 < room && Groups(j, c) != {}
    ensures var r := ScanFrom(j, c, room, None); r.Scanned? && r.selected != []
  {
    ScanSelects(j, c, room, None);
    var x :| x in Groups(j, c);
    if At(j[0]) <= c {
      GroupsStep(j, c);
      ScanSelectsSome(j[1..], c, room);
    } else {
      ValidLastTail(j, c, None);
      ScanSelects(j[1..], c, room - 1, Some(At(j[0])));
    }
  }

  // ------------------------------------------------------------ at saturation

  /** A service whose cursor has reached its ceiling. */
  ghost predicate Saturated(s: Service)
  {
    s.cursor == U64_MAX && Stamped(s.store.journal) && s.store.snapshot.Some? &&
    s.store.snapshot.value.cursor == U64_MAX
  }

  /** A client that has followed up to the ceiling. */
  predicate AtCeiling(clients: map<string, Client>, id: string)
  {
    id in clients && clients[id].Following? && clients[id].cursor == U64_MAX
  }

  lemma SaturatedSync(s: Service, actor: ActorId, limit: u32, now: int)
    requires Saturated(s)
    ensures SyncResponse(s, actor, Some(U64_MAX), limit, now) == Delta([], U64_MAX)
  {
    NothingAboveMax(s.store.journal, GroupLimit(limit));
  }

  lemma SaturatedStep(w: World, step: Step, id: string)
    requires Saturated(w.service) && AtCeiling(w.clients, id) && !(step.Connect? && step.id == id)
    ensures var after := Next(w, step);
      Saturated(after.service) && AtCeiling(after.clients, id) &&
      Received(after.clients[id].pages) == Received(w.clients[id].pages)
  {
    hide SyncResponse, BatchOf;
    match step
    case Batch(n, drafts) => SaturatedBatch(w.service, n, drafts);
    case Settle(n) =>
    case Reload =>
    case Connect(other, actor, start) =>
    case DoSync(other, limit, now) =>
      if other == id {
        var c := w.clients[id];
        SaturatedSync(w.service, c.actor, limit, now);
        var pages := c.pages + [Page(U64_MAX, U64_MAX, now, [])];
        assert pages[..|pages| - 1] == c.pages;
        assert Received(pages) == Received(c.pages) + [];
      }
  }

  /** Once the cursor has saturated, a client standing at it never receives anything again,
      over every further run in which it does not connect anew: the bound on batches in
      `Exact` cannot be dropped. */
  lemma {:induction false} SaturatedClientHearsNothing(w: World, steps: seq<Step>, id: string)
    requires Saturated(w.service) && AtCeiling(w.clients, id)
    requires forall i :: 0 <= i < |steps| ==> !(steps[i].Connect? && steps[i].id == id)
    ensures var after := Run(w, steps);
      AtCeiling(after.clients, id) && Received(after.clients[id].pages) == Received(w.clients[id].pages)
    decreases |steps|
  {
    hide Next, Saturated, AtCeiling, Received;
    if steps != [] {
      SaturatedStep(w, steps[0], id);
      SaturatedClientHearsNothing(Next(w, steps[0]), steps[1..], id);
    }
  }

  // A store imported at the ceiling, a client that connects and syncs, then an event for it.

  const FULL: World :=
    World(Service(U64_MAX, Store(Some(Snapshot(SNAPSHOT_SCHEMA, U64_MAX)), [], U64_MAX)), [], map[])

  const ARRIVAL: seq<Step> := [Connect("x", "a", None), DoSync("x", 1, 0)]

  const NEWS: seq<Draft> := [Draft(["a"], None, "news")]

  /** The same world with the client, which was served a snapshot of the empty history. */
  function Served(): World
  {
    FULL.(clients := map["x" := Following("a", SnapshotServed(U64_MAX, 0), [], U64_MAX)])
  }

  lemma ArrivalIsServed()
    ensures Run(FULL, ARRIVAL) == Served() && Initial(FULL) && ExactRun(FULL, ARRIVAL)
  {
    var blank := Next(FULL, ARRIVAL[0]);
    assert blank.clients == map["x" := Blank("a")];
    assert ARRIVAL[1..] == [ARRIVAL[1]] && ARRIVAL[1..][1..] == [];
    var served := Next(blank, ARRIVAL[1]);
    assert served.clients == Served().clients;
    assert Run(served, []) == served && Run(blank, [ARRIVAL[1]]) == served;
    assert ExactRun(served, []) && ExactRun(blank, [ARRIVAL[1]]);
  }

  /** An event is lost at the ceiling: it is addressed to the client and lies at or below its
      cursor, but it came after the snapshot and, however the run goes on without a new
      connection, the client never receives it. */
  lemma EventIsLostAtCeiling(more: seq<Step>)
    requires forall i :: 0 <= i < |more| ==> !(more[i].Connect? && more[i].id == "x")
    ensures var w := Next(Run(FULL, ARRIVAL), Batch(1, NEWS));
      var after := Run(w, more);
      |w.history| == 1 && "a" in w.history[0].audience && w.history[0] in after.history &&
      AtCeiling(after.clients, "x") && At(w.history[0]) <= after.clients["x"].cursor &&
      Received(after.clients["x"].pages) == [] && w.clients["x"].base == SnapshotServed(U64_MAX, 0)
  {
    hide Run, Received;
    ArrivalIsServed();
    var w := Next(Served(), Batch(1, NEWS));
    assert Saturated(Served().service);
    SaturatedBatch(Served().service, 1, NEWS);
    SaturatedClientHearsNothing(w, more, "x");
    NothingReceived();
    HistoryOnlyGrows(w, more);
    assert w.history == Stamp(NEWS, U64_MAX);
  }

  lemma NothingReceived()
    ensures Received([]) == []
  {
  }

  lemma {:induction false} HistoryOnlyGrows(w: World, steps: seq<Step>)
    ensures w.history <= Run(w, steps).history
    decreases |steps|
  {
    hide Next;
    if steps != [] {
      HistoryGrows(w, steps[0]);
      HistoryOnlyGrows(Next(w, steps[0]), steps[1..]);
    }
  }

  lemma SaturatedBatch(s: Service, n: nat, drafts: seq<Draft>)
    requires Saturated(s)
    ensures Saturated(BatchOf(s, n, drafts))
  {
    assert Stamped(s.store.journal + Stamp(drafts, U64_MAX));
  }

  lemma {:induction false} NothingAboveMax(j: seq<Entry>, room: nat)
    requires Stamped(j)
    ensures ScanFrom(j, U64_MAX, room, None) == Scanned([], false, None)
  {
    if j != [] { NothingAboveMax(j[1..], room); }
  }

  // ---------------------------------------------------------- the SQLite store

  /** In every consistent state the SQLite store makes the same transitions as the
      in-memory one, so the theorems above hold for it too. */
  lemma SqliteRefinesMemory(s: Service, history: seq<Entry>, n: nat, drafts: seq<Draft>)
    requires ServiceInv(s, history)
    ensures var c := SaturatingAdd(s.cursor, n); var snap := Snapshot(SNAPSHOT_SCHEMA, c);
      SqlSaveWithEventsOf(s.store, snap, Stamp(drafts, c)) == SaveWithEventsOf(s.store, snap, Stamp(drafts, c)) &&
      SqlSaveOf(s.store, snap) == SaveOf(s.store, snap)
  {
    hide Pruned, SqlPruned;
    var c := SaturatingAdd(s.cursor, n);
    OrderedAppend(s.store.journal, Stamp(drafts, c), c);
    SqlPrunesTheSame(s.store.journal + Stamp(drafts, c), s.store.floorCursor);
  }
}
