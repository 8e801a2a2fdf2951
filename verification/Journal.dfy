/** The event journal of the messaging store: pruning, slicing by cursor group, and the
    two storage back ends. */
module Journal {
  import opened Wrappers
  import opened Bytes

  type ActorId = string

  const JOURNAL_LIMIT: nat := 10_000
  const SNAPSHOT_SCHEMA: u32 := 1

  /** A journal entry; a typing event carries its expiry time. */
  datatype Entry = Entry(
    cursor: Option<u64>, audience: seq<ActorId>, typingExpiry: Option<int>, payload: string)

  datatype Snapshot = Snapshot(schemaVersion: u32, cursor: u64)
  datatype StoreError = MissingEventCursor | UnsupportedSchema(actual: u32)
  datatype SaveResult = Saved | SaveFailed(error: StoreError)

  datatype Slice = Slice(
    floorCursor: u64, currentCursor: u64, checkpointCursor: u64, hasMore: bool, entries: seq<Entry>)
  datatype SliceResult = Sliced(slice: Slice) | SliceFailed(error: StoreError)

  /** The contents of a store. */
  datatype Store = Store(snapshot: Option<Snapshot>, journal: seq<Entry>, floorCursor: u64)

  function At(e: Entry): u64
  {
    if e.cursor.Some? then e.cursor.value else 0
  }

  ghost predicate Stamped(j: seq<Entry>)
  {
    forall i :: 0 <= i < |j| ==> j[i].cursor.Some?
  }

  /** Every entry has a cursor and cursors never decrease. */
  ghost predicate Ordered(j: seq<Entry>)
  {
    Stamped(j) && forall i, k :: 0 <= i <= k < |j| ==> At(j[i]) <= At(j[k])
  }

  function Max(a: u64, b: u64): u64
  {
    if a < b then b else a
  }

  // --------------------------------------------------------------------- slicing

  datatype Scan = Scanned(selected: seq<Entry>, hasMore: bool, last: Option<u64>) | ScanFailed

  function Prepend(s: seq<Entry>, r: Scan): Scan
  {
    if r.ScanFailed? then r else r.(selected := s + r.selected)
  }

  /** The slicing loop from some point on, with room for this many more cursor groups. */
  function ScanFrom(rest: seq<Entry>, requested: u64, room: nat, last: Option<u64>): Scan
  {
    if rest == [] then Scanned([], false, last)
    else if rest[0].cursor.None? then ScanFailed
    else
      var c := rest[0].cursor.value;
      if c <= requested then ScanFrom(rest[1..], requested, room, last)
      else if last == Some(c) then Prepend([rest[0]], ScanFrom(rest[1..], requested, room, last))
      else if room == 0 then Scanned([], true, last)
      else Prepend([rest[0]], ScanFrom(rest[1..], requested, room - 1, Some(c)))
  }

  function SliceOf(j: seq<Entry>, floor: u64, current: u64, requested: u64, limit: nat): SliceResult
  {
    var r := ScanFrom(j, requested, if limit < 1 then 1 else limit, None);
    if r.ScanFailed? then SliceFailed(MissingEventCursor)
    else
      var checkpoint :=
        if r.hasMore then (if r.last.Some? then r.last.value else requested)
        else if r.selected == [] && requested < current then requested
        else current;
      Sliced(Slice(floor, current, checkpoint, r.hasMore, r.selected))
  }

  /** `slice_journal`. */
  method SliceJournal(j: seq<Entry>, floor: u64, current: u64, requested: u64, limit: nat) returns (r: SliceResult)
    ensures r == SliceOf(j, floor, current, requested, limit)
  {
    var groupLimit := if limit < 1 then 1 else limit;
    var selected: seq<Entry> := [];
    var groups := 0;
    var last: Option<u64> := None;
    var hasMore := false;
    var k := 0;
    assert j[0..] == j;
    while k < |j|
      invariant 0 <= k <= |j| && groups <= groupLimit && !hasMore
      invariant ScanFrom(j, requested, groupLimit, None) ==
        Prepend(selected, ScanFrom(j[k..], requested, groupLimit - groups, last))
    {
      assert j[k..][1..] == j[k + 1..];
      if j[k].cursor.None? {
        return SliceFailed(MissingEventCursor);
      }
      var cursor := j[k].cursor.value;
      if cursor > requested {
        if last != Some(cursor) {
          if groups >= groupLimit {
            hasMore := true;
            break;
          }
          groups := groups + 1;
          last := Some(cursor);
        }
        ghost var tail := ScanFrom(j[k + 1..], requested, groupLimit - groups, last);
        assert tail.Scanned? ==> selected + ([j[k]] + tail.selected) == selected + [j[k]] + tail.selected;
        selected := selected + [j[k]];
      }
      k := k + 1;
    }
    var checkpoint :=
      if hasMore then (if last.Some? then last.value else requested)
      else if selected == [] && requested < current then requested
      else current;
    r := Sliced(Slice(floor, current, checkpoint, hasMore, selected));
  }

  /** The entries strictly above lo and not above hi, in order. */
  function Window(j: seq<Entry>, lo: int, hi: int): seq<Entry>
  {
    if j == [] then []
    else (if lo < At(j[0]) <= hi then [j[0]] else []) + Window(j[1..], lo, hi)
  }

  /** The distinct cursors above lo. */
  ghost function Groups(j: seq<Entry>, lo: int): set<u64>
  {
    set i | 0 <= i < |j| && lo < At(j[i]) :: At(j[i])
  }

  ghost function LastSet(last: Option<u64>): set<u64>
  {
    if last.Some? then {last.value} else {}
  }

  lemma GroupsStep(j: seq<Entry>, lo: int)
    requires j != []
    ensures Groups(j, lo) == Groups(j[1..], lo) + if lo < At(j[0]) then {At(j[0])} else {}
  {
    forall c | c in Groups(j, lo)
      ensures c in Groups(j[1..], lo) || (lo < At(j[0]) && c == At(j[0]))
    {
      var i :| 0 <= i < |j| && lo < At(j[i]) && c == At(j[i]);
      if i > 0 { assert j[1..][i - 1] == j[i]; }
    }
    forall i | 0 <= i < |j[1..]| && lo < At(j[1..][i])
      ensures At(j[1..][i]) in Groups(j, lo)
    {
      assert j[1..][i] == j[i + 1];
    }
  }

  lemma {:induction false} WindowEmpty(j: seq<Entry>, lo: int, hi: int)
    requires forall i :: 0 <= i < |j| ==> !(lo < At(j[i]) <= hi)
    ensures Window(j, lo, hi) == []
  {
    if j != [] { WindowEmpty(j[1..], lo, hi); }
  }

  ghost predicate ValidLast(j: seq<Entry>, requested: u64, last: Option<u64>)
  {
    last.Some? ==>
      requested < last.value && forall i :: 0 <= i < |j| && At(j[i]) > requested ==> last.value <= At(j[i])
  }

  lemma ValidLastTail(j: seq<Entry>, requested: u64, last: Option<u64>)
    requires Ordered(j) && j != [] && ValidLast(j, requested, last)
    ensures Ordered(j[1..]) && ValidLast(j[1..], requested, last)
    ensures At(j[0]) > requested ==> ValidLast(j[1..], requested, Some(At(j[0])))
  {
  }

  /** On an ordered journal the loop selects everything above the request up to a
      boundary cursor, so it never splits a cursor group. */
  lemma {:induction false} ScanSelects(j: seq<Entry>, requested: u64, room: nat, last: Option<u64>)
    requires Ordered(j) && ValidLast(j, requested, last)
    requires last.None? ==> 0 < room
    ensures var r := ScanFrom(j, requested, room, last);
      r.Scanned? &&
      (r.hasMore ==> r.last.Some? && requested < r.last.value && r.selected == Window(j, requested, r.last.value)) &&
      (r.hasMore && last.Some? ==> last.value <= r.last.value) &&
      (!r.hasMore ==> r.selected == Window(j, requested, U64_MAX))
  {
    if j != [] {
      var c := At(j[0]);
      ValidLastTail(j, requested, last);
      if c <= requested || last == Some(c) {
        ScanSelects(j[1..], requested, room, last);
      } else if room == 0 {
        WindowEmpty(j, requested, last.value);
      } else {
        ScanSelects(j[1..], requested, room - 1, Some(c));
      }
    }
  }

  /** The number of cursor groups above lo, not counting a group already begun. */
  function CountGroups(j: seq<Entry>, lo: u64, last: Option<u64>): nat
  {
    if j == [] then 0
    else if At(j[0]) <= lo || last == Some(At(j[0])) then CountGroups(j[1..], lo, last)
    else 1 + CountGroups(j[1..], lo, Some(At(j[0])))
  }

  /** ... and it stops exactly when more groups remain than there is room for, leaving
      the surplus above the boundary. */
  lemma {:induction false} ScanCounts(j: seq<Entry>, requested: u64, room: nat, last: Option<u64>)
    requires Ordered(j) && ValidLast(j, requested, last)
    requires last.None? ==> 0 < room
    ensures var r := ScanFrom(j, requested, room, last);
      var unseen := CountGroups(j, requested, last);
      r.Scanned? && (r.hasMore <==> unseen > room) &&
      (r.hasMore ==> r.last.Some? && CountGroups(j, r.last.value, None) == unseen - room)
  {
    if j != [] {
      var c := At(j[0]);
      ValidLastTail(j, requested, last);
      if c <= requested || last == Some(c) {
        ScanCounts(j[1..], requested, room, last);
        ScanSelects(j[1..], requested, room, last);
      } else if room == 0 {
        CountFromLast(j, requested, last.value);
      } else {
        ScanCounts(j[1..], requested, room - 1, Some(c));
        ScanSelects(j[1..], requested, room - 1, Some(c));
      }
    }
  }

  lemma {:induction false} CountFromLast(j: seq<Entry>, lo: u64, b: u64)
    requires Ordered(j) && ValidLast(j, lo, Some(b))
    ensures CountGroups(j, lo, Some(b)) == CountGroups(j, b, None)
  {
    if j != [] {
      ValidLastTail(j, lo, Some(b));
      if At(j[0]) <= b { CountFromLast(j[1..], lo, b); } else { CountAbove(j[1..], lo, b, Some(At(j[0]))); }
    }
  }

  lemma {:induction false} CountAbove(j: seq<Entry>, lo: u64, b: u64, last: Option<u64>)
    requires forall i :: 0 <= i < |j| ==> lo < At(j[i]) && b < At(j[i])
    ensures CountGroups(j, lo, last) == CountGroups(j, b, last)
  {
    if j != [] {
      CountAbove(j[1..], lo, b, last);
      CountAbove(j[1..], lo, b, Some(At(j[0])));
    }
  }

  /** On ordered journals the count is the number of distinct cursors. */
  lemma {:induction false} CountIsCardinality(j: seq<Entry>, lo: u64, last: Option<u64>)
    requires Ordered(j) && ValidLast(j, lo, last)
    ensures CountGroups(j, lo, last) == |Groups(j, lo) - LastSet(last)|
  {
    if j != [] {
      var c := At(j[0]);
      ValidLastTail(j, lo, last);
      if c <= lo || last == Some(c) {
        CountIsCardinality(j[1..], lo, last);
        GroupsSkip(j, lo, last);
      } else {
        CountIsCardinality(j[1..], lo, Some(c));
        UnseenStep(j, lo, last);
      }
    }
  }

  lemma GroupsSkip(j: seq<Entry>, lo: u64, last: Option<u64>)
    requires j != [] && (At(j[0]) <= lo || last == Some(At(j[0])))
    ensures Groups(j, lo) - LastSet(last) == Groups(j[1..], lo) - LastSet(last)
  {
    GroupsStep(j, lo);
  }

  lemma LastNotAhead(j: seq<Entry>, requested: u64, last: u64)
    requires Ordered(j) && j != [] && requested < At(j[0]) && last != At(j[0])
    requires ValidLast(j, requested, Some(last))
    ensures last !in Groups(j, requested)
  {
    forall i | 0 <= i < |j|
      ensures At(j[i]) != last
    {
      assert At(j[0]) <= At(j[i]);
    }
  }

  lemma UnseenStep(j: seq<Entry>, requested: u64, last: Option<u64>)
    requires Ordered(j) && j != [] && At(j[0]) > requested && last != Some(At(j[0]))
    requires ValidLast(j, requested, last)
    ensures var rest := Groups(j[1..], requested) - LastSet(Some(At(j[0])));
      |Groups(j, requested) - LastSet(last)| == |rest| + 1
  {
    var c := At(j[0]);
    GroupsStep(j, requested);
    if last.Some? { LastNotAhead(j, requested, last.value); }
    var rest := Groups(j[1..], requested) - {c};
    assert Groups(j, requested) - LastSet(last) == rest + {c};
  }

  // --------------------------------------------------------------------- pruning

  /** How many leading entries have a cursor at or below c. */
  function LeadingUpTo(j: seq<Entry>, c: u64): (k: nat)
    ensures k <= |j|
  {
    if j != [] && j[0].cursor.Some? && At(j[0]) <= c then 1 + LeadingUpTo(j[1..], c) else 0
  }

  /** The in-memory rule: over the limit, drop the leading entries up to the cursor of
      the last excess entry, which becomes the floor. */
  function Pruned(j: seq<Entry>, floor: u64): (seq<Entry>, u64)
  {
    if |j| <= JOURNAL_LIMIT then (j, floor)
    else
      var c := At(j[|j| - JOURNAL_LIMIT - 1]);
      (j[LeadingUpTo(j, c)..], c)
  }

  /** One past the last row whose cursor is c. */
  function LastRowOf(j: seq<Entry>, c: u64): (k: nat)
    ensures k <= |j|
  {
    if j == [] then 0
    else if At(j[|j| - 1]) == c then |j|
    else LastRowOf(j[..|j| - 1], c)
  }

  /** The SQLite rule: delete up to the last row carrying the prune cursor. */
  function SqlPruned(j: seq<Entry>, floor: u64): (seq<Entry>, u64)
  {
    if |j| <= JOURNAL_LIMIT then (j, floor)
    else
      var c := At(j[|j| - JOURNAL_LIMIT - 1]);
      (j[LastRowOf(j, c)..], c)
  }

  lemma {:induction false} LeadingSplits(j: seq<Entry>, c: u64)
    requires Ordered(j)
    ensures forall i :: 0 <= i < LeadingUpTo(j, c) ==> At(j[i]) <= c
    ensures forall i :: LeadingUpTo(j, c) <= i < |j| ==> c < At(j[i])
  {
    if j != [] && At(j[0]) <= c {
      LeadingSplits(j[1..], c);
      var k := LeadingUpTo(j[1..], c);
      assert forall i :: 0 < i < |j| ==> j[i] == j[1..][i - 1];
    }
  }

  lemma {:induction false} LastRowSplits(j: seq<Entry>, c: u64)
    requires Ordered(j) && exists i :: 0 <= i < |j| && At(j[i]) == c
    ensures forall i :: 0 <= i < LastRowOf(j, c) ==> At(j[i]) <= c
    ensures forall i :: LastRowOf(j, c) <= i < |j| ==> c < At(j[i])
  {
    var m := |j| - 1;
    if At(j[m]) != c {
      var i :| 0 <= i < |j| && At(j[i]) == c;
      assert At(j[i]) <= At(j[m]);
      assert j[..m][i] == j[i];
      LastRowSplits(j[..m], c);
    }
  }

  /** On ordered journals both back ends delete the same prefix and set the same floor. */
  lemma SqlPrunesTheSame(j: seq<Entry>, floor: u64)
    requires Ordered(j)
    ensures SqlPruned(j, floor) == Pruned(j, floor)
  {
    if |j| > JOURNAL_LIMIT {
      var c := At(j[|j| - JOURNAL_LIMIT - 1]);
      LeadingSplits(j, c);
      LastRowSplits(j, c);
      var a, b := LeadingUpTo(j, c), LastRowOf(j, c);
      assert a < |j| ==> c < At(j[a]);
      assert b < |j| ==> c < At(j[b]);
    }
  }

  // ------------------------------------------------------------------ the store

  /** `save`: a plain snapshot moves the floor only while the journal is empty. */
  function SaveOf(s: Store, snapshot: Snapshot): (Store, SaveResult)
  {
    if snapshot.schemaVersion != SNAPSHOT_SCHEMA then (s, SaveFailed(UnsupportedSchema(snapshot.schemaVersion)))
    else
      (Store(Some(snapshot), s.journal, if s.journal == [] then Max(s.floorCursor, snapshot.cursor) else s.floorCursor),
        Saved)
  }

  predicate AllStamped(events: seq<Entry>)
  {
    forall i :: 0 <= i < |events| ==> events[i].cursor.Some?
  }

  function SaveWithEventsOf(s: Store, snapshot: Snapshot, events: seq<Entry>): (Store, SaveResult)
  {
    if snapshot.schemaVersion != SNAPSHOT_SCHEMA then (s, SaveFailed(UnsupportedSchema(snapshot.schemaVersion)))
    else if !AllStamped(events) then (s, SaveFailed(MissingEventCursor))
    else
      var (journal, floor) := Pruned(s.journal + events, s.floorCursor);
      (Store(Some(snapshot), journal, floor), Saved)
  }

  function SqlSaveOf(s: Store, snapshot: Snapshot): (Store, SaveResult)
  {
    if snapshot.schemaVersion != SNAPSHOT_SCHEMA then (s, SaveFailed(UnsupportedSchema(snapshot.schemaVersion)))
    else (Store(Some(snapshot), s.journal, if s.journal == [] then snapshot.cursor else s.floorCursor), Saved)
  }

  function SqlSaveWithEventsOf(s: Store, snapshot: Snapshot, events: seq<Entry>): (Store, SaveResult)
  {
    if snapshot.schemaVersion != SNAPSHOT_SCHEMA then (s, SaveFailed(UnsupportedSchema(snapshot.schemaVersion)))
    else if !AllStamped(events) then (s, SaveFailed(MissingEventCursor))
    else
      var (journal, floor) := SqlPruned(s.journal + events, s.floorCursor);
      (Store(Some(snapshot), journal, floor), Saved)
  }

  class MemoryStateStore {
    var snapshot: Option<Snapshot>
    var journal: seq<Entry>
    var journalFloorCursor: u64

    function View(): Store
      reads this
    {
      Store(snapshot, journal, journalFloorCursor)
    }

    constructor ()
      ensures View() == Store(None, [], 0)
    {
      snapshot := None;
      journal := [];
      journalFloorCursor := 0;
    }

    method Save(s: Snapshot) returns (r: SaveResult)
      modifies this
      ensures (View(), r) == SaveOf(old(View()), s)
    {
      if s.schemaVersion != SNAPSHOT_SCHEMA {
        return SaveFailed(UnsupportedSchema(s.schemaVersion));
      }
      if journal == [] {
        journalFloorCursor := Max(journalFloorCursor, s.cursor);
      }
      snapshot := Some(s);
      return Saved;
    }

    method SaveWithEvents(s: Snapshot, events: seq<Entry>) returns (r: SaveResult)
      modifies this
      ensures (View(), r) == SaveWithEventsOf(old(View()), s, events)
    {
      if s.schemaVersion != SNAPSHOT_SCHEMA {
        return SaveFailed(UnsupportedSchema(s.schemaVersion));
      }
      for i := 0 to |events|
        invariant View() == old(View())
        invariant forall k :: 0 <= k < i ==> events[k].cursor.Some?
      {
        if events[i].cursor.None? {
          return SaveFailed(MissingEventCursor);
        }
      }
      snapshot := Some(s);
      journal := journal + events;
      if |journal| > JOURNAL_LIMIT {
        var excess := |journal| - JOURNAL_LIMIT;
        var pruneCursor := At(journal[excess - 1]);
        var removeCount := CountLeading(journal, pruneCursor);
        journal := journal[removeCount..];
        journalFloorCursor := pruneCursor;
      }
      return Saved;
    }

    method LoadEventJournalAfter(cursor: u64, groupLimit: nat) returns (r: SliceResult)
      ensures r ==
        SliceOf(journal, journalFloorCursor, if snapshot.Some? then snapshot.value.cursor else 0, cursor, groupLimit)
    {
      var current := if snapshot.Some? then snapshot.value.cursor else 0;
      r := SliceJournal(journal, journalFloorCursor, current, cursor, groupLimit);
    }
  }

  method CountLeading(j: seq<Entry>, c: u64) returns (k: nat)
    ensures k == LeadingUpTo(j, c)
  {
    k := 0;
    assert j[0..] == j;
    while k < |j| && j[k].cursor.Some? && At(j[k]) <= c
      invariant k <= |j| && LeadingUpTo(j, c) == k + LeadingUpTo(j[k..], c)
    {
      assert j[k..][1..] == j[k + 1..];
      k := k + 1;
    }
  }
}
