/** The media cache: a byte budget kept by evicting the least recently used entries. */
module Cache {
  import opened Wrappers
  import opened Bytes
  import opened Text

  datatype Entry = Entry(id: string, path: string, size: u64, accessed: i64, pinned: bool)

  type Entries = map<string, Entry>

  datatype CacheError =
    | InvalidMediaId
    | InvalidLocalPath
    | EntryTooLarge
    | PinnedEntriesExceedBudget

  // --------------------------------------------------------------- byte totals

  ghost function Sum(m: Entries): nat
  {
    if m == map[] then 0
    else
      var k :| k in m;
      m[k].size + Sum(m - {k})
  }

  /** The sum does not depend on the order of summation. */
  lemma {:induction false} SumWithout(m: Entries, k: string)
    requires k in m
    ensures Sum(m) == m[k].size + Sum(m - {k})
    decreases |m|
  {
    var j :| j in m && Sum(m) == m[j].size + Sum(m - {j});
    if j != k {
      SumWithout(m - {j}, k);
      SumWithout(m - {k}, j);
      assert m - {j} - {k} == m - {k} - {j};
    }
  }

  lemma {:induction false} SumMonotone(a: Entries, b: Entries)
    requires a.Keys <= b.Keys && forall k :: k in a ==> a[k] == b[k]
    ensures Sum(a) <= Sum(b)
    decreases |a|
  {
    if a != map[] {
      var k :| k in a;
      SumWithout(a, k);
      SumWithout(b, k);
      SumMonotone(a - {k}, b - {k});
    }
  }

  function Saturate(n: nat): u64
  {
    if n >= U64_END then U64_END - 1 else n
  }

  lemma SaturateTwice(a: nat, b: nat)
    ensures Saturate(Saturate(a) + b) == Saturate(a + b)
    ensures a < U64_END ==> Saturate(a) == a
  {
  }

  /** `total_bytes`: a saturating sum. */
  method TotalBytes(m: Entries) returns (total: u64)
    ensures total == Saturate(Sum(m))
  {
    assert Sum(map[]) == 0;
    hide Saturate, Sum;
    assert Saturate(0 + Sum(m)) == Saturate(Sum(m));
    total := 0;
    var rest := m;
    while rest != map[]
      invariant Saturate(total + Sum(rest)) == Saturate(Sum(m))
      decreases rest.Keys
    {
      var k :| k in rest;
      SumWithout(rest, k);
      SaturateTwice(total + rest[k].size, Sum(rest - {k}));
      total := Saturate(total + rest[k].size);
      rest := rest - {k};
    }
    SaturateTwice(total, 0);
  }

  // ------------------------------------------------------------------- eviction

  /** Least recently used first, ties by id. */
  predicate Older(a: Entry, b: Entry)
  {
    a.accessed < b.accessed || (a.accessed == b.accessed && Less(a.id, b.id))
  }

  predicate Evictable(e: Entry, key: string)
  {
    !e.pinned && e.id != key
  }

  /** Entries that no insertion under key may evict. */
  function Untouchable(m: Entries, key: string): Entries
  {
    map k | k in m && !Evictable(m[k], key) :: m[k]
  }

  ghost predicate KeysAreIds(m: Entries)
  {
    forall k :: k in m ==> m[k].id == k
  }

  ghost predicate Part(m: Entries, whole: Entries)
  {
    m.Keys <= whole.Keys && forall k :: k in m ==> m[k] == whole[k]
  }

  method OldestVictim(m: Entries, key: string) returns (r: Option<Entry>)
    requires KeysAreIds(m)
    ensures r.None? ==> forall k :: k in m ==> !Evictable(m[k], key)
    ensures r.Some? ==> r.value.id in m && m[r.value.id] == r.value && Evictable(r.value, key)
    ensures r.Some? ==> forall k :: k in m && Evictable(m[k], key) && k != r.value.id ==> Older(r.value, m[k])
  {
    r := None;
    var rest := m.Keys;
    while rest != {}
      invariant rest <= m.Keys
      invariant r.None? ==> forall k :: k in m && k !in rest ==> !Evictable(m[k], key)
      invariant r.Some? ==> r.value.id in m && m[r.value.id] == r.value && Evictable(r.value, key)
      invariant r.Some? ==> forall k :: k in m && k !in rest && Evictable(m[k], key) && k != r.value.id ==>
        Older(r.value, m[k])
      decreases rest
    {
      var k :| k in rest;
      if Evictable(m[k], key) && (r.None? || Older(m[k], r.value)) {
        if r.Some? { OlderThanAll(m, m[k], r.value, rest, key); }
        r := Some(m[k]);
      } else if Evictable(m[k], key) {
        OlderTotal(m[k], r.value);
      }
      rest := rest - {k};
    }
  }

  lemma OlderTotal(a: Entry, b: Entry)
    ensures a.id == b.id || Older(a, b) || Older(b, a)
    ensures !(Older(a, b) && Older(b, a))
  {
    LessTotal(a.id, b.id);
  }

  lemma OlderTransitive(a: Entry, b: Entry, c: Entry)
    requires Older(a, b) && Older(b, c)
    ensures Older(a, c)
  {
    if a.accessed == c.accessed { LessTransitive(a.id, b.id, c.id); }
  }

  lemma OlderThanAll(m: Entries, a: Entry, b: Entry, rest: set<string>, key: string)
    requires Older(a, b)
    requires forall k :: k in m && k !in rest && Evictable(m[k], key) && k != b.id ==> Older(b, m[k])
    ensures forall k :: k in m && k !in rest && Evictable(m[k], key) && k != b.id ==> Older(a, m[k])
  {
    forall k | k in m && k !in rest && Evictable(m[k], key) && k != b.id
      ensures Older(a, m[k])
    {
      OlderTransitive(a, b, m[k]);
    }
  }

  /** What eviction from `base` down to `kept` may have done: the evicted entries are the
      oldest evictable ones, in order, and they complete `kept` to `base`. */
  ghost predicate Evicts(base: Entries, key: string, kept: Entries, evicted: seq<Entry>)
  {
    Part(kept, base) &&
    (forall i :: 0 <= i < |evicted| ==>
      evicted[i].id in base && base[evicted[i].id] == evicted[i] && evicted[i].id !in kept &&
      Evictable(evicted[i], key)) &&
    (forall k :: k in base && k !in kept ==> base[k] in evicted) &&
    (forall i, j :: 0 <= i < j < |evicted| ==> Older(evicted[i], evicted[j])) &&
    (forall i, k :: 0 <= i < |evicted| && k in kept && Evictable(kept[k], key) ==> Older(evicted[i], kept[k]))
  }

  lemma EvictOne(base: Entries, key: string, kept: Entries, evicted: seq<Entry>, victim: Entry)
    requires KeysAreIds(base) && Evicts(base, key, kept, evicted)
    requires victim.id in kept && kept[victim.id] == victim && Evictable(victim, key)
    requires forall k :: k in kept && Evictable(kept[k], key) && k != victim.id ==> Older(victim, kept[k])
    ensures Evicts(base, key, kept - {victim.id}, evicted + [victim])
  {
    var more, left := evicted + [victim], kept - {victim.id};
    forall k | k in base && k !in left
      ensures base[k] in more
    {
      if k == victim.id { assert more[|evicted|] == victim; } else { assert base[k] in evicted; }
    }
  }

  /** Every untouchable entry of the base is kept. */
  lemma UntouchableKept(base: Entries, key: string, kept: Entries, evicted: seq<Entry>)
    requires KeysAreIds(base) && Evicts(base, key, kept, evicted)
    ensures Part(Untouchable(base, key), kept)
  {
    forall k | k in Untouchable(base, key)
      ensures k in kept
    {
      var e := base[k];
      assert k in kept || e in evicted;
    }
  }

  lemma NothingEvicted(base: Entries, key: string)
    ensures Evicts(base, key, base, [])
  {
  }

  /** When nothing evictable is left, only the untouchable entries are. */
  lemma OnlyUntouchable(base: Entries, key: string, kept: Entries, evicted: seq<Entry>)
    requires KeysAreIds(base) && Evicts(base, key, kept, evicted)
    requires forall k :: k in kept ==> !Evictable(kept[k], key)
    ensures kept == Untouchable(base, key)
  {
    UntouchableKept(base, key, kept, evicted);
  }

  lemma KeptKeys(base: Entries, key: string, kept: Entries, evicted: seq<Entry>)
    requires KeysAreIds(base) && Evicts(base, key, kept, evicted)
    ensures KeysAreIds(kept) && (key in base ==> key in kept && kept[key] == base[key])
    ensures Sum(Untouchable(base, key)) <= Sum(kept)
  {
    UntouchableKept(base, key, kept, evicted);
    SumMonotone(Untouchable(base, key), kept);
    assert key in base ==> key in Untouchable(base, key);
  }

  /** Undoing the insertion of e after a failed eviction. */
  lemma Restored(before: Entries, e: Entry)
    requires KeysAreIds(before)
    ensures var left := Untouchable(before[e.id := e], e.id);
      (if e.id in before then left[e.id := before[e.id]] else left - {e.id}) == Untouchable(before, e.id)
  {
    hide Sum;
    var left, u := Untouchable(before[e.id := e], e.id), Untouchable(before, e.id);
    var r := if e.id in before then left[e.id := before[e.id]] else left - {e.id};
    assert forall k :: k in left <==> k == e.id || (k in before && before[k].pinned);
    assert forall k :: k in u <==> k in before && (k == e.id || before[k].pinned);
    assert forall k :: k in r <==> k in u;
    assert forall k :: k in r ==> r[k] == u[k];
  }

  lemma UntouchableFits(before: Entries, key: string)
    requires KeysAreIds(before)
    ensures KeysAreIds(Untouchable(before, key)) && Sum(Untouchable(before, key)) <= Sum(before)
  {
    SumMonotone(Untouchable(before, key), before);
  }

  class MediaCache {
    const maxBytes: u64
    var entries: Entries

    /** The budget holds, and entries are stored under their media ids. */
    ghost predicate Valid()
      reads this
    {
      KeysAreIds(entries) && Saturate(Sum(entries)) <= maxBytes
    }

    constructor (maxBytes: u64)
      requires maxBytes != 0
      ensures Valid() && entries == map[] && this.maxBytes == maxBytes
    {
      this.maxBytes := maxBytes;
      entries := map[];
    }

    method Get(id: string, now: i64) returns (r: Option<Entry>)
      requires Valid()
      modifies this
      ensures Valid()
      ensures id !in old(entries) ==> r == None && entries == old(entries)
      ensures id in old(entries) ==>
        r == Some(old(entries)[id].(accessed := now)) &&
        entries == old(entries)[id := old(entries)[id].(accessed := now)]
    {
      if id !in entries {
        return None;
      }
      SameSizes(entries, id, entries[id].(accessed := now));
      entries := entries[id := entries[id].(accessed := now)];
      return Some(entries[id]);
    }

    method SetPinned(id: string, pinned: bool) returns (found: bool)
      requires Valid()
      modifies this
      ensures Valid() && found == (id in old(entries))
      ensures entries == if found then old(entries)[id := old(entries)[id].(pinned := pinned)] else old(entries)
    {
      if id !in entries {
        return false;
      }
      SameSizes(entries, id, entries[id].(pinned := pinned));
      entries := entries[id := entries[id].(pinned := pinned)];
      return true;
    }

    method Remove(id: string)
      requires Valid()
      modifies this
      ensures Valid() && entries == old(entries) - {id}
    {
      SumMonotone(entries - {id}, entries);
      entries := entries - {id};
    }

    /** `evict_to_budget`. */
    method EvictToBudget(key: string) returns (r: Result<seq<Entry>, CacheError>)
      requires KeysAreIds(entries)
      modifies this
      ensures r.Ok? <==> Saturate(Sum(Untouchable(old(entries), key))) <= maxBytes
      ensures r.Ok? ==> Saturate(Sum(entries)) <= maxBytes && Evicts(old(entries), key, entries, r.value)
      ensures r.Ok? && r.value != [] ==>
        var last := r.value[|r.value| - 1]; Saturate(Sum(entries[last.id := last])) > maxBytes
      ensures r.Err? ==> r.error == PinnedEntriesExceedBudget && entries == Untouchable(old(entries), key)
    {
      hide Evicts, Sum, Untouchable, Evictable, Older;
      ghost var base := entries;
      var evicted: seq<Entry> := [];
      var total := TotalBytes(entries);
      NothingEvicted(base, key);
      while total > maxBytes
        invariant KeysAreIds(entries) && Evicts(base, key, entries, evicted) && total == Saturate(Sum(entries))
        invariant evicted != [] ==>
          var last := evicted[|evicted| - 1]; Saturate(Sum(entries[last.id := last])) > maxBytes
        decreases |entries|
      {
        var candidate := OldestVictim(entries, key);
        if candidate.None? {
          OnlyUntouchable(base, key, entries, evicted);
          return Err(PinnedEntriesExceedBudget);
        }
        var victim := candidate.value;
        EvictOne(base, key, entries, evicted, victim);
        assert (entries - {victim.id})[victim.id := victim] == entries;
        entries := entries - {victim.id};
        evicted := evicted + [victim];
        total := TotalBytes(entries);
      }
      KeptKeys(base, key, entries, evicted);
      return Ok(evicted);
    }

    /** `insert`: fails on the budget exactly when the new entry and the other pinned ones
        exceed it; otherwise splits the old entries and the new one into kept and evicted. */
    method Insert(e: Entry) returns (r: Result<seq<Entry>, CacheError>)
      requires Valid()
      modifies this
      ensures Valid()
      ensures Trim(e.id) == "" ==> r == Err(InvalidMediaId) && entries == old(entries)
      ensures Trim(e.id) != "" && Trim(e.path) == "" ==> r == Err(InvalidLocalPath) && entries == old(entries)
      ensures Trim(e.id) != "" && Trim(e.path) != "" && e.size > maxBytes ==>
        r == Err(EntryTooLarge) && entries == old(entries)
      ensures Trim(e.id) != "" && Trim(e.path) != "" && e.size <= maxBytes ==>
        (r.Ok? <==> Saturate(Sum(Untouchable(old(entries)[e.id := e], e.id))) <= maxBytes) &&
        (r.Ok? ==> Evicts(old(entries)[e.id := e], e.id, entries, r.value) && e.id in entries) &&
        (r.Ok? && r.value != [] ==>
          var last := r.value[|r.value| - 1]; Saturate(Sum(entries[last.id := last])) > maxBytes) &&
        (r.Err? ==> r.error == PinnedEntriesExceedBudget && entries == Untouchable(old(entries), e.id))
    {
      hide Evicts, Sum, Untouchable, Trim;
      if Trim(e.id) == "" {
        return Err(InvalidMediaId);
      }
      if Trim(e.path) == "" {
        return Err(InvalidLocalPath);
      }
      if e.size > maxBytes {
        return Err(EntryTooLarge);
      }
      ghost var before := entries;
      var previous := if e.id in entries then Some(entries[e.id]) else None;
      entries := entries[e.id := e];
      ghost var base := entries;
      r := EvictToBudget(e.id);
      if r.Ok? {
        KeptKeys(base, e.id, entries, r.value);
      } else {
        Restored(before, e);
        UntouchableFits(before, e.id);
        if previous.Some? {
          entries := entries[e.id := previous.value];
        } else {
          entries := entries - {e.id};
        }
      }
    }
  }

  lemma SameSizes(m: Entries, k: string, e: Entry)
    requires k in m && e.size == m[k].size
    ensures Sum(m[k := e]) == Sum(m)
  {
    SumWithout(m, k);
    SumWithout(m[k := e], k);
    assert m[k := e] - {k} == m - {k};
  }
}
