/** MTProto message identifiers: the server-id replay guard as a refinement of the set of all
    ids ever accepted, the client-id generator and the sequence-number counter. */
module Session {
  import opened Wrappers
  import opened Bytes
  import opened NumberTheory

  datatype MessageIdError = OutOfRange | InvalidServerParity | OutsideTimeWindow | Replay | InvalidFraction

  // ------------------------------------------------------------------ server ids

  ghost function Larger(ids: set<i64>, id: i64): set<i64>
  {
    set x | x in ids && id < x
  }

  /** The n largest members of a set (all of them while there are fewer). */
  ghost function Largest(ids: set<i64>, n: nat): set<i64>
  {
    set x | x in ids && |Larger(ids, x)| < n
  }

  function SaturatingShift(a: i64, d: int): i64
  {
    if a + d >= I64_END then I64_END - 1 else if a + d < -I64_END then -I64_END else a + d
  }

  predicate InTime(id: i64, now: i64)
  {
    SaturatingShift(now, -300) <= id / U32_END <= SaturatingShift(now, 30)
  }

  /** The specification of the guard, from the set of all ids ever accepted: an id is a
      replay when it was accepted before or n larger ones were. */
  ghost function Verdict(ever: set<i64>, n: nat, id: i64, now: i64): Option<MessageIdError>
  {
    if id % 2 != 1 then Some(InvalidServerParity)
    else if !InTime(id, now) then Some(OutsideTimeWindow)
    else if id in ever || |Larger(ever, id)| >= n then Some(Replay)
    else None
  }

  /** recent is an upper part of ever with n members, or all of ever while it is smaller. */
  ghost predicate TopPart(recent: set<i64>, ever: set<i64>, n: nat)
  {
    recent <= ever && |recent| <= n && (|recent| < n ==> recent == ever) &&
    forall x, y :: x in ever && x !in recent && y in recent ==> x < y
  }

  lemma SubsetSize(a: set<i64>, b: set<i64>)
    requires a <= b
    ensures |a| <= |b|
  {
    assert b == a + (b - a);
  }

  /** An upper part is exactly the n largest ids. */
  lemma TopPartIsLargest(recent: set<i64>, ever: set<i64>, n: nat)
    requires TopPart(recent, ever, n)
    ensures recent == Largest(ever, n)
  {
    forall x | x in ever
      ensures x in recent <==> |Larger(ever, x)| < n
    {
      if x in recent {
        SubsetSize(Larger(ever, x), recent - {x});
      } else {
        SubsetSize(recent, Larger(ever, x));
      }
    }
  }

  /** The guard's own test agrees with the specification on every id. */
  lemma TestIsVerdict(recent: set<i64>, ever: set<i64>, n: nat, id: i64)
    requires TopPart(recent, ever, n) && 0 < n
    ensures id in recent || (|recent| >= n && forall y :: y in recent ==> id <= y) <==>
      id in ever || |Larger(ever, id)| >= n
  {
    if forall y :: y in recent ==> id < y {
      SubsetSize(recent, Larger(ever, id));
      SubsetSize(Larger(ever, id), ever);
    } else {
      var y :| y in recent && y <= id;
      SubsetSize(Larger(ever, id), recent - {y});
    }
  }

  /** Accepting an id keeps the upper part, directly while there is room ... */
  lemma InsertKeepsTop(recent: set<i64>, ever: set<i64>, n: nat, id: i64)
    requires TopPart(recent, ever, n) && |recent| < n && id !in recent
    ensures TopPart(recent + {id}, ever + {id}, n)
  {
  }

  /** ... and by dropping the least member otherwise. */
  lemma PopKeepsTop(recent: set<i64>, ever: set<i64>, n: nat, id: i64, least: i64)
    requires TopPart(recent, ever, n) && n <= |recent| && id !in recent
    requires exists y :: y in recent && y < id
    requires least in recent + {id} && forall y :: y in recent + {id} ==> least <= y
    ensures TopPart(recent + {id} - {least}, ever + {id}, n) && |recent + {id} - {least}| == n
  {
    assert recent + {id} - {least} == recent - {least} + {id};
  }

  method Minimum(ids: set<i64>) returns (least: i64)
    requires ids != {}
    ensures least in ids && forall y :: y in ids ==> least <= y
  {
    least :| least in ids;
    var rest := ids - {least};
    while rest != {}
      invariant least in ids && rest <= ids
      invariant forall y :: y in ids && y !in rest ==> least <= y
      decreases rest
    {
      var y :| y in rest;
      if y < least { least := y; }
      rest := rest - {y};
    }
  }

  // ------------------------------------------------------------------ client ids

  /** The id a clock reading asks for, before it is pushed past the last one. */
  function Candidate(seconds: i64, nanos: nat): int
  {
    var raw := seconds * U32_END + nanos * U32_END / 1_000_000_000;
    var aligned := raw - raw % 4;
    if aligned % U32_END == 0 then aligned + 4 else aligned
  }

  /** A candidate is a multiple of four that carries the clock's second in its upper half. */
  lemma CandidateKeepsTheSecond(seconds: i64, nanos: nat)
    requires nanos < 1_000_000_000
    ensures Candidate(seconds, nanos) % 4 == 0 && Candidate(seconds, nanos) / U32_END == seconds
  {
    var fraction := nanos * U32_END / 1_000_000_000;
    var raw := seconds * U32_END + fraction;
    assert 0 <= fraction < U32_END;
    var low := fraction - fraction % 4;
    QuotientUnique(raw, 4, seconds * 0x4000_0000 + fraction / 4, fraction % 4);
    LowPart(seconds, low);
    LowPart(seconds, low + 4);
  }

  lemma LowPart(seconds: i64, low: nat)
    requires low % 4 == 0
    ensures (seconds * U32_END + low) % 4 == 0
    ensures low < U32_END ==>
      (seconds * U32_END + low) / U32_END == seconds && (seconds * U32_END + low) % U32_END == low
  {
    QuotientUnique(seconds * U32_END + low, 4, seconds * 0x4000_0000 + low / 4, 0);
    if low < U32_END { QuotientUnique(seconds * U32_END + low, U32_END, seconds, low); }
  }

  function ClientIdOf(last: Option<i64>, seconds: i64, nanos: u32): Result<i64, MessageIdError>
  {
    if nanos >= 1_000_000_000 then Err(InvalidFraction)
    else
      var candidate := Candidate(seconds, nanos);
      var id := if last.Some? && candidate < last.value + 4 then last.value + 4 else candidate;
      if -I64_END <= id < I64_END then Ok(id) else Err(OutOfRange)
  }

  datatype Clock = Clock(seconds: i64, nanos: u32)

  function NextLast(last: Option<i64>, r: Result<i64, MessageIdError>): Option<i64>
  {
    if r.Ok? then Some(r.value) else last
  }

  function ClientRun(last: Option<i64>, clocks: seq<Clock>): (r: seq<Result<i64, MessageIdError>>)
    ensures |r| == |clocks|
    decreases |clocks|
  {
    if clocks == [] then []
    else
      var id := ClientIdOf(last, clocks[0].seconds, clocks[0].nanos);
      [id] + ClientRun(NextLast(last, id), clocks[1..])
  }

  lemma NextClientId(last: Option<i64>, c: Clock)
    requires last.Some? ==> last.value % 4 == 0
    ensures var r := ClientIdOf(last, c.seconds, c.nanos);
      r.Ok? ==> r.value % 4 == 0 && (last.Some? ==> last.value < r.value)
  {
    hide Candidate;
    if c.nanos < 1_000_000_000 { CandidateKeepsTheSecond(c.seconds, c.nanos); }
  }

  /** Whatever the clock does, generated ids are multiples of four beyond the last one ... */
  lemma {:induction false} ClientIdsExceedLast(last: Option<i64>, clocks: seq<Clock>, j: nat)
    requires last.Some? ==> last.value % 4 == 0
    requires j < |clocks| && ClientRun(last, clocks)[j].Ok?
    ensures ClientRun(last, clocks)[j].value % 4 == 0
    ensures last.Some? ==> last.value < ClientRun(last, clocks)[j].value
    decreases |clocks|
  {
    hide ClientIdOf;
    var id := ClientIdOf(last, clocks[0].seconds, clocks[0].nanos);
    NextClientId(last, clocks[0]);
    if j != 0 { ClientIdsExceedLast(NextLast(last, id), clocks[1..], j - 1); }
  }

  /** ... so they strictly increase over every run, clock jumps and failed calls included. */
  lemma {:induction false} ClientIdsIncrease(last: Option<i64>, clocks: seq<Clock>, i: nat, j: nat)
    requires last.Some? ==> last.value % 4 == 0
    requires i < j < |clocks| && ClientRun(last, clocks)[i].Ok? && ClientRun(last, clocks)[j].Ok?
    ensures ClientRun(last, clocks)[i].value < ClientRun(last, clocks)[j].value
    decreases |clocks|
  {
    hide ClientIdOf;
    var id := ClientIdOf(last, clocks[0].seconds, clocks[0].nanos);
    NextClientId(last, clocks[0]);
    if i != 0 {
      ClientIdsIncrease(NextLast(last, id), clocks[1..], i - 1, j - 1);
    } else {
      ClientIdsExceedLast(NextLast(last, id), clocks[1..], j - 1);
    }
  }

  /** A forward clock is followed exactly: the id carries its second. */
  lemma ForwardClockIsKept(last: Option<i64>, c: Clock)
    requires c.nanos < 1_000_000_000 && (last.Some? ==> last.value / U32_END < c.seconds && last.value % 4 == 0)
    requires ClientIdOf(last, c.seconds, c.nanos).Ok?
    ensures ClientIdOf(last, c.seconds, c.nanos).value / U32_END == c.seconds
  {
    hide Candidate;
    CandidateKeepsTheSecond(c.seconds, c.nanos);
    var candidate := Candidate(c.seconds, c.nanos);
    assert candidate >= c.seconds * U32_END;
    if last.Some? { BelowSecond(last.value, c.seconds); }
  }

  lemma BelowSecond(last: i64, seconds: i64)
    requires last / U32_END < seconds && last % 4 == 0
    ensures last + 4 <= seconds * U32_END
  {
    assert last == U32_END * (last / U32_END) + last % U32_END;
    assert U32_END * (last / U32_END) <= U32_END * (seconds - 1);
    assert (U32_END - last % U32_END) % 4 == 0;
  }

  class MessageIdGuard {
    var lastClientId: Option<i64>
    var recent: set<i64>
    const windowSize: nat
    ghost var ever: set<i64>

    ghost predicate Valid()
      reads this
    {
      0 < windowSize && TopPart(recent, ever, windowSize) && (lastClientId.Some? ==> lastClientId.value % 4 == 0)
    }

    constructor (size: nat)
      ensures Valid() && ever == {} && lastClientId == None
      ensures windowSize == if size == 0 then 1 else size
    {
      lastClientId, recent, ever := None, {}, {};
      windowSize := if size == 0 then 1 else size;
    }

    method GenerateClientMessageId(seconds: i64, nanos: u32) returns (r: Result<i64, MessageIdError>)
      requires Valid()
      modifies this`lastClientId
      ensures Valid()
      ensures r == ClientIdOf(old(lastClientId), seconds, nanos) && lastClientId == NextLast(old(lastClientId), r)
    {
      if nanos >= 1_000_000_000 {
        return Err(InvalidFraction);
      }
      CandidateKeepsTheSecond(seconds, nanos);
      var candidate := seconds * U32_END + nanos * U32_END / 1_000_000_000;
      candidate := candidate - candidate % 4;
      if candidate % U32_END == 0 {
        candidate := candidate + 4;
      }
      if lastClientId.Some? && candidate < lastClientId.value + 4 {
        candidate := lastClientId.value + 4;
      }
      if !(-I64_END <= candidate < I64_END) {
        return Err(OutOfRange);
      }
      lastClientId := Some(candidate);
      return Ok(candidate);
    }

    method ValidateServerMessageId(id: i64, now: i64) returns (error: Option<MessageIdError>)
      requires Valid()
      modifies this`recent, this`ever
      ensures Valid()
      ensures error == Verdict(old(ever), windowSize, id, now)
      ensures ever == (if error.None? then old(ever) + {id} else old(ever))
      ensures recent == Largest(ever, windowSize)
    {
      hide TopPart, Largest, Larger;
      TopPartIsLargest(recent, ever, windowSize);
      if id % 2 != 1 {
        return Some(InvalidServerParity);
      }
      if !InTime(id, now) {
        return Some(OutsideTimeWindow);
      }
      TestIsVerdict(recent, ever, windowSize, id);
      var refused := id in recent;
      if !refused && |recent| >= windowSize {
        var minimum := Minimum(recent);
        refused := id <= minimum;
      }
      if refused {
        return Some(Replay);
      }
      ghost var before, all := recent, ever;
      if |recent| < windowSize { InsertKeepsTop(recent, ever, windowSize, id); }
      recent, ever := recent + {id}, ever + {id};
      while |recent| > windowSize
        invariant |recent| > windowSize ==> recent == before + {id}
        invariant |recent| <= windowSize ==> TopPart(recent, ever, windowSize)
        modifies this`recent
        decreases |recent|
      {
        var minimum := Minimum(recent);
        PopKeepsTop(before, all, windowSize, id, minimum);
        recent := recent - {minimum};
      }
      TopPartIsLargest(recent, ever, windowSize);
      return None;
    }
  }

  /** Pairwise distinct ids, none of them in ever. */
  predicate Novel(ever: set<i64>, ids: seq<i64>)
    decreases |ids|
  {
    ids == [] || (ids[0] !in ever && Novel(ever + {ids[0]}, ids[1..]))
  }

  lemma {:induction false} NovelMeansDistinct(ever: set<i64>, ids: seq<i64>, i: nat, j: nat)
    requires Novel(ever, ids) && i <= j < |ids|
    ensures ids[j] !in ever && (i < j ==> ids[i] != ids[j])
    decreases |ids|
  {
    if j != 0 { NovelMeansDistinct(ever + {ids[0]}, ids[1..], if i == 0 then 0 else i - 1, j - 1); }
  }

  /** A run of the guard's specification: the ids accepted out of a list of arrivals. */
  ghost function AcceptedIds(ever: set<i64>, n: nat, arrivals: seq<(i64, i64)>): seq<i64>
    decreases |arrivals|
  {
    if arrivals == [] then []
    else
      var a := arrivals[0];
      if Verdict(ever, n, a.0, a.1).None? then [a.0] + AcceptedIds(ever + {a.0}, n, arrivals[1..])
      else AcceptedIds(ever, n, arrivals[1..])
  }

  /** No server id is accepted twice over any run, however small the window. */
  lemma {:induction false} NoIdAcceptedTwice(ever: set<i64>, n: nat, arrivals: seq<(i64, i64)>)
    ensures Novel(ever, AcceptedIds(ever, n, arrivals))
    decreases |arrivals|
  {
    if arrivals != [] {
      var a := arrivals[0];
      if Verdict(ever, n, a.0, a.1).None? {
        NoIdAcceptedTwice(ever + {a.0}, n, arrivals[1..]);
      } else {
        NoIdAcceptedTwice(ever, n, arrivals[1..]);
      }
    }
  }

  // ------------------------------------------------------------ sequence numbers

  datatype SequenceError = CounterExhausted

  function SequenceOf(count: u32, contentRelated: bool): Result<i32, SequenceError>
  {
    var number := 2 * count + if contentRelated then 1 else 0;
    if number < I32_END then Ok(number) else Err(CounterExhausted)
  }

  function NextCount(count: u32, contentRelated: bool): u32
  {
    if contentRelated && SequenceOf(count, contentRelated).Ok? then count + 1 else count
  }

  class SessionSequence {
    var contentRelatedCount: u32

    constructor ()
      ensures contentRelatedCount == 0
    {
      contentRelatedCount := 0;
    }

    method Next(contentRelated: bool) returns (r: Result<i32, SequenceError>)
      modifies this
      ensures r == SequenceOf(old(contentRelatedCount), contentRelated)
      ensures contentRelatedCount == NextCount(old(contentRelatedCount), contentRelated)
    {
      var base := contentRelatedCount * 2;
      if base >= U32_END {
        return Err(CounterExhausted);
      }
      var sequence := base + if contentRelated then 1 else 0;
      if sequence >= I32_END {
        return Err(CounterExhausted);
      }
      if contentRelated {
        contentRelatedCount := contentRelatedCount + 1;
      }
      return Ok(sequence);
    }
  }

  function SequenceRun(count: u32, messages: seq<bool>): (r: seq<Result<i32, SequenceError>>)
    ensures |r| == |messages|
    decreases |messages|
  {
    if messages == [] then []
    else [SequenceOf(count, messages[0])] + SequenceRun(NextCount(count, messages[0]), messages[1..])
  }

  /** How many of the first j messages are content-related. */
  function Related(messages: seq<bool>, j: nat): nat
    requires j <= |messages|
  {
    if j == 0 then 0 else Related(messages, j - 1) + if messages[j - 1] then 1 else 0
  }

  lemma {:induction false} RelatedTail(messages: seq<bool>, j: nat)
    requires 0 < j <= |messages|
    ensures Related(messages, j) == Related(messages[1..], j - 1) + if messages[0] then 1 else 0
  {
    if j > 1 { RelatedTail(messages, j - 1); }
  }

  /** Over every run a successful call returns twice the number of content-related messages
      before it, plus one when it is content-related itself. */
  lemma {:induction false} SequenceCounts(count: u32, messages: seq<bool>, j: nat)
    requires j < |messages| && SequenceRun(count, messages)[j].Ok?
    ensures SequenceRun(count, messages)[j].value == 2 * (count + Related(messages, j)) + if messages[j] then 1 else 0
    decreases |messages|
  {
    if j != 0 {
      SequenceCounts(NextCount(count, messages[0]), messages[1..], j - 1);
      RelatedTail(messages, j);
      SuccessMeansRoom(NextCount(count, messages[0]), messages[1..], j - 1);
    }
  }

  /** A success is never preceded by a counted message that failed. */
  lemma {:induction false} SuccessMeansRoom(count: u32, messages: seq<bool>, j: nat)
    requires j < |messages| && SequenceRun(count, messages)[j].Ok?
    ensures 2 * count < I32_END
    decreases |messages|
  {
    if j != 0 { SuccessMeansRoom(NextCount(count, messages[0]), messages[1..], j - 1); }
  }
}
