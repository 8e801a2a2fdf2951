/** The media transfer queue: scheduling, progress and integrity over every run, and the
    tiling of a file by its chunk plan. */
module Transfers {
  import opened Wrappers
  import opened Bytes
  import opened Text
  import opened NumberTheory

  datatype Direction = Upload | Download

  datatype TransferState =
    | Queued
    | Running
    | Paused
    | Failed(code: string, retryable: bool)
    | Completed(sha256: Option<string>)
    | Canceled

  predicate IsTerminal(s: TransferState)
  {
    s.Completed? || s.Canceled?
  }

  /** Priorities are ordered: background 0, normal 1, user initiated 2, realtime 3. */
  type Priority = p: int | 0 <= p < 4

  datatype Transfer = Transfer(
    id: string, fileId: string, direction: Direction, priority: Priority, totalBytes: u64, completedBytes: u64,
    chunkSize: u32, expectedSha: Option<string>, state: TransferState, enqueueOrder: u64, attempt: u32)

  datatype Queue = Queue(transfers: map<string, Transfer>, maxConcurrent: nat, nextOrder: u64)

  datatype Command =
    | Enqueue(id: string, fileId: string, direction: Direction, priority: Priority, totalBytes: u64, chunkSize: u32,
      sha: Option<string>)
    | Start(id: string)
    | RecordChunk(id: string, offset: u64, written: u32)
    | Pause(id: string)
    | Resume(id: string)
    | Fail(id: string, code: string, retryable: bool)
    | Retry(id: string)
    | Complete(id: string, sha: Option<string>)
    | Cancel(id: string)
    | SetPriority(id: string, priority: Priority)

  datatype TransferError =
    | InvalidTransferId
    | DuplicateTransfer
    | TransferNotFound
    | InvalidSize
    | InvalidSha256
    | NoAvailableSlot
    | InvalidTransition
    | UnexpectedChunkOffset
    | InvalidChunkLength
    | IncompleteTransfer
    | IntegrityMismatch
    | AttemptCounterExhausted

  /** The transfer an accepted command leaves behind. */
  datatype Decision = Accept(transfer: Transfer) | Refuse(error: TransferError)

  // -------------------------------------------------------------------- hashes

  predicate IsHex(c: char)
  {
    '0' <= c <= '9' || 'a' <= c <= 'f'
  }

  function Lower(c: char): char
  {
    if 'A' <= c <= 'Z' then (c as int + 32) as char else c
  }

  function LowerAll(s: string): (r: string)
    ensures |r| == |s|
  {
    seq(|s|, i requires 0 <= i < |s| => Lower(s[i]))
  }

  /** `normalize_sha256`. */
  function NormalizeSha(s: string): Option<string>
  {
    var v := LowerAll(Trim(s));
    if |v| == 64 && forall i | 0 <= i < |v| :: IsHex(v[i]) then Some(v) else None
  }

  // ------------------------------------------------------------ decide and apply

  function RunningIds(q: Queue): set<string>
  {
    set id | id in q.transfers && q.transfers[id].state == Running
  }

  predicate HasSlot(q: Queue)
  {
    |RunningIds(q)| < q.maxConcurrent
  }

  function DecideEnqueue(q: Queue, c: Command): Decision
    requires c.Enqueue?
  {
    if Trim(c.id) == "" || Utf8Len(c.id) > 128 then Refuse(InvalidTransferId)
    else if c.id in q.transfers then Refuse(DuplicateTransfer)
    else if c.totalBytes == 0 || c.chunkSize == 0 then Refuse(InvalidSize)
    else if c.sha.Some? && NormalizeSha(c.sha.value).None? then Refuse(InvalidSha256)
    else
      Accept(Transfer(c.id, c.fileId, c.direction, c.priority, c.totalBytes, 0, c.chunkSize,
                      if c.sha.Some? then NormalizeSha(c.sha.value) else None, Queued, q.nextOrder, 0))
  }

  function DecideComplete(t: Transfer, sha: Option<string>): Decision
  {
    var actual := if sha.Some? then NormalizeSha(sha.value) else None;
    if t.state != Running then Refuse(InvalidTransition)
    else if t.completedBytes != t.totalBytes then Refuse(IncompleteTransfer)
    else if sha.Some? && actual.None? then Refuse(InvalidSha256)
    else if t.expectedSha.Some? && actual != t.expectedSha then Refuse(IntegrityMismatch)
    else Accept(t.(state := Completed(actual)))
  }

  /** Commands on an existing transfer; free says whether a slot is available. */
  function DecideOn(t: Transfer, c: Command, free: bool): Decision
  {
    match c
    case Enqueue(_, _, _, _, _, _, _) => Refuse(DuplicateTransfer)
    case Start(_) =>
      if t.state != Queued then Refuse(InvalidTransition) else if !free then Refuse(NoAvailableSlot)
      else Accept(t.(state := Running))
    case RecordChunk(_, offset, written) =>
      if t.state != Running then Refuse(InvalidTransition)
      else if offset != t.completedBytes then Refuse(UnexpectedChunkOffset)
      else if written == 0 || t.completedBytes + written > t.totalBytes then Refuse(InvalidChunkLength)
      else Accept(t.(completedBytes := t.completedBytes + written))
    case Pause(_) => if t.state != Running then Refuse(InvalidTransition) else Accept(t.(state := Paused))
    case Resume(_) =>
      if t.state != Paused then Refuse(InvalidTransition) else if !free then Refuse(NoAvailableSlot)
      else Accept(t.(state := Running))
    case Fail(_, code, retryable) =>
      if t.state != Running then Refuse(InvalidTransition) else Accept(t.(state := Failed(code, retryable)))
    case Retry(_) =>
      if !t.state.Failed? || !t.state.retryable then Refuse(InvalidTransition)
      else if t.attempt + 1 >= U32_END then Refuse(AttemptCounterExhausted)
      else Accept(t.(attempt := t.attempt + 1, state := Queued))
    case Complete(_, sha) => DecideComplete(t, sha)
    case Cancel(_) => if IsTerminal(t.state) then Refuse(InvalidTransition) else Accept(t.(state := Canceled))
    case SetPriority(_, priority) =>
      if IsTerminal(t.state) then Refuse(InvalidTransition) else Accept(t.(priority := priority))
  }

  function Decide(q: Queue, c: Command): Decision
  {
    if c.Enqueue? then DecideEnqueue(q, c)
    else if c.id !in q.transfers then Refuse(TransferNotFound)
    else DecideOn(q.transfers[c.id], c, HasSlot(q))
  }

  function Execute(q: Queue, c: Command): Queue
  {
    var d := Decide(q, c);
    if d.Refuse? then q
    else
      var order := if q.nextOrder + 1 >= U64_END then q.nextOrder else q.nextOrder + 1;
      Queue(q.transfers[c.id := d.transfer], q.maxConcurrent, if c.Enqueue? then order else q.nextOrder)
  }

  function Run(q: Queue, commands: seq<Command>): Queue
    decreases |commands|
  {
    if commands == [] then q else Run(Execute(q, commands[0]), commands[1..])
  }

  // ----------------------------------------------------------- kept by every run

  ghost predicate TransferOk(id: string, t: Transfer)
  {
    t.id == id && t.completedBytes <= t.totalBytes && 0 < t.totalBytes && 0 < t.chunkSize &&
    (t.state.Completed? ==>
      t.completedBytes == t.totalBytes && (t.expectedSha.Some? ==> t.state.sha256 == t.expectedSha))
  }

  /** No more than the allowed transfers run; progress stays within the file; a completed
      transfer has all its bytes and the expected hash. */
  ghost predicate Inv(q: Queue)
  {
    0 < q.maxConcurrent && |RunningIds(q)| <= q.maxConcurrent &&
    forall id :: id in q.transfers ==> TransferOk(id, q.transfers[id])
  }

  lemma AcceptedIsOk(q: Queue, c: Command)
    requires Inv(q) && Decide(q, c).Accept?
    ensures TransferOk(c.id, Decide(q, c).transfer)
  {
    hide RunningIds, NormalizeSha, Trim;
    if c.id in q.transfers { assert TransferOk(c.id, q.transfers[c.id]); }
  }

  lemma RunningAfter(q: Queue, id: string, t: Transfer)
    ensures var after := RunningIds(q.(transfers := q.transfers[id := t]));
      after == if t.state == Running then RunningIds(q) + {id} else RunningIds(q) - {id}
  {
  }

  /** A transfer enters the running state only through a free slot. */
  lemma EntersThroughSlot(q: Queue, c: Command)
    requires Decide(q, c).Accept? && Decide(q, c).transfer.state == Running
    ensures HasSlot(q) || c.id in RunningIds(q)
  {
    hide NormalizeSha, Trim, HasSlot;
  }

  lemma StepKeepsInv(q: Queue, c: Command)
    requires Inv(q)
    ensures Inv(Execute(q, c))
  {
    hide Decide, TransferOk;
    var d := Decide(q, c);
    if d.Accept? {
      AcceptedIsOk(q, c);
      RunningAfter(q, c.id, d.transfer);
      var next := Execute(q, c);
      assert RunningIds(next) == RunningIds(q.(transfers := q.transfers[c.id := d.transfer]));
      if d.transfer.state == Running { EntersThroughSlot(q, c); }
    }
  }

  lemma {:induction false} RunsKeepInv(q: Queue, commands: seq<Command>)
    requires Inv(q)
    ensures Inv(Run(q, commands))
    decreases |commands|
  {
    hide Inv, Execute;
    if commands != [] {
      StepKeepsInv(q, commands[0]);
      RunsKeepInv(Execute(q, commands[0]), commands[1..]);
    }
  }

  /** What may become of a transfer: its identity and size are fixed, its bytes only grow,
      and a terminal transfer stays exactly as it is. */
  predicate Evolves(t: Transfer, u: Transfer)
  {
    u.id == t.id && u.totalBytes == t.totalBytes && u.chunkSize == t.chunkSize && u.expectedSha == t.expectedSha &&
    u.enqueueOrder == t.enqueueOrder && t.completedBytes <= u.completedBytes && (IsTerminal(t.state) ==> u == t)
  }

  lemma StepEvolves(q: Queue, c: Command, id: string)
    requires id in q.transfers
    ensures id in Execute(q, c).transfers && Evolves(q.transfers[id], Execute(q, c).transfers[id])
  {
    hide NormalizeSha, Trim, HasSlot;
  }

  /** Over every run no transfer disappears, completed bytes only grow and terminal states
      are final. */
  lemma {:induction false} RunsEvolve(q: Queue, commands: seq<Command>, id: string)
    requires id in q.transfers
    ensures id in Run(q, commands).transfers && Evolves(q.transfers[id], Run(q, commands).transfers[id])
    decreases |commands|
  {
    hide Execute;
    if commands != [] {
      StepEvolves(q, commands[0], id);
      RunsEvolve(Execute(q, commands[0]), commands[1..], id);
    }
  }

  // ------------------------------------------------------------------ scheduling

  /** a is scheduled no later than b. */
  predicate Precedes(a: Transfer, b: Transfer)
  {
    a.priority > b.priority || (a.priority == b.priority && a.enqueueOrder <= b.enqueueOrder)
  }

  /** `next_ready`: None exactly when no slot is free or nothing is queued; otherwise a queued
      transfer of the highest priority, the earliest of those. */
  method NextReady(q: Queue) returns (r: Option<Transfer>)
    requires Inv(q)
    ensures r.None? <==> !HasSlot(q) || forall id :: id in q.transfers ==> q.transfers[id].state != Queued
    ensures r.Some? ==> r.value.id in q.transfers && q.transfers[r.value.id] == r.value && r.value.state == Queued
    ensures r.Some? ==> forall id :: id in q.transfers && q.transfers[id].state == Queued ==>
      var t := q.transfers[id];
      t.priority < r.value.priority || (t.priority == r.value.priority && r.value.enqueueOrder <= t.enqueueOrder)
  {
    hide HasSlot;
    r := None;
    if !HasSlot(q) {
      return;
    }
    var rest := q.transfers.Keys;
    while rest != {}
      invariant rest <= q.transfers.Keys
      invariant r.None? ==> forall id :: id in q.transfers && id !in rest ==> q.transfers[id].state != Queued
      invariant r.Some? ==> r.value.id in q.transfers && q.transfers[r.value.id] == r.value && r.value.state == Queued
      invariant r.Some? ==>
        forall id :: id in q.transfers && id !in rest && q.transfers[id].state == Queued ==>
          Precedes(r.value, q.transfers[id])
      decreases rest
    {
      var id :| id in rest;
      var t := q.transfers[id];
      assert TransferOk(id, t);
      if t.state == Queued && (r.None? || !Precedes(r.value, t)) {
        r := Some(t);
      }
      rest := rest - {id};
    }
  }

  /** Starting any queued transfer while a slot is free succeeds, so starting whatever
      `next_ready` returns always does. */
  lemma ReadyStarts(q: Queue, t: Transfer)
    requires HasSlot(q) && t.id in q.transfers && q.transfers[t.id] == t && t.state == Queued
    ensures Decide(q, Start(t.id)) == Accept(t.(state := Running))
  {
  }

  // ---------------------------------------------------------------------- chunks

  datatype Chunk = Chunk(offset: u64, length: u32)

  /** `next_chunk`. */
  function NextChunk(t: Transfer): Option<Chunk>
  {
    if IsTerminal(t.state) || t.completedBytes >= t.totalBytes then None
    else
      var remaining := t.totalBytes - t.completedBytes;
      Some(Chunk(t.completedBytes, if remaining < t.chunkSize then remaining else t.chunkSize))
  }

  /** The chunks that driving a transfer by its plan records, from its current progress. */
  function Plan(t: Transfer): seq<Chunk>
    requires 0 < t.chunkSize
    decreases t.totalBytes - t.completedBytes
  {
    var c := NextChunk(t);
    if c.None? then [] else [c.value] + Plan(t.(completedBytes := c.value.offset + c.value.length))
  }

  function Commands(id: string, plan: seq<Chunk>): (r: seq<Command>)
    ensures |r| == |plan|
  {
    seq(|plan|, i requires 0 <= i < |plan| => RecordChunk(id, plan[i].offset, plan[i].length))
  }

  function CeilDiv(n: nat, d: nat): nat
    requires 0 < d
  {
    (n + d - 1) / d
  }

  /** The plan tiles the rest of the file: it starts at the current progress, each chunk
      starts where the one before it ended, and the last ends at the total. */
  predicate Tiles(plan: seq<Chunk>, start: nat, end: nat)
    decreases |plan|
  {
    if plan == [] then start == end
    else plan[0].offset == start && 0 < plan[0].length && Tiles(plan[1..], start + plan[0].length, end)
  }

  lemma {:induction false} PlanTiles(t: Transfer)
    requires 0 < t.chunkSize && t.completedBytes <= t.totalBytes && !IsTerminal(t.state)
    ensures Tiles(Plan(t), t.completedBytes, t.totalBytes)
    ensures forall i :: 0 <= i < |Plan(t)| ==> Plan(t)[i].length <= t.chunkSize
    ensures |Plan(t)| == CeilDiv(t.totalBytes - t.completedBytes, t.chunkSize)
    decreases t.totalBytes - t.completedBytes
  {
    var c := NextChunk(t);
    var remaining := t.totalBytes - t.completedBytes;
    CeilStep(remaining, t.chunkSize);
    if c.Some? {
      PlanTiles(t.(completedBytes := c.value.offset + c.value.length));
      assert Plan(t)[1..] == Plan(t.(completedBytes := c.value.offset + c.value.length));
    }
  }

  lemma CeilStep(n: nat, d: nat)
    requires 0 < d
    ensures n == 0 ==> CeilDiv(n, d) == 0
    ensures 0 < n <= d ==> CeilDiv(n, d) == 1
    ensures d < n ==> CeilDiv(n, d) == 1 + CeilDiv(n - d, d)
  {
    if 0 < n <= d {
      assert d <= n + d - 1 < 2 * d;
      DivIs(n + d - 1, d, 1);
    } else if n == 0 {
      DivIs(d - 1, d, 0);
    } else {
      var q := (n - 1) / d;
      assert n - 1 == d * q + (n - 1) % d;
      DivIs(n - d + d - 1, d, q);
      assert d * (q + 1) == d * q + d;
      DivIs(n + d - 1, d, q + 1);
    }
  }

  lemma DivIs(n: nat, d: nat, q: nat)
    requires 0 < d && d * q <= n < d * q + d
    ensures n / d == q
  {
    QuotientUnique(n, d, q, n - d * q);
  }

  /** Every recorded chunk of the plan is accepted, in order, and afterwards the transfer
      holds all its bytes, still running: only the hash stands between it and completion. */
  lemma {:induction false} DrivingSucceeds(q: Queue, id: string)
    requires Inv(q) && id in q.transfers && q.transfers[id].state == Running
    ensures var t := q.transfers[id];
      var after := Run(q, Commands(id, Plan(t)));
      id in after.transfers && after.transfers[id] == t.(completedBytes := t.totalBytes)
    decreases q.transfers[id].totalBytes - q.transfers[id].completedBytes
  {
    hide Inv, HasSlot;
    var t := q.transfers[id];
    InvTransfer(q, id);
    var c := NextChunk(t);
    if c.Some? {
      var command := RecordChunk(id, c.value.offset, c.value.length);
      var next := t.(completedBytes := c.value.offset + c.value.length);
      assert Execute(q, command) == q.(transfers := q.transfers[id := next]);
      StepKeepsInv(q, command);
      DrivingSucceeds(Execute(q, command), id);
      assert Commands(id, Plan(t))[1..] == Commands(id, Plan(next));
      assert Commands(id, Plan(t))[0] == command;
    }
  }

  lemma InvTransfer(q: Queue, id: string)
    requires Inv(q) && id in q.transfers
    ensures 0 < q.transfers[id].chunkSize && q.transfers[id].completedBytes <= q.transfers[id].totalBytes
  {
    assert TransferOk(id, q.transfers[id]);
  }

  /** Then completion succeeds exactly when the reported hash is well formed, or absent, and
      equals the expected one if there is one. */
  lemma CompletesIff(t: Transfer, sha: Option<string>)
    requires t.state == Running && t.completedBytes == t.totalBytes
    ensures var actual := if sha.Some? then NormalizeSha(sha.value) else None;
      DecideComplete(t, sha).Accept? <==>
        (sha.Some? ==> actual.Some?) && (t.expectedSha.Some? ==> actual == t.expectedSha)
  {
  }

  /** The queue object. */
  class TransferQueue {
    var transfers: map<string, Transfer>
    const maxConcurrent: nat
    var nextOrder: u64

    function Value(): Queue
      reads this
    {
      Queue(transfers, maxConcurrent, nextOrder)
    }

    constructor (maxConcurrent: nat)
      ensures Inv(Value()) && transfers == map[] && nextOrder == 0
      ensures this.maxConcurrent == if maxConcurrent == 0 then 1 else maxConcurrent
    {
      transfers := map[];
      this.maxConcurrent := if maxConcurrent == 0 then 1 else maxConcurrent;
      nextOrder := 0;
    }

    method ExecuteCommand(c: Command) returns (d: Decision)
      requires Inv(Value())
      modifies this
      ensures d == Decide(old(Value()), c) && Value() == Execute(old(Value()), c) && Inv(Value())
    {
      StepKeepsInv(Value(), c);
      hide Inv, Decide;
      d := Decide(Value(), c);
      if d.Accept? {
        transfers := transfers[c.id := d.transfer];
        if c.Enqueue? && nextOrder + 1 < U64_END {
          nextOrder := nextOrder + 1;
        }
      }
    }
  }
}
