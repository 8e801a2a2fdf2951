# Verified model of the Fabushi messaging core

A Dafny model of the deterministic heart of the repository's native crates: the durable sync
protocol of the messaging service, its wallet ledger and orders, community membership and
visibility, the MTProto client stack, secret chats, the media cache and the transfer queue.
`dafny verify dfyconfig.toml` checks everything.

| file | what it models |
|---|---|
| `Journal.dfy`, `Sync.dfy`, `Reach.dfy` | the event journal, its pruning and paging; the service and its clients as one state machine; when a delta is owed |
| `Versions.dfy`, `Effects.dfy` | the service cursor as a version number of the engine state; what each client command does to it |
| `Wallet.dfy`, `LedgerLaws.dfy`, `Orders.dfy`, `Checkout.dfy`, `PaymentCases.dfy`, `OrderSafety.dfy` | the ledger, what its balances mean, what payments move, orders over whole engine runs, inputs that break the laws, and exactly which commands keep the promise about orders |
| `Communities.dfy`, `Membership.dfy`, `Agreement.dfy`, `Authority.dfy`, `Visibility.dfy` | members, subscribers, join requests and participants; who may change and who sees what |
| `Srp.dfy`, `Handshake.dfy` | the password proof and the number theory of the key exchange |
| `Crypto.dfy`, `Transport.dfy`, `Tl.dfy`, `Soundness.dfy` | message encryption, stream framing, the wire codec; that what is accepted was sent |
| `Session.dfy`, `Rpc.dfy`, `Wire.dfy` | message ids and sequence numbers; scanning nested containers; service messages in bytes |
| `SecretChat.dfy` | the replay bitmap and the counters of a secret chat |
| `Layouts.dfy` | the byte layouts, key material, windows and tables that both ends of a theorem share, written out |
| `Cache.dfy`, `Transfers.dfy` | least-recently-used eviction; the transfer queue and its chunk plan |
| `NumberTheory.dfy`, `Bytes.dfy`, `Bits.dfy`, `Text.dfy`, `Wrappers.dfy` | Fermat's little theorem and modular powers, encodings, bit operations, strings, options |

State that the program changes in place is a class whose methods are proved against functions
on values; the laws are then lemmas about those functions over every run. Library primitives
(hashes, AES blocks, AEAD, CRC, key derivation) are parameters: of AES only that it permutes
blocks is assumed, of the AEAD only that opening undoes sealing. Clocks, randomness and bytes
from the network are parameters too.

Where a promise does not hold on every input, the model keeps the code, gives an input that
breaks it, and proves the exact condition:

- a transfer on its own keeps the ledger laws unless its credit overflows after the debit
  (`LedgerLaws.TransferKeepsInvIff`, `PaymentCases.OverflowIsReachable`);
- the promise about orders holds in every continuation unless a refund uses a known request id,
  or a refund or settlement one that poses as a checkout (`OrderSafety.HarmlessIff`,
  `PaymentCases.StaleRefundIsReachable`);
- participants agree with members in every continuation unless an upsert turns a conversation
  with a community into another kind, or doubles a participant where somebody may found a
  community (`Agreement.HarmlessIff`, with two example runs in `Membership.dfy`);
- only an Owner makes or unmakes an Owner, unless an administrator approves an Owner's own join
  request (`Authority.OwnershipIff`, `Authority.AdministratorDemotesOwner`);
- repeating a send is recognised as a repetition unless its content is secret and protection was
  not asked for (`Effects.RetryIff`);
- sync loses nothing, and the cursor is a version number, below the ceiling of the cursor
  (`Sync.BatchKeepsInvIff`, `Sync.EventIsLostAtCeiling`, `Versions.DistinguishesIff`);
- padded bodies that look like an acknowledgement are the ones not delivered
  (`Transport.ReceiveIgnoresChunking`), and values beyond the reader's limits the ones not read
  back (`Tl.ReadsBackIff`);
- a failed insertion into the cache does not bring evicted entries back
  (`Cache.MediaCache.Insert`).

## Model

| member | source | states |
|---|---|---|
| Srp.Padded256Lossless | native/telegram-protocol/src/srp.rs:174-180 | padding a value below 256^256 to 256 bytes decodes back to it, so nothing below the prime is lost |
| Srp.BlindingCancels | native/telegram-protocol/src/srp.rs:106-107 | (B + N - kv) never underflows and is congruent to g^b, for every B the server can publish |
| Srp.SecretsAgree | native/telegram-protocol/src/srp.rs:100-109 | for all g, x, a, b, k, u and N > 0 the client secret (B + N - kv)^(a+ux) equals the server secret (A v^u)^b modulo N |
| Srp.EvidenceConvinces | native/telegram-protocol/src/srp.rs:103-127 | the client's M1 is the one every honest server holding the verifier computes, whatever its secret exponent |
| Srp.XorInPlace | native/telegram-protocol/src/srp.rs:113-117 | the in-place loop computes the positionwise exclusive or |
| Srp.ComputeProof | native/telegram-protocol/src/srp.rs:63-135 | each refusal has exactly its cause, in the source's order; an accepted exchange yields A = g^a and evidence that convinces every honest server |
| Layouts.PasswordHashLayout | native/telegram-protocol/src/srp.rs:137-143 | x = SH(PBKDF2(SH(SH(password, salt1), salt2), salt1), salt2) |
| Layouts.EvidenceLayout | native/telegram-protocol/src/srp.rs:103-127 | M1, k and u as hashes of the listed parts in this order |
| Layouts.GeneratorTable | native/telegram-protocol/src/srp.rs:145-172 | which generators are accepted, each with its residue class of the prime |
| Handshake.PowerMod | native/telegram-protocol/src/handshake.rs:971-982 | square-and-multiply returns base^exponent mod modulus, for every modulus above zero |
| Handshake.GreatestCommonDivisor | native/telegram-protocol/src/handshake.rs:955-960 | the loop returns the greatest common divisor: it divides both and every common divisor divides it |
| Handshake.PrimeIsStrongProbablePrime | native/telegram-protocol/src/handshake.rs:996-1018 | a prime passes the strong test for every base it does not divide (by Fermat and the square roots of one) |
| Handshake.PrimePasses | native/telegram-protocol/src/handshake.rs:984-1020 | every prime satisfies the specification of the whole test |
| Handshake.TrialDivision | native/telegram-protocol/src/handshake.rs:988-995 | trial division tells small primes, multiples of small primes and the rest apart |
| Handshake.StrongTest | native/telegram-protocol/src/handshake.rs:1003-1017 | the squaring loop decides the strong probable prime property of one base |
| Handshake.StrongPhase | native/telegram-protocol/src/handshake.rs:996-1019 | the loop over the seven bases accepts exactly the values that pass each base |
| Handshake.IsPrime | native/telegram-protocol/src/handshake.rs:984-1020 | returns exactly the specified test, and true for every prime |
| Handshake.PollardRhoFactor | native/telegram-protocol/src/handshake.rs:1022-1047 | 2 and 3 first, then the factor by the first of the constants 1 to 128 that splits the value; it fails only if none does, and whatever it returns is a proper divisor of values of at least 4 |
| Handshake.RhoWalk | native/telegram-protocol/src/handshake.rs:1030-1044 | one constant: the factor at the first round whose gap shares one with the value, if it is proper; otherwise no round splits the value |
| Handshake.SemiprimeSplit | native/telegram-protocol/src/handshake.rs:492-511 | a product of two primes splits in no other way |
| Handshake.BeEncodingRoundTrip | native/telegram-protocol/src/handshake.rs:937-953 | the bytes of p and q are minimal big-endian and decode back |
| Handshake.BeDecodingRoundTrip | native/telegram-protocol/src/handshake.rs:937-953 | decoding then encoding restores a byte string exactly when it was minimal |
| Handshake.FactorResPq | native/telegram-protocol/src/handshake.rs:492-511 | success gives p q = pq with 1 < p <= q, both passing the test; a prime or tiny pq is refused; a product of two primes is refused only if rho fails on it; a bad length is the only encoding error |
| Journal.SliceJournal | native/mahayana-messaging/src/store.rs:375-419 | the counting loop computes the recursive specification of a page |
| Journal.ScanSelects | native/mahayana-messaging/src/store.rs:375-419 | a page is the whole window of entries above the requested cursor up to its last group: no group is split, nothing inside is skipped |
| Journal.ScanCounts | native/mahayana-messaging/src/store.rs:375-419 | a page that leaves more behind has consumed exactly as many cursor groups as allowed |
| Journal.CountIsCardinality | native/mahayana-messaging/src/store.rs:375-419 | the groups the scan counts are the distinct cursors above the requested one |
| Journal.CountLeading | native/mahayana-messaging/src/store.rs:131-137 | the take-while count is the length of the longest prefix at or below the prune cursor |
| Journal.MemoryStateStore.Save | native/mahayana-messaging/src/store.rs:108-115 | a plain save stores the snapshot, lifts the floor only when the journal is empty and refuses an unknown schema |
| Journal.MemoryStateStore.SaveWithEvents | native/mahayana-messaging/src/store.rs:117-142 | appends the events and prunes whole cursor groups, remembering the pruned cursor as the floor; an unstamped event refuses everything |
| Journal.MemoryStateStore.LoadEventJournalAfter | native/mahayana-messaging/src/store.rs:144-158 | serves the page of the stored journal at the stored cursor |
| Journal.SqlPrunesTheSame | native/mahayana-messaging/src/store.rs:473-499 | on non-decreasing cursors the SQL pruning deletes the same prefix and sets the same floor as the in-memory one |
| Sync.MessagingService.PersistBatch | native/mahayana-messaging/src/service.rs:250-266 | a batch moves the cursor by its events and journals its entries at the new cursor |
| Sync.MessagingService.PersistSettlement | native/mahayana-messaging/src/service.rs:930-959 | a settlement moves the cursor and saves without journaling |
| Sync.MessagingService.Sync | native/mahayana-messaging/src/service.rs:995-1037 | the answer is the specified snapshot or delta |
| Sync.SyncIsComplete | native/mahayana-messaging/src/service.rs:995-1037 | a delta from c to its checkpoint holds exactly what the whole history addresses to the actor in (c, checkpoint], pruned entries included; a snapshot is served at the current cursor |
| Reach.DeltaIff | native/mahayana-messaging/src/service.rs:1002-1021 | a sync is answered by a delta if and only if the position is not below the floor, not ahead, and current or followed by journal entries; without a position the answer is a snapshot |
| Reach.SyncMovesClient | native/mahayana-messaging/src/service.rs:1002-1036 | a client in reach keeps its base and moves on by one page; any other is reset to the current snapshot |
| Reach.InReachIsNeverReset | native/mahayana-messaging/src/service.rs:995-1037 | over every run a client in reach at each of its syncs keeps its base and every page it has |
| Reach.PresentClientsFollowByDelta | native/mahayana-messaging/src/service.rs:995-1037 | over every run in which each batch journals, being in reach is just not being pruned away, so a client above the floor is served by delta only |
| Reach.AddressedIff | native/mahayana-messaging/src/service.rs:1022-1032 | a delta holds an entry exactly if it addresses the actor and is no typing event whose time is up |
| Reach.BatchMoves | native/mahayana-messaging/src/service.rs:250-265 | a batch of n events moves the cursor by n, up to the ceiling, and stamps its entries with the cursor it reaches |
| Reach.PruningIsMinimal | native/mahayana-messaging/src/store.rs:128-140 | pruning keeps what fits the limit, exactly the entries above the new floor, and the last group that went would not have fitted |
| Sync.StepKeepsInv | native/mahayana-messaging/src/service.rs:121-270 | every step of service or client, journaling batches at a saturated cursor excepted, keeps: the journal is the unpruned suffix of the history, client pages are chained and faithful, and a snapshot base covers exactly the events up to its cursor |
| Sync.BatchKeepsInvIff | native/mahayana-messaging/src/service.rs:250-266 | that exception is exact: a batch keeps the invariant whatever clients there are, if and only if it journals nothing or counts an event while the cursor is below its ceiling |
| Sync.EventIsLostAtCeiling | native/mahayana-messaging/src/service.rs:250-266 | a store imported at the ceiling, a client that connects and syncs, an event addressed to it: whatever follows without a new connection, the client stands at the event's cursor and never receives it |
| Sync.RunKeepsInv | native/mahayana-messaging/src/service.rs:121-270 | the same over every interleaving of batches, settlements, reloads, connections and syncs |
| Sync.ChainTiles | native/mahayana-messaging/src/service.rs:995-1037 | every cursor between a client's base and its position lies on exactly one of its pages |
| Sync.ReceivedIsOwed | native/mahayana-messaging/src/service.rs:995-1037 | the concatenated deltas equal, in order and without repetition, what the history owes the client |
| Sync.NoEventIsLost | native/mahayana-messaging/src/service.rs:995-1037 | over every run from a fresh or imported store, a client's deltas since its base are exactly the events addressed to it up to its cursor, only expired typing events missing; a snapshot base was really served by a sync of the run, at a moment when the history held exactly the events at or below its cursor |
| Sync.BasesWereServed | native/mahayana-messaging/src/service.rs:995-1007 | every snapshot base goes back to a sync step that served it at the cursor and history of that moment |
| Sync.PageProgress | native/mahayana-messaging/src/store.rs:375-419 | a page reaches the current cursor or takes exactly the allowed number of groups |
| Sync.PagingTerminates | native/mahayana-messaging/src/store.rs:375-419 | a client paging by delta arrives at the current cursor after ceil(groups / limit) pages |
| Sync.SaturatedClientHearsNothing | native/mahayana-messaging/src/service.rs:250-250 | once the cursor has saturated, a client standing at it receives nothing more over every further run in which it does not connect anew |
| Sync.SqliteRefinesMemory | native/mahayana-messaging/src/store.rs:275-314 | in every consistent state the SQLite store makes the same transitions as the in-memory store, saturating batches included |
| Versions.ProjectedIsAtomic | native/mahayana-messaging/src/service.rs:234-237 | once the first projected command of a client command succeeds the later ones cannot fail: a failed command leaves the engine unchanged; sends, forwards, edits, deletions, reads, reactions, pins and votes included |
| Versions.QueueThenAcknowledge | native/mahayana-messaging/src/service.rs:1593-1624 | after a queued message its acknowledgement cannot fail |
| Versions.ReadThenDeliver | native/mahayana-messaging/src/service.rs:1658-1693 | after a read mark the delivery state cannot fail |
| Versions.BatchKeepsKeys | native/mahayana-messaging/src/engine.rs:2603-2648 | every batch keeps messages stored under their own ids |
| Versions.NoEventsNoChange | native/mahayana-messaging/src/service.rs:238-240 | a successful batch without events changed nothing, so not moving the cursor is right |
| Versions.DeletesSucceed | native/mahayana-messaging/src/service.rs:300-307 | a batch of deletions collected from the state runs to its end, with one event each, and marks exactly the selected messages |
| Versions.DeliveriesSucceed | native/mahayana-messaging/src/service.rs:1467-1475 | a batch of delivery marks collected from the state runs to its end and marks exactly the targets |
| Versions.CollectExpired | native/mahayana-messaging/src/service.rs:277-296 | the collected ids are exactly the expired, undeleted messages of each conversation |
| Versions.CollectDue | native/mahayana-messaging/src/service.rs:1435-1463 | the collected messages are exactly those sent to the actor and still undelivered in its direct and secret conversations |
| Versions.MessagingService.ExecuteBatch | native/mahayana-messaging/src/service.rs:234-237 | the execution loop computes the fold that stops at the first failure |
| Versions.MessagingService.SettleExpiredMessages | native/mahayana-messaging/src/service.rs:272-315 | never fails, marks exactly the expired messages and keeps the cursor faithful |
| Versions.MessagingService.MarkDirectMessagesDelivered | native/mahayana-messaging/src/service.rs:1430-1483 | never fails, delivers exactly what is due and keeps the cursor faithful |
| Versions.MessagingService.Handle | native/mahayana-messaging/src/service.rs:121-270 | over any run of calls, failed ones included, the cursor never goes back and, below its ceiling, equal cursors mean equal engine states; typing, blob, query, retry and sync calls included; a failed command has only settled expired messages |
| Effects.EditEffect | native/mahayana-messaging/src/service.rs:1640-1649 | an edit succeeds exactly on an existing message, sets its text and time of editing, and changes nothing else |
| Effects.DeleteEffect | native/mahayana-messaging/src/service.rs:1650-1657 | a deletion succeeds exactly on existing messages, marks these and changes nothing else |
| Effects.SendEffect | native/mahayana-messaging/src/service.rs:1593-1624 | a send succeeds exactly in a conversation that admits the message and holds none of its id; it stores one sent message of the actor with this content, makes it the last, and changes nothing else but its topic |
| Effects.ForwardEffect | native/mahayana-messaging/src/service.rs:1626-1639 | a forward succeeds exactly on an original that is neither deleted nor protected; it stores one pending message with the original's content and makes it the last |
| Effects.ReadEffect | native/mahayana-messaging/src/service.rs:1658-1693 | a read mark moves the actor's position, clears the unread marks and marks the message read only if it is another's in a direct or secret conversation |
| Effects.ReactEffect | native/mahayana-messaging/src/engine.rs:2753-2771 | a reaction replaces or removes its own summary on that message only |
| Effects.PinEffect | native/mahayana-messaging/src/engine.rs:2772-2793 | a pin sets the mark and the message's place, last, in the pinned list, and changes nothing else |
| Effects.VoteEffect | native/mahayana-messaging/src/engine.rs:2794-2831 | a vote sets or withdraws the actor's choice alone, recounts that poll and changes nothing else |
| Effects.SettlementEffect | native/mahayana-messaging/src/service.rs:277-296 | settlement marks a message deleted exactly if its time has come, and changes nothing else |
| Effects.DeliveryEffect | native/mahayana-messaging/src/service.rs:1435-1475 | a sync delivers a message exactly if another sent it in a direct or secret conversation of the actor, and changes nothing else |
| Effects.RetryIff | native/mahayana-messaging/src/service.rs:498-571 | repeating a successful send finds the stored message and counts as a repetition if and only if the content is not secret or protection was asked for |
| Versions.MessagingService.Announce | native/mahayana-messaging/src/service.rs:454-496 | an event without engine change moves the cursor by one |
| Versions.MessagingService.CreditFromSettlement | native/mahayana-messaging/src/service.rs:930-959 | a settlement outside `handle` keeps the cursor faithful too: it moves the state and the cursor, or neither |
| Versions.DistinguishesIff | native/mahayana-messaging/src/service.rs:250-250 | the exception at the ceiling is exact: a batch with events keeps equal cursors meaning equal states if and only if the cursor was below `u64::MAX` or the state did not change |
| Versions.CeilingHidesEdits | native/mahayana-messaging/src/service.rs:250-250 | at the ceiling every edit that changes a message goes unnoticed by the cursor |
| Wallet.LedgerIdInjective | native/mahayana-messaging/src/wallet.rs:115-115 | entry ids `ledger:n` differ for different n |
| Wallet.WalletLedger.CreateAccount | native/mahayana-messaging/src/wallet.rs:62-86 | creates an account once per id, refusing duplicates and invalid ids |
| Wallet.WalletLedger.Credit | native/mahayana-messaging/src/wallet.rs:88-129 | is the credit of the specification, replaying known requests and refusing overflow |
| Wallet.WalletLedger.Transfer | native/mahayana-messaging/src/wallet.rs:131-216 | is the transfer of the specification, with every refusal in the source's order |
| Wallet.WalletLedger.Move | native/mahayana-messaging/src/wallet.rs:178-216 | debits first; a credit that overflows fails with the debit in place |
| Wallet.WalletLedger.RefundTransfer | native/mahayana-messaging/src/wallet.rs:218-255 | transfers the original amount back and labels the new entry as its refund |
| LedgerLaws.EmptyLedgerInv | native/mahayana-messaging/src/wallet.rs:53-59 | the empty ledger satisfies the ledger laws |
| LedgerLaws.NextIdIsFresh | native/mahayana-messaging/src/wallet.rs:276-281 | the id of the next entry is unused |
| LedgerLaws.CreditKeepsInv | native/mahayana-messaging/src/wallet.rs:88-129 | a credit keeps the laws: balances equal incoming minus outgoing entries and are never negative, the sum over accounts equals the credits, ids and request ids index the entries |
| LedgerLaws.TransferKeepsInvIff | native/mahayana-messaging/src/wallet.rs:131-216 | a transfer keeps the laws if and only if it is not a fresh, accepted one whose credit overflows after the debit |
| LedgerLaws.OverflowBreaksAgreement | native/mahayana-messaging/src/wallet.rs:178-199 | in that case the sender's balance no longer agrees with its entries |
| PaymentCases.OverflowIsReachable | native/mahayana-messaging/src/wallet.rs:178-199 | the case is reached from the empty ledger: credit the largest balance to one account and one unit to another, then transfer the unit |
| LedgerLaws.SuccessfulRefundKeepsInv | native/mahayana-messaging/src/wallet.rs:218-255 | a successful refund keeps the laws |
| LedgerLaws.KnownRequestIsIdempotent | native/mahayana-messaging/src/wallet.rs:225-227 | repeating a request id returns the stored entry and changes nothing, whichever operation repeats it |
| LedgerLaws.SuccessMakesKnown | native/mahayana-messaging/src/wallet.rs:276-281 | a successful operation makes its request id known |
| Orders.ExecuteKeepsLedger | native/mahayana-messaging/src/engine.rs:1522-1646 | every command, refused ones included, keeps the ledger laws, because decisions work on a clone |
| Orders.LedgerLawsHoldOverRuns | native/mahayana-messaging/src/engine.rs:748-754 | so they hold after every engine run |
| Orders.CheckoutKeepsPayments | native/mahayana-messaging/src/engine.rs:1522-1590 | a checkout keeps the payment invariant: every paid or refunded order names a transfer of exactly its amount, from its buyer, under `checkout:<order>` |
| Checkout.CheckedTotalIff | native/mahayana-messaging/src/payment.rs:67-71 | the total of an invoice is the sum of its lines, and missing exactly when the sum of some prefix does not fit into 64 bits |
| Checkout.CheckoutCharges | native/mahayana-messaging/src/engine.rs:1550-1590 | a first accepted checkout makes a Paid order for exactly the sum of the lines, backed by a new transfer of it; the buyer's wallet falls and the seller's rises by that sum, and no other balance changes |
| Checkout.CheckoutAcceptedIff | native/mahayana-messaging/src/engine.rs:1522-1575 | a first checkout is accepted exactly if the invoice exists and has not expired, the buyer is known and not the seller, neither wallet is frozen, and the sum is there and fits |
| Checkout.TransferSucceedsIff | native/mahayana-messaging/src/wallet.rs:131-199 | a transfer between open wallets succeeds exactly if they differ, neither is frozen, the sender has the money and the receiver has room |
| Checkout.RefundReturns | native/mahayana-messaging/src/engine.rs:1591-1631 | the first refund under a new id is given by the invoice's seller alone and moves the order's amount back along its transfer, and no other money |
| Checkout.SettlementAdds | native/mahayana-messaging/src/engine.rs:1632-1646 | a new settlement adds its amount to the owner's wallet and moves no other money |
| Checkout.RepeatedCheckoutIff | native/mahayana-messaging/src/engine.rs:1535-1549 | repeating a checkout is accepted exactly for the same buyer and invoice while that has not expired, and changes nothing |
| Checkout.RepeatedRefundIff | native/mahayana-messaging/src/engine.rs:1591-1612 | refunding a refunded order is left to the seller too, and changes nothing |
| Checkout.CreditSucceedsIff | native/mahayana-messaging/src/wallet.rs:88-129 | a credit succeeds exactly with a positive amount in a currency of at least three bytes, on an open account that is not frozen and has room |
| Checkout.InvoiceAcceptedIff | native/mahayana-messaging/src/engine.rs:1507-1521 | an invoice is accepted exactly with an id, a title, lines of one three-letter currency that are not negative and add up, a known seller and a conversation |
| Orders.RefundKeepsPayments | native/mahayana-messaging/src/engine.rs:1591-1631 | a harmless refund keeps the payment invariant and moves the amount back exactly once |
| Orders.CreditKeepsPayments | native/mahayana-messaging/src/engine.rs:1632-1646 | a harmless settlement keeps the payment invariant |
| OrderSafety.HarmlessIff | native/mahayana-messaging/src/engine.rs:1507-1646 | a command clients can cause leaves the promise about orders true in every harmless continuation if and only if it is harmless: not a refund of a paid order under a request id that is known or begins with `checkout:`, and not a settlement that makes a new entry under such a `checkout:` id |
| OrderSafety.OrdersArePaidAndRefundedOnce | native/mahayana-messaging/src/engine.rs:1522-1646 | in a run of client commands every Paid or Refunded order stays backed by a transfer of exactly its amount under `checkout:<order>`, and its money moves back at most once and exactly, for good, if and only if every command is harmless |
| OrderSafety.PosingIsUnsafe | native/mahayana-messaging/src/engine.rs:1522-1590 | a credit or refund entry under the checkout id of an order to come lets a later checkout mark that order Paid although no money moved |
| OrderSafety.StaleRefundIsUnsafe | native/mahayana-messaging/src/engine.rs:1591-1631 | refunding a paid order under a known request id breaks the promise at once |
| Orders.IdempotentOverRuns | native/mahayana-messaging/src/engine.rs:1522-1646 | once a request id is known, then after any further run a settlement, refund or checkout under it changes no entry and no balance |
| Orders.RunRemembers | native/mahayana-messaging/src/wallet.rs:276-281 | no run forgets a request id |
| Orders.StaleRefundMovesNothing | native/mahayana-messaging/src/engine.rs:1591-1631 | a refund that reuses a known request id marks the order refunded while no balance moves |
| PaymentCases.StaleRefundIsReachable | native/mahayana-messaging/src/engine.rs:1591-1631 | such an engine is reached from the empty one by a credit, an invoice and a checkout; refunding under the credit's request id breaks the promise |
| Orders.EmptyEngineInv | native/mahayana-messaging/src/engine.rs:735-737 | the empty engine satisfies both invariants |
| Communities.CommunityState.SubscribeChannel | native/mahayana-messaging/src/community.rs:182-200 | refuses exactly those who left or were banned; keeps an existing subscription |
| Communities.CommunityState.UnsubscribeChannel | native/mahayana-messaging/src/community.rs:202-208 | refuses exactly the owner |
| Communities.CommunityState.UpsertMember | native/mahayana-messaging/src/community.rs:282-285 | stores the member and drops its pending request |
| Communities.CommunityState.RequestJoin | native/mahayana-messaging/src/community.rs:287-290 | stores the request under the requester |
| Communities.CommunityState.ApproveJoin | native/mahayana-messaging/src/community.rs:292-315 | needs the invite right and a pending request, and makes the requester a member |
| Communities.FindUpsert | native/mahayana-messaging/src/engine.rs:2480-2495 | upserting a participant changes that actor's entry and no other |
| Communities.FindRemove | native/mahayana-messaging/src/engine.rs:2496-2504 | removing a participant removes all of that actor's entries and no other |
| Communities.SeedFinds | native/mahayana-messaging/src/engine.rs:1745-1802 | from distinct participants the first community state has exactly one member per participant, with its role's status |
| Layouts.FoundingRights | native/mahayana-messaging/src/engine.rs:1751-1802 | the rights a founding gives by role |
| Layouts.RoleTable | native/mahayana-messaging/src/engine.rs:718-732 | roles and statuses correspond in both directions |
| Membership.DecidesSoundly | native/mahayana-messaging/src/engine.rs:812-906 | every community any command writes has no departed or banned subscriber and no banned requester, under matching keys |
| Membership.RunsStaySound | native/mahayana-messaging/src/engine.rs:1704-2267 | over every run a member who left or was banned never subscribes and a banned member never has a pending request |
| Authority.ChangeNeedsStanding | native/mahayana-messaging/src/engine.rs:622-647 | whatever a command of an actor changes in a community, the actor is its Owner or an Administrator with a manager's right, or the change is the actor's own subscription or join request |
| Authority.MemberChangeNeedsRight | native/mahayana-messaging/src/engine.rs:1917-2226 | a member record changes only by a moderation with the right to ban that spares officers, by a member command with the right its old and new status take, or by an approval with the right to invite |
| Authority.OrdinaryActorsChangeNoMember | native/mahayana-messaging/src/engine.rs:622-647 | an actor who is neither Owner nor Administrator changes no member record, its own included |
| Authority.OwnershipIff | native/mahayana-messaging/src/engine.rs:1993-2226 | nobody but an Owner makes an Owner, and nobody but an Owner unmakes one, except exactly when an administrator with the right to invite approves an Owner's own pending join request |
| Authority.AdministratorDemotesOwner | native/mahayana-messaging/src/community.rs:292-315 | that exception happens in a state that a run from the empty one reaches |
| Authority.FoundingNeedsOwner | native/mahayana-messaging/src/engine.rs:1704-1727 | a community comes into being only for a group or channel, by its owner or a participant in the owner's role, with nobody pending or subscribed |
| Authority.MemberCommandIff | native/mahayana-messaging/src/engine.rs:1917-2226 | member commands, moderations and approvals are accepted exactly on these conditions |
| Authority.SubscribeIff | native/mahayana-messaging/src/engine.rs:1806-1845 | subscribing takes a channel that is public or knows the actor, and nobody who left or was banned |
| Authority.UnsubscribeIff | native/mahayana-messaging/src/engine.rs:1846-1881 | unsubscribing takes a channel the actor does not own |
| Authority.RequestIff | native/mahayana-messaging/src/engine.rs:2148-2195 | a join request is the actor's own, to a public group or channel that has not banned it |
| Authority.DescriptionIff | native/mahayana-messaging/src/engine.rs:1704-1737 | the description is changed by those who may, and members, requests, subscribers and slow mode stay |
| Authority.SlowModeIff | native/mahayana-messaging/src/engine.rs:1882-1916 | slow mode is set by the same, to at most a day, and nothing else changes |
| Authority.ParticipantIff | native/mahayana-messaging/src/engine.rs:812-872 | when setting a participant is accepted, and that it changes that actor's entry and record only |
| Authority.RemovalIff | native/mahayana-messaging/src/engine.rs:873-906 | when removing a participant is accepted, and that it ends that actor's entry, record and subscription only |
| Agreement.HarmlessIff | native/mahayana-messaging/src/engine.rs:768-906 | a command leaves participants, roles and joining times equal to the active members' in every harmless continuation if and only if it is harmless: an upsert that is refused, or that keeps a conversation with a community a group or channel and lists participants once where somebody may found a community; every other command is |
| Membership.StepInStepIff | native/mahayana-messaging/src/engine.rs:768-906 | the inductive core: exactly the harmless commands keep agreement together with distinct participants and community kinds |
| Agreement.RunsAgreeIff | native/mahayana-messaging/src/engine.rs:1704-2267 | participants and roles stay in exact agreement with the active members, for good, over a run if and only if every command of it is harmless |
| Agreement.LeftBehind | native/mahayana-messaging/src/engine.rs:812-872 | once a conversation with a community is no group or channel, changing a participant breaks agreement |
| Agreement.Doubled | native/mahayana-messaging/src/engine.rs:1714-1802 | a doubled participant in a group that somebody may found a community for leads to one that disagrees |
| Membership.RunsInStepIff | native/mahayana-messaging/src/engine.rs:1704-2267 | the inductive core over runs |
| Membership.AlwaysEndsInStep | native/mahayana-messaging/src/engine.rs:1704-2267 | a run that keeps the core ends in it |
| Membership.KindChangeBreaksAgreement | native/mahayana-messaging/src/engine.rs:768-782 | a run that changes a conversation's kind and back ends with a participant who is no member |
| Membership.DuplicateParticipantsBreakAgreement | native/mahayana-messaging/src/engine.rs:1745-1802 | a group created with one actor listed twice ends with a member whose status is not its participant's role |
| Visibility.ExtendAudience | native/mahayana-messaging/src/service.rs:2342-2402 | the set-building method adds exactly the addressed actors and keeps the others |
| Visibility.AudienceIsVisibility | native/mahayana-messaging/src/service.rs:1249-1263 | in every sound state the audience is exactly the set of actors who can see the conversation |
| Visibility.VisibilityAgreesOverRuns | native/mahayana-messaging/src/service.rs:1249-1263 | hence in every state a run reaches |
| Visibility.CommunityVisibilityIsParticipation | native/mahayana-messaging/src/service.rs:1249-1263 | while members and participants agree, a community conversation is seen by its owner, its participants and, if a channel, its subscribers |
| Crypto.IgeDecryptEncrypt | native/telegram-protocol/src/crypto.rs:298-352 | decryption undoes encryption for every block permutation, key, IV and block-aligned input |
| Crypto.IgeEncryptDecrypt | native/telegram-protocol/src/crypto.rs:298-352 | and encryption undoes decryption |
| Crypto.AesIgeEncrypt | native/telegram-protocol/src/crypto.rs:298-324 | the chaining loop computes IGE encryption; exactly empty or unaligned input is refused |
| Crypto.AesIgeDecrypt | native/telegram-protocol/src/crypto.rs:326-352 | the chaining loop computes IGE decryption; exactly empty or unaligned input is refused |
| Crypto.PlainRoundTrip | native/telegram-protocol/src/crypto.rs:63-81 | decoding undoes the plaintext layout of every message that encodes |
| Crypto.PaddingAlwaysEncodes | native/telegram-network/src/lib.rs:638-642 | with the computed padding a message encodes if and only if its body is non-empty, 4-aligned and fits in an i32 |
| Crypto.EnvelopeRoundTrip | native/telegram-protocol/src/crypto.rs:91-117 | an envelope survives the wire exactly when its data is whole blocks |
| Crypto.UnsealUndoesSeal | native/telegram-protocol/src/crypto.rs:162-213 | opening a sealed plaintext authenticates and returns it |
| Crypto.DecryptUndoesEncrypt | native/telegram-protocol/src/crypto.rs:162-213 | decryption returns the encrypted message exactly when session and id parity are right, and otherwise names which is wrong |
| Crypto.SentMessagesArrive | native/telegram-network/src/lib.rs:248-269 | every body the network layer accepts, padded and numbered as it does, is recovered by the peer |
| Soundness.UnsealIff | native/telegram-protocol/src/crypto.rs:188-213 | an envelope opens to a plaintext if and only if it is the sealing of that plaintext |
| Soundness.DecryptIff | native/telegram-protocol/src/crypto.rs:188-213 | an envelope decrypts to a message if and only if it is the encryption of that message, of the expected session and with the parity of the direction |
| Layouts.ClientKeys | native/telegram-protocol/src/crypto.rs:134-160 | to the server: message key from key bytes 88 to 120, AES key and IV from bytes 0 to 36 and 40 to 76, mixed as MTProto 2.0 says |
| Layouts.ServerKeys | native/telegram-protocol/src/crypto.rs:134-160 | from the server the same, eight bytes later |
| Layouts.PlainLayout | native/telegram-protocol/src/crypto.rs:63-81 | where each field of a plaintext lies |
| Layouts.PlainRules | native/telegram-protocol/src/crypto.rs:270-296 | which plaintexts are accepted: body, padding, blocks, session and id parity |
| Layouts.EnvelopeLayout | native/telegram-protocol/src/crypto.rs:91-98 | where each field of an envelope lies, and the key id as bytes 12 to 20 of the key's SHA-1 |
| Layouts.IgeBlock | native/telegram-protocol/src/crypto.rs:308-322 | one block of IGE: c = E(p xor previous c) xor previous p |
| Transport.FrameDecodes | native/telegram-protocol/src/transport.rs:158-337 | a complete frame decodes to its body and length whatever follows; only an acknowledgement look-alike is reported as one |
| Transport.StrictPrefixNeedsMore | native/telegram-protocol/src/transport.rs:211-337 | every strict prefix of a frame asks for more bytes |
| Transport.TransportFrameCodec.EncodeWithPadding | native/telegram-protocol/src/transport.rs:112-156 | computes the specified encoding in every mode and advances the sequence number only on success |
| Transport.TransportFrameCodec.EncodeFull | native/telegram-protocol/src/transport.rs:168-188 | length, sequence number, payload and checksum, refusing overflow |
| Transport.TcpTransport.ReceivePayload | native/telegram-network/src/lib.rs:166-183 | the receive loop computes its specification and leaves the rest of the stream |
| Transport.ReceiveFrame | native/telegram-network/src/lib.rs:166-183 | from any buffer and chunks that begin with a frame, the loop returns its body and keeps what follows |
| Transport.ReceiveIgnoresChunking | native/telegram-network/src/lib.rs:166-183 | any list of encoded messages, cut at arbitrary points, is returned exactly and in order, bodies that look like an acknowledgement excepted |
| Transport.PlainModesDeliverAll | native/telegram-protocol/src/transport.rs:297-337 | in Full, Abridged and Intermediate nothing is taken for an acknowledgement, so what is delivered is the list of payloads itself |
| Soundness.FullIsFrame | native/telegram-protocol/src/transport.rs:211-247 | whatever a full transport decodes is a length, a sequence number, the payload and their checksum |
| Soundness.AbridgedIsFrame | native/telegram-protocol/src/transport.rs:249-295 | whatever an abridged transport decodes as a payload is its length in words and the payload |
| Soundness.IntermediateIsFrame | native/telegram-protocol/src/transport.rs:297-337 | whatever an intermediate transport decodes as a payload is its length and the payload |
| Layouts.FrameLayouts | native/telegram-protocol/src/transport.rs:112-209 | the frames of the four transports, byte by byte |
| Layouts.AcknowledgementLookalikes | native/telegram-protocol/src/transport.rs:297-337 | only a padded body of 8 to 16 bytes beginning with four bytes ff is taken for an acknowledgement |
| Tl.EncodedAligned | native/telegram-protocol/src/tl.rs:85-108 | every successful write adds a positive multiple of four bytes |
| Tl.ReadsBackIff | native/telegram-protocol/src/tl.rs:193-245 | a written value reads back, whatever follows, exactly when the reader's limits allow it; otherwise the limit is named |
| Tl.SequencesRoundTrip | native/telegram-protocol/src/tl.rs:49-119 | any sequence of typed values written successfully is read back exactly and finishes the input |
| Tl.DefaultsReadEveryString | native/telegram-protocol/src/tl.rs:138-146 | the default limits admit every byte string that can be written |
| Tl.TlWriter.Write | native/telegram-protocol/src/tl.rs:49-119 | the buffer is the encoding of everything written; a refused write changes nothing |
| Tl.TlWriter.WriteBytes | native/telegram-protocol/src/tl.rs:85-108 | header, value and padding pushed piece by piece make the encoding |
| Tl.TlReader.ReadBytes | native/telegram-protocol/src/tl.rs:193-217 | the step-by-step reader computes the decoding, error for error |
| Tl.TlReader.ReadVectorLength | native/telegram-protocol/src/tl.rs:225-245 | likewise for vector headers |
| Tl.TlReader.ReadFixed | native/telegram-protocol/src/tl.rs:157-191 | likewise for the fixed-width values |
| Tl.TlReader.ReadAll | native/telegram-protocol/src/tl.rs:259-276 | reading value after value computes the decoding of the sequence |
| Layouts.TlLayouts | native/telegram-protocol/src/tl.rs:77-119 | constructors, string headers and vector headers in bytes |
| Layouts.LittleEndian | native/telegram-protocol/src/tl.rs:49-63 | byte i of an encoding is the i-th digit to base 256, lowest first |
| Session.TopPartIsLargest | native/telegram-protocol/src/session.rs:96-101 | an upper part of the accepted ids is exactly the N largest |
| Session.TestIsVerdict | native/telegram-protocol/src/session.rs:88-95 | the guard's test on its window agrees with the test on all ids ever accepted: seen before, or N larger ones were |
| Session.MessageIdGuard.ValidateServerMessageId | native/telegram-protocol/src/session.rs:75-103 | decides by all ids ever accepted and keeps exactly the N largest of them |
| Session.NoIdAcceptedTwice | native/telegram-protocol/src/session.rs:75-103 | over any run accepted ids are pairwise distinct, whatever the window size |
| Session.MessageIdGuard.GenerateClientMessageId | native/telegram-protocol/src/session.rs:43-73 | the id of the clock, pushed past the last one; refuses exactly bad fractions and ids outside i64 |
| Session.CandidateKeepsTheSecond | native/telegram-protocol/src/session.rs:51-60 | the candidate is a multiple of four whose upper half is the clock's second |
| Session.ClientIdsIncrease | native/telegram-protocol/src/session.rs:43-73 | generated ids strictly increase over every run, whatever the clock does |
| Session.ClientIdsExceedLast | native/telegram-protocol/src/session.rs:61-67 | they are multiples of four beyond the last one |
| Session.ForwardClockIsKept | native/telegram-protocol/src/session.rs:43-73 | an id generated by a clock that moved on carries its second |
| Session.SessionSequence.Next | native/telegram-protocol/src/session.rs:126-142 | returns and counts as specified, refusing numbers beyond i32 |
| Session.SequenceCounts | native/telegram-protocol/src/session.rs:126-142 | over every run a number is twice the content-related messages before it, plus one if it is content-related |
| Layouts.TimeWindow | native/telegram-protocol/src/session.rs:83-88 | server ids are accepted exactly from 300 seconds back to 30 seconds ahead, saturation or not |
| Layouts.ClientIdOfClock | native/telegram-protocol/src/session.rs:51-60 | a clock's id: seconds in the upper half, the fraction rounded down to a multiple of four and never zero in the lower |
| Rpc.EstablishedSession.ScanRpcBody | native/telegram-network/src/lib.rs:276-377 | a scan succeeds exactly when the body flattens, every leaf is acceptable and the guard admits every header in reading order; then the outcome is the last that is not Continue, the salt the last announced, the acknowledgements the odd-sequence ids in order |
| Rpc.EstablishedSession.ScanContainer | native/telegram-network/src/lib.rs:330-374 | the container loop equals the fold over the flattened entries; it recurses on shorter bodies only |
| Rpc.EstablishedSession.ScanLeaf | native/telegram-network/src/lib.rs:283-329 | a leaf's outcome and announced salt |
| Wire.ReplyAnswers | native/telegram-network/src/lib.rs:284-298 | the bytes of an rpc_result are the result of its own request, carried verbatim, and nothing to any other request |
| Wire.FutureSaltsAnswer | native/telegram-network/src/lib.rs:299-309 | the bytes of future_salts answer their own request with the whole body |
| Wire.NewSessionAnnounces | native/telegram-network/src/lib.rs:310-313 | new_session_created announces its salt and is passed over |
| Wire.BadSaltAsksForRetry | native/telegram-network/src/lib.rs:314-325 | bad_server_salt announces its salt and asks for a retry of its own request; for another it fails with the rejected id and code |
| Wire.BadMessageFails | native/telegram-network/src/lib.rs:326-329 | bad_msg_notification fails with the rejected id and code |
| Wire.OthersContinue | native/telegram-network/src/lib.rs:375-376 | any other message is passed over, and a body without a constructor is malformed |
| Wire.ResultIff | native/telegram-network/src/lib.rs:283-309 | a leaf is a result exactly when its bytes answer the waiting request |
| Wire.ScanResultIsReply | native/telegram-network/src/lib.rs:276-377 | a scan's result is the answer of some leaf of the body, however deeply nested, to this very request |
| Wire.ReplyWins | native/telegram-network/src/lib.rs:352-363 | a reply followed by nothing with an outcome is the scan's result |
| Wire.ContainerFlattens | native/telegram-network/src/lib.rs:330-374 | a container written out in bytes flattens to its messages in order, each under its own id |
| Wire.AcksOf | native/telegram-network/src/lib.rs:218-221 | the acknowledged ids are exactly those with an odd sequence number, in order |
| Rpc.EstablishedSession.ProcessResponse | native/telegram-network/src/lib.rs:208-231 | a round acknowledges exactly its odd-sequence ids, and no server message is acknowledged twice in a session |
| Rpc.AcceptsConcat | native/telegram-network/src/lib.rs:330-374 | scanning a concatenation is scanning its parts in turn |
| Rpc.AcksAreNovel | native/telegram-protocol/src/session.rs:75-103 | acknowledged ids are pairwise distinct and new to the session |
| Rpc.RoundAcknowledges | native/telegram-network/src/lib.rs:208-231 | adding a round's acknowledgements keeps all of them distinct |
| SecretChat.ShiftTracks | native/mahayana-messaging/src/secret_chat.rs:139-148 | shifting the bitmap for a higher counter keeps bit i meaning highest - i was accepted |
| SecretChat.SetTracks | native/mahayana-messaging/src/secret_chat.rs:149-153 | setting the bit of an older counter keeps it too |
| SecretChat.ReplayWindow.Check | native/mahayana-messaging/src/secret_chat.rs:117-132 | the bitmap test is the verdict on the set of accepted counters: refused when zero, 128 or more behind, or seen; every other counter passes |
| SecretChat.ReplayWindow.Mark | native/mahayana-messaging/src/secret_chat.rs:134-154 | the bitmap after marking represents the set with the counter added |
| SecretChat.SecretChatSession.Encrypt | native/mahayana-messaging/src/secret_chat.rs:246-286 | is the sending step of the specification; the counter advances even when sealing fails |
| SecretChat.SecretChatSession.Decrypt | native/mahayana-messaging/src/secret_chat.rs:288-337 | is the receiving step; only an authenticated message is marked |
| SecretChat.SecretChatSession.Rotate | native/mahayana-messaging/src/secret_chat.rs:218-244 | is the rotation step: only to a later epoch, with counters and window cleared |
| SecretChat.NoPairDecryptsTwice | native/mahayana-messaging/src/secret_chat.rs:288-337 | over any run with any rotations no (epoch, counter) pair decrypts twice |
| SecretChat.SentPairsIncrease | native/mahayana-messaging/src/secret_chat.rs:246-286 | sent (epoch, counter) pairs strictly increase over any run |
| SecretChat.GenuineDecryptsIff | native/mahayana-messaging/src/secret_chat.rs:288-337 | a genuine envelope opens to its plaintext exactly when its counter is unseen and inside the window |
| SecretChat.ReorderedEnvelopesArrive | native/mahayana-messaging/src/secret_chat.rs:117-154 | genuine envelopes reordered by less than 128 are all delivered, once each, in order of arrival |
| SecretChat.SentMessagesAreDelivered | native/mahayana-messaging/src/secret_chat.rs:246-337 | from a run of encryptions at one end to the other: the messages that arrive, reordered by less than the window, open to their plaintexts, each once and in order of arrival, whatever was lost or failed to seal |
| Layouts.DecryptIff | native/mahayana-messaging/src/secret_chat.rs:288-337 | a decryption succeeds exactly on a supported envelope of this chat, direction and epoch with an unseen counter in the window that the cipher opens, and remembers that counter only |
| Layouts.RotateIff | native/mahayana-messaging/src/secret_chat.rs:218-244 | a rotation succeeds exactly to a later epoch with a derived key, and starts afresh |
| Layouts.EncryptIff | native/mahayana-messaging/src/secret_chat.rs:246-286 | an encryption takes the next counter unless the text is empty or the counters are used up, and when it succeeds |
| Cache.TotalBytes | native/mahayana-messaging/src/media_cache.rs:41-45 | the fold is the saturated sum of all sizes |
| Cache.OldestVictim | native/mahayana-messaging/src/media_cache.rs:126-132 | finds the oldest evictable entry by (access time, id), or there is none |
| Cache.EvictOne | native/mahayana-messaging/src/media_cache.rs:136-138 | evicting it keeps evicted entries the oldest, in order, and a complement of the kept ones |
| Cache.MediaCache.EvictToBudget | native/mahayana-messaging/src/media_cache.rs:120-141 | succeeds exactly when the untouchable entries fit; evicts oldest first and none more than needed |
| Cache.MediaCache.Insert | native/mahayana-messaging/src/media_cache.rs:57-105 | keeps the budget; success splits old entries and the new one into kept and evicted, failure on budget happens exactly when the new and the other pinned entries exceed it and leaves the pinned entries and the previous one |
| Cache.MediaCache.Get | native/mahayana-messaging/src/media_cache.rs:51-55 | touches the entry's access time only |
| Cache.MediaCache.SetPinned | native/mahayana-messaging/src/media_cache.rs:111-118 | changes the pin only |
| Layouts.EvictedAreOldest | native/mahayana-messaging/src/media_cache.rs:126-132 | whatever is evicted was used no later than any evictable entry that stays, and at the same time only if its id comes first |
| Transfers.RunsKeepInv | native/telegram-media/src/lib.rs:291-522 | over every run at most max_concurrent transfers run, bytes stay within the total, and a completed transfer has all bytes and the expected hash |
| Transfers.RunsEvolve | native/telegram-media/src/lib.rs:466-522 | over every run transfers never disappear, completed bytes only grow and terminal states are final |
| Transfers.NextReady | native/telegram-media/src/lib.rs:270-278 | None exactly when no slot is free or nothing is queued; else a queued transfer of highest priority, earliest first |
| Transfers.ReadyStarts | native/telegram-media/src/lib.rs:330-339 | starting whatever next_ready returns succeeds |
| Transfers.PlanTiles | native/telegram-media/src/lib.rs:91-102 | the chunk plan tiles the rest of the file without gap or overlap in ceil(rest / chunk size) chunks |
| Transfers.DrivingSucceeds | native/telegram-media/src/lib.rs:340-364 | every chunk of the plan is accepted and the transfer then holds all its bytes |
| Transfers.CompletesIff | native/telegram-media/src/lib.rs:414-447 | completion then succeeds exactly when the reported hash is well formed and equals the expected one |
| Transfers.TransferQueue.ExecuteCommand | native/telegram-media/src/lib.rs:280-289 | the queue object makes the specified step and keeps the invariant |
| Layouts.Transitions | native/telegram-media/src/lib.rs:330-463 | which state each command leads from and to, and that nothing else changes |
| Layouts.EnqueueIff | native/telegram-media/src/lib.rs:293-329 | when a transfer is enqueued, and how it then waits |
| Layouts.HashIsNormal | native/telegram-media/src/lib.rs:532-538 | a hash normalizes to 64 lower-case hexadecimal digits, and such digits to themselves |

## Left out

- Sockets, threads, WebSocket, heartbeat and FFI: the model starts from bytes received and commands given.
- Failing storage: persisting is modelled as succeeding; a failed write, SQLite transactions and file renames are not.
- Hashes, AES blocks, AEAD, CRC, key derivation and X25519: parameters with the assumptions named above; that a wrong key is rejected is not stated.
- The other direction of the prime test: that seven bases never accept a composite rests on a computed table.
- The Diffie-Hellman, RSA and nonce checks of the handshake, and `AuthKeyHandshake` itself.
- The trusted group prime of the password proof is a parameter of 256 bytes.
- Contents of a snapshot: messages are cut by the limit, so only the cursor of a snapshot is modelled.
- Sync.MessagingService.PersistBatch: a batch is abstracted to its event count and journal drafts; which events a command emits is the subject of the engine models.
- Versions: stories, bots, mini-apps, wallet and community commands are one abstract kind of command that leaves messages alone; permission checks, retention and poll counting are parameters.
- Currency codes are upper-cased in ASCII only; `freeze` is not modelled.
- Authority: participant commands and conversation upserts carry no actor in the engine; the service's own authorization of them is not modelled.
- Communities: audit log, invite links, forum topics and banned words, which membership does not depend on; refusals are not told apart.
- SecretChat.SecretChatSession.Encrypt: version and algorithm strings are flags, base64 fields are their decoded bytes; `establish`'s identity check, `backup` and `restore` are not modelled.
- Rpc: retries of `invoke_raw`, pings and timeouts; sending an acknowledgement is modelled as handing it over.
- Crypto: quick acknowledgement tokens.
- Transfers: the separate event list, since each command yields one event.
- Tl.TlWriter.Write: strings are their UTF-8 bytes, doubles their eight bytes.
- The Telegram core engine, device, privacy, notification, story, bot, extension and mini-app registries: each is settled by single branches.
