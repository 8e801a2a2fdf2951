/** The wallet ledger: balances cached per account and currency beside numbered entries,
    with idempotency by request id. */
module Wallet {
  import opened Wrappers
  import opened Bytes
  import opened Text

  type AccountId = string
  type ActorId = string

  datatype Money = Money(currency: string, amountMinor: i64)
  datatype Account = Account(owner: ActorId, balances: map<string, i64>, frozen: bool)
  datatype Kind = Credit | Transfer | Refund
  datatype Entry = Entry(
    id: string, requestId: string, kind: Kind, from: Option<AccountId>, to: Option<AccountId>,
    amount: Money, reference: Option<string>)

  datatype WalletError =
    | InvalidAccountId
    | DuplicateAccount
    | AccountNotFound(id: AccountId)
    | AccountFrozen(id: AccountId)
    | InvalidAmount
    | SameAccountTransfer
    | BalanceOverflow
    | InsufficientFunds(id: AccountId)
    | EntryNotFound(entryId: string)
    | NotRefundable(entryId: string)

  datatype Outcome = Done(entry: Entry) | Failed(error: WalletError)
  datatype Status = Created | Refused(error: WalletError)

  /** The contents of a ledger. */
  datatype Ledger = Ledger(
    accounts: map<AccountId, Account>, entries: map<string, Entry>, requests: map<string, string>)

  const EMPTY: Ledger := Ledger(map[], map[], map[])

  // ------------------------------------------------------------------ operations

  function RawBalance(a: Account, currency: string): i64
  {
    if currency in a.balances then a.balances[currency] else 0
  }

  function Balance(a: Account, currency: string): i64
  {
    RawBalance(a, NormalizeCurrency(currency))
  }

  function LedgerId(n: nat): string
  {
    "ledger:" + Decimal(n)
  }

  lemma LedgerIdInjective(m: nat, n: nat)
    requires LedgerId(m) == LedgerId(n)
    ensures m == n
  {
    ConcatCancels("ledger:", Decimal(m), Decimal(n));
    DecimalRoundTrip(m);
    DecimalRoundTrip(n);
  }

  function RefundReference(original: string): string
  {
    "refund:" + original
  }

  predicate ValidAmount(m: Money)
  {
    Utf8Len(Trim(m.currency)) >= 3 && m.amountMinor > 0
  }

  predicate Known(l: Ledger, requestId: string)
  {
    requestId in l.requests && l.requests[requestId] in l.entries
  }

  function KnownEntry(l: Ledger, requestId: string): Entry
    requires Known(l, requestId)
  {
    l.entries[l.requests[requestId]]
  }

  function InsertEntry(l: Ledger, e: Entry): Ledger
  {
    l.(requests := l.requests[e.requestId := e.id], entries := l.entries[e.id := e])
  }

  function SetBalance(l: Ledger, id: AccountId, currency: string, value: i64): Ledger
    requires id in l.accounts
  {
    var a := l.accounts[id];
    l.(accounts := l.accounts[id := a.(balances := a.balances[currency := value])])
  }

  function CreateAccountOf(l: Ledger, id: AccountId, owner: ActorId): (Ledger, Status)
  {
    if Trim(id) == "" then (l, Refused(InvalidAccountId))
    else if id in l.accounts then (l, Refused(DuplicateAccount))
    else (l.(accounts := l.accounts[id := Account(owner, map[], false)]), Created)
  }

  /** `credit`. On overflow a zero balance may have been created for the currency. */
  function CreditOf(
    l: Ledger, requestId: string, id: AccountId, amount: Money, reference: Option<string>): (Ledger, Outcome)
  {
    if Known(l, requestId) then (l, Done(KnownEntry(l, requestId)))
    else if !ValidAmount(amount) then (l, Failed(InvalidAmount))
    else if id !in l.accounts then (l, Failed(AccountNotFound(id)))
    else if l.accounts[id].frozen then (l, Failed(AccountFrozen(id)))
    else
      var currency := NormalizeCurrency(amount.currency);
      var balance := RawBalance(l.accounts[id], currency);
      if balance + amount.amountMinor >= I64_END then
        (SetBalance(l, id, currency, balance), Failed(BalanceOverflow))
      else
        var entry :=
          Entry(LedgerId(|l.entries| + 1), requestId, Credit, None, Some(id), Money(currency, amount.amountMinor),
            reference);
        (InsertEntry(SetBalance(l, id, currency, balance + amount.amountMinor), entry), Done(entry))
  }

  /** The checks of `transfer` before any balance is touched. */
  function TransferRefusal(l: Ledger, from: AccountId, to: AccountId, amount: Money): Option<WalletError>
  {
    if !ValidAmount(amount) then Some(InvalidAmount)
    else if from == to then Some(SameAccountTransfer)
    else if from !in l.accounts then Some(AccountNotFound(from))
    else if l.accounts[from].frozen then Some(AccountFrozen(from))
    else if to !in l.accounts then Some(AccountNotFound(to))
    else if l.accounts[to].frozen then Some(AccountFrozen(to))
    else if Balance(l.accounts[from], NormalizeCurrency(amount.currency)) < amount.amountMinor then
      Some(InsufficientFunds(from))
    else None
  }

  /** The receiving balance would not fit: the transfer fails after the debit. */
  predicate CreditOverflows(l: Ledger, to: AccountId, amount: Money)
  {
    to in l.accounts && RawBalance(l.accounts[to], NormalizeCurrency(amount.currency)) + amount.amountMinor >= I64_END
  }

  /** `transfer`: debit, then credit. The debit is not undone when the credit overflows. */
  function TransferOf(
    l: Ledger, requestId: string, from: AccountId, to: AccountId, amount: Money,
    reference: Option<string>): (Ledger, Outcome)
  {
    if Known(l, requestId) then (l, Done(KnownEntry(l, requestId)))
    else
      var refusal := TransferRefusal(l, from, to, amount);
      if refusal.Some? then (l, Failed(refusal.value))
      else
        NormalizeIdempotent(amount.currency);
        MoveOf(l, requestId, from, to, Money(NormalizeCurrency(amount.currency), amount.amountMinor), reference)
  }

  /** The two balance updates of `transfer` and its entry. */
  function MoveOf(
    l: Ledger, requestId: string, from: AccountId, to: AccountId, m: Money,
    reference: Option<string>): (Ledger, Outcome)
    requires from in l.accounts && to in l.accounts && from != to &&
      0 < m.amountMinor <= RawBalance(l.accounts[from], m.currency)
  {
    var debited := SetBalance(l, from, m.currency, RawBalance(l.accounts[from], m.currency) - m.amountMinor);
    var balance := RawBalance(debited.accounts[to], m.currency);
    if balance + m.amountMinor >= I64_END then (SetBalance(debited, to, m.currency, balance), Failed(BalanceOverflow))
    else
      var entry := Entry(LedgerId(|l.entries| + 1), requestId, Transfer, Some(from), Some(to), m, reference);
      (InsertEntry(SetBalance(debited, to, m.currency, balance + m.amountMinor), entry), Done(entry))
  }

  /** `refund_transfer`: the reverse transfer, relabelled as a refund. */
  function RefundOf(l: Ledger, requestId: string, original: string): (Ledger, Outcome)
  {
    if Known(l, requestId) then (l, Done(KnownEntry(l, requestId)))
    else if original !in l.entries then (l, Failed(EntryNotFound(original)))
    else
      var o := l.entries[original];
      if o.kind != Transfer || o.from.None? || o.to.None? then (l, Failed(NotRefundable(original)))
      else
        var (after, outcome) :=
          TransferOf(l, requestId, o.to.value, o.from.value, o.amount, Some(RefundReference(original)));
        if outcome.Failed? then (after, outcome)
        else
          var entry := outcome.entry.(kind := Refund);
          (after.(entries := after.entries[entry.id := entry]), Done(entry))
  }

  class WalletLedger {
    var accounts: map<AccountId, Account>
    var entries: map<string, Entry>
    var requestEntries: map<string, string>

    function View(): Ledger
      reads this
    {
      Ledger(accounts, entries, requestEntries)
    }

    constructor ()
      ensures View() == EMPTY
    {
      accounts, entries, requestEntries := map[], map[], map[];
    }

    method CreateAccount(id: AccountId, owner: ActorId) returns (r: Status)
      modifies this
      ensures (View(), r) == CreateAccountOf(old(View()), id, owner)
    {
      if Trim(id) == "" {
        return Refused(InvalidAccountId);
      }
      if id in accounts {
        return Refused(DuplicateAccount);
      }
      accounts := accounts[id := Account(owner, map[], false)];
      return Created;
    }

    method Credit(requestId: string, id: AccountId, amount: Money, reference: Option<string>) returns (r: Outcome)
      modifies this
      ensures (View(), r) == CreditOf(old(View()), requestId, id, amount, reference)
    {
      hide NormalizeCurrency, LedgerId, Trim;
      if Known(View(), requestId) {
        return Done(KnownEntry(View(), requestId));
      }
      if !ValidAmount(amount) {
        return Failed(InvalidAmount);
      }
      if id !in accounts {
        return Failed(AccountNotFound(id));
      }
      if accounts[id].frozen {
        return Failed(AccountFrozen(id));
      }
      var currency := NormalizeCurrency(amount.currency);
      var balance := RawBalance(accounts[id], currency);
      if balance + amount.amountMinor >= I64_END {
        PutBalance(id, currency, balance);
        return Failed(BalanceOverflow);
      }
      PutBalance(id, currency, balance + amount.amountMinor);
      var entry :=
        Entry(LedgerId(|entries| + 1), requestId, Kind.Credit, None, Some(id), Money(currency, amount.amountMinor),
          reference);
      PutEntry(entry);
      return Done(entry);
    }

    method Transfer(
      requestId: string, from: AccountId, to: AccountId, amount: Money, reference: Option<string>) returns (r: Outcome)
      modifies this
      ensures (View(), r) == TransferOf(old(View()), requestId, from, to, amount, reference)
    {
      if Known(View(), requestId) {
        return Done(KnownEntry(View(), requestId));
      }
      var refusal := TransferRefusal(View(), from, to, amount);
      if refusal.Some? {
        return Failed(refusal.value);
      }
      NormalizeIdempotent(amount.currency);
      r := Move(requestId, from, to, Money(NormalizeCurrency(amount.currency), amount.amountMinor), reference);
    }

    method Move(
      requestId: string, from: AccountId, to: AccountId, m: Money, reference: Option<string>) returns (r: Outcome)
      requires from in accounts && to in accounts && from != to &&
        0 < m.amountMinor <= RawBalance(accounts[from], m.currency)
      modifies this
      ensures (View(), r) == MoveOf(old(View()), requestId, from, to, m, reference)
    {
      hide LedgerId;
      PutBalance(from, m.currency, RawBalance(accounts[from], m.currency) - m.amountMinor);
      var balance := RawBalance(accounts[to], m.currency);
      if balance + m.amountMinor >= I64_END {
        PutBalance(to, m.currency, balance);
        return Failed(BalanceOverflow);
      }
      PutBalance(to, m.currency, balance + m.amountMinor);
      var entry := Entry(LedgerId(|entries| + 1), requestId, Kind.Transfer, Some(from), Some(to), m, reference);
      PutEntry(entry);
      return Done(entry);
    }

    method RefundTransfer(requestId: string, original: string) returns (r: Outcome)
      modifies this
      ensures (View(), r) == RefundOf(old(View()), requestId, original)
    {
      if Known(View(), requestId) {
        return Done(KnownEntry(View(), requestId));
      }
      if original !in entries {
        return Failed(EntryNotFound(original));
      }
      var o := entries[original];
      if o.kind != Kind.Transfer || o.from.None? || o.to.None? {
        return Failed(NotRefundable(original));
      }
      r := Transfer(requestId, o.to.value, o.from.value, o.amount, Some(RefundReference(original)));
      if r.Done? {
        var entry := r.entry.(kind := Refund);
        entries := entries[entry.id := entry];
        r := Done(entry);
      }
    }

    method PutBalance(id: AccountId, currency: string, value: i64)
      requires id in accounts
      modifies this`accounts
      ensures View() == SetBalance(old(View()), id, currency, value)
    {
      var a := accounts[id];
      accounts := accounts[id := a.(balances := a.balances[currency := value])];
    }

    method PutEntry(e: Entry)
      modifies this`entries, this`requestEntries
      ensures View() == InsertEntry(old(View()), e)
    {
      requestEntries := requestEntries[e.requestId := e.id];
      entries := entries[e.id := e];
    }
  }
}
