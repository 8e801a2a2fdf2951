/** Accounting laws of the wallet ledger: stored balances agree with the entries, money
    is conserved, entry ids never collide and request ids are idempotent. */
module LedgerLaws {
  import opened Wrappers
  import opened Bytes
  import opened Text
  import opened Wallet

  // ---------------------------------------------------------------- definitions

  /** What one entry does to an account in a currency. */
  function Effect(e: Entry, a: AccountId, currency: string): int
  {
    if e.amount.currency != currency then 0
    else (if e.to == Some(a) then e.amount.amountMinor else 0) - (if e.from == Some(a) then e.amount.amountMinor else 0)
  }

  /** Incoming minus outgoing amounts over the first n entries. */
  function Net(entries: map<string, Entry>, a: AccountId, currency: string, n: nat): int
  {
    if n == 0 then 0
    else
      Net(entries, a, currency, n - 1) +
      if LedgerId(n) in entries then Effect(entries[LedgerId(n)], a, currency) else 0
  }

  function CreditEffect(e: Entry, currency: string): int
  {
    if e.kind == Credit && e.amount.currency == currency then e.amount.amountMinor else 0
  }

  /** Money that entered the ledger over the first n entries. */
  function Credited(entries: map<string, Entry>, currency: string, n: nat): int
  {
    if n == 0 then 0
    else
      Credited(entries, currency, n - 1) +
      if LedgerId(n) in entries then CreditEffect(entries[LedgerId(n)], currency) else 0
  }

  /** The stored balance, zero for an account that does not exist. */
  function Held(accounts: map<AccountId, Account>, a: AccountId, currency: string): int
  {
    if a in accounts then RawBalance(accounts[a], currency) else 0
  }

  /** The sum of all stored balances in a currency. */
  ghost function Total(accounts: map<AccountId, Account>, currency: string): int
    decreases |accounts|
  {
    if accounts == map[] then 0
    else
      var a :| a in accounts;
      RawBalance(accounts[a], currency) + Total(accounts - {a}, currency)
  }

  /** Entries are numbered ledger:1 .. ledger:n without gaps. */
  ghost predicate Numbered(l: Ledger)
  {
    (forall i :: 1 <= i <= |l.entries| ==> LedgerId(i) in l.entries) &&
    forall k :: k in l.entries ==> l.entries[k].id == k && NumberedUpTo(k, |l.entries|)
  }

  ghost predicate NumberedUpTo(k: string, n: nat)
  {
    exists i :: 1 <= i <= n && k == LedgerId(i)
  }

  /** Request ids and entries determine each other. */
  ghost predicate Indexed(l: Ledger)
  {
    (forall r :: r in l.requests ==> l.requests[r] in l.entries && l.entries[l.requests[r]].requestId == r) &&
    forall k :: k in l.entries ==> l.entries[k].requestId in l.requests && l.requests[l.entries[k].requestId] == k
  }

  ghost predicate Agrees(l: Ledger)
  {
    forall a: AccountId, currency: string ::
      0 <= Held(l.accounts, a, currency) && Held(l.accounts, a, currency) == Net(l.entries, a, currency, |l.entries|)
  }

  ghost predicate Conserved(l: Ledger)
  {
    forall currency: string :: Total(l.accounts, currency) == Credited(l.entries, currency, |l.entries|)
  }

  ghost predicate LedgerInv(l: Ledger)
  {
    Numbered(l) && Indexed(l) && Agrees(l) && Conserved(l)
  }

  lemma EmptyLedgerInv()
    ensures LedgerInv(EMPTY)
  {
  }

  // ------------------------------------------------------------- sums and frames

  lemma {:induction false} TotalPick(accounts: map<AccountId, Account>, currency: string, a: AccountId)
    requires a in accounts
    ensures Total(accounts, currency) == RawBalance(accounts[a], currency) + Total(accounts - {a}, currency)
    decreases |accounts|
  {
    var b :| b in accounts &&
      Total(accounts, currency) == RawBalance(accounts[b], currency) + Total(accounts - {b}, currency);
    if a != b {
      TotalPick(accounts - {b}, currency, a);
      TotalPick(accounts - {a}, currency, b);
      assert accounts - {b} - {a} == accounts - {a} - {b};
    }
  }

  lemma TotalUpdate(accounts: map<AccountId, Account>, currency: string, a: AccountId, x: Account)
    ensures Total(accounts[a := x], currency) ==
      Total(accounts, currency) + RawBalance(x, currency) -
      if a in accounts then RawBalance(accounts[a], currency) else 0
  {
    TotalPick(accounts[a := x], currency, a);
    if a in accounts {
      TotalPick(accounts, currency, a);
      assert accounts[a := x] - {a} == accounts - {a};
    } else {
      assert accounts[a := x] - {a} == accounts;
    }
  }

  ghost predicate SameMovement(x: Entry, y: Entry)
  {
    x.from == y.from && x.to == y.to && x.amount == y.amount && (x.kind == Credit <==> y.kind == Credit)
  }

  /** Sums over entries only see who paid whom how much, and credits. */
  lemma {:induction false} SumsFrame(
    e: map<string, Entry>, f: map<string, Entry>, a: AccountId, currency: string, n: nat)
    requires forall i :: 1 <= i <= n ==>
      LedgerId(i) in e && LedgerId(i) in f && SameMovement(e[LedgerId(i)], f[LedgerId(i)])
    ensures Net(e, a, currency, n) == Net(f, a, currency, n)
    ensures Credited(e, currency, n) == Credited(f, currency, n)
  {
    if n != 0 { SumsFrame(e, f, a, currency, n - 1); }
  }

  // ---------------------------------------------------------- inserting an entry

  /** The next id is new: ids never collide. */
  lemma NextIdIsFresh(l: Ledger)
    requires Numbered(l)
    ensures LedgerId(|l.entries| + 1) !in l.entries
  {
    if LedgerId(|l.entries| + 1) in l.entries {
      var i :| 1 <= i <= |l.entries| && LedgerId(|l.entries| + 1) == LedgerId(i);
      LedgerIdInjective(|l.entries| + 1, i);
    }
  }

  lemma UnknownIsUnused(l: Ledger, requestId: string)
    requires Indexed(l) && !Known(l, requestId)
    ensures requestId !in l.requests
  {
  }

  ghost predicate NextEntry(l: Ledger, e: Entry)
  {
    e.id == LedgerId(|l.entries| + 1) && e.requestId !in l.requests
  }

  lemma InsertKeepsNumbered(l: Ledger, e: Entry)
    requires Numbered(l) && NextEntry(l, e)
    ensures Numbered(InsertEntry(l, e))
    ensures |InsertEntry(l, e).entries| == |l.entries| + 1
  {
    NextIdIsFresh(l);
    var m := InsertEntry(l, e);
    var n := |l.entries|;
    forall k | k in m.entries
      ensures m.entries[k].id == k && NumberedUpTo(k, n + 1)
    {
      if k != e.id {
        assert NumberedUpTo(k, n);
      } else {
        assert k == LedgerId(n + 1);
      }
    }
  }

  lemma InsertKeepsIndexed(l: Ledger, e: Entry)
    requires Numbered(l) && Indexed(l) && NextEntry(l, e)
    ensures Indexed(InsertEntry(l, e))
  {
    NextIdIsFresh(l);
  }

  lemma InsertAddsToSums(l: Ledger, e: Entry, a: AccountId, currency: string)
    requires Numbered(l) && NextEntry(l, e)
    ensures var m := InsertEntry(l, e); var n := |l.entries|;
      Net(m.entries, a, currency, n + 1) == Net(l.entries, a, currency, n) + Effect(e, a, currency) &&
      Credited(m.entries, currency, n + 1) == Credited(l.entries, currency, n) + CreditEffect(e, currency)
  {
    NextIdIsFresh(l);
    SumsFrame(l.entries, InsertEntry(l, e).entries, a, currency, |l.entries|);
  }

  /** A ledger whose balances already include the effect of the next entry. */
  ghost predicate Ahead(l: Ledger, accounts: map<AccountId, Account>, e: Entry)
  {
    (forall a: AccountId, currency: string ::
      0 <= Held(accounts, a, currency) &&
      Held(accounts, a, currency) == Held(l.accounts, a, currency) + Effect(e, a, currency)) &&
    forall currency: string :: Total(accounts, currency) == Total(l.accounts, currency) + CreditEffect(e, currency)
  }

  lemma InsertKeepsInv(l: Ledger, accounts: map<AccountId, Account>, e: Entry)
    requires LedgerInv(l) && NextEntry(l, e) && Ahead(l, accounts, e)
    ensures LedgerInv(InsertEntry(l.(accounts := accounts), e))
  {
    var moved := l.(accounts := accounts);
    var m := InsertEntry(moved, e);
    InsertKeepsNumbered(moved, e);
    InsertKeepsIndexed(moved, e);
    forall a: AccountId, currency: string
      ensures 0 <= Held(m.accounts, a, currency) &&
        Held(m.accounts, a, currency) == Net(m.entries, a, currency, |m.entries|)
    {
      InsertAddsToSums(l, e, a, currency);
      assert Held(l.accounts, a, currency) == Net(l.entries, a, currency, |l.entries|);
    }
    forall currency: string
      ensures Total(m.accounts, currency) == Credited(m.entries, currency, |m.entries|)
    {
      InsertAddsToSums(l, e, "", currency);
    }
  }

  // ------------------------------------------------------------- every operation

  /** Writing back the same balance changes nothing but the presence of a zero. */
  lemma RewriteKeepsInv(l: Ledger, id: AccountId, currency: string)
    requires LedgerInv(l) && id in l.accounts
    ensures LedgerInv(SetBalance(l, id, currency, RawBalance(l.accounts[id], currency)))
  {
    var m := SetBalance(l, id, currency, RawBalance(l.accounts[id], currency));
    forall a: AccountId, c: string
      ensures 0 <= Held(m.accounts, a, c) && Held(m.accounts, a, c) == Net(m.entries, a, c, |m.entries|)
    {
      assert Held(m.accounts, a, c) == Held(l.accounts, a, c);
    }
    forall c: string
      ensures Total(m.accounts, c) == Credited(m.entries, c, |m.entries|)
    {
      TotalUpdate(l.accounts, c, id, m.accounts[id]);
    }
  }

  lemma CreateKeepsInv(l: Ledger, id: AccountId, owner: ActorId)
    requires LedgerInv(l)
    ensures LedgerInv(CreateAccountOf(l, id, owner).0)
  {
    var m := CreateAccountOf(l, id, owner).0;
    if m != l {
      forall a: AccountId, c: string
        ensures 0 <= Held(m.accounts, a, c) && Held(m.accounts, a, c) == Net(m.entries, a, c, |m.entries|)
      {
        assert Held(m.accounts, a, c) == Held(l.accounts, a, c);
      }
      forall c: string
        ensures Total(m.accounts, c) == Credited(m.entries, c, |m.entries|)
      {
        TotalUpdate(l.accounts, c, id, m.accounts[id]);
      }
    }
  }

  lemma CreditKeepsInv(l: Ledger, requestId: string, id: AccountId, amount: Money, reference: Option<string>)
    requires LedgerInv(l)
    ensures LedgerInv(CreditOf(l, requestId, id, amount, reference).0)
  {
    var (m, outcome) := CreditOf(l, requestId, id, amount, reference);
    if !Known(l, requestId) && outcome.Done? {
      NewCreditKeepsInv(l, requestId, id, amount, reference, m, outcome.entry);
    } else if outcome == Failed(BalanceOverflow) {
      RewriteKeepsInv(l, id, NormalizeCurrency(amount.currency));
    }
  }

  lemma CreditShape(
    l: Ledger, requestId: string, id: AccountId, amount: Money, reference: Option<string>, m: Ledger, e: Entry)
    requires !Known(l, requestId) && CreditOf(l, requestId, id, amount, reference) == (m, Done(e))
    ensures e.id == LedgerId(|l.entries| + 1) && e.requestId == requestId && e.kind == Credit && e.from == None &&
      e.to == Some(id)
    ensures id in l.accounts && 0 < e.amount.amountMinor &&
      RawBalance(l.accounts[id], e.amount.currency) + e.amount.amountMinor < I64_END
    ensures 0 <= RawBalance(l.accounts[id], e.amount.currency) ==>
      m == InsertEntry(SetBalance(l, id, e.amount.currency,
        RawBalance(l.accounts[id], e.amount.currency) + e.amount.amountMinor), e)
  {
  }

  lemma NewCreditKeepsInv(
    l: Ledger, requestId: string, id: AccountId, amount: Money, reference: Option<string>, m: Ledger, e: Entry)
    requires LedgerInv(l) && !Known(l, requestId) && CreditOf(l, requestId, id, amount, reference) == (m, Done(e))
    ensures LedgerInv(m)
  {
    hide CreditOf, NormalizeCurrency;
    UnknownIsUnused(l, requestId);
    CreditShape(l, requestId, id, amount, reference, m, e);
    assert 0 <= Held(l.accounts, id, e.amount.currency);
    CreditIsAhead(l, id, e);
    InsertKeepsInv(l,
      SetBalance(l, id, e.amount.currency,
        RawBalance(l.accounts[id], e.amount.currency) + e.amount.amountMinor).accounts, e);
  }

  lemma CreditIsAhead(l: Ledger, id: AccountId, e: Entry)
    requires Agrees(l) && id in l.accounts && e.kind == Credit && e.from == None && e.to == Some(id)
    requires 0 < e.amount.amountMinor && RawBalance(l.accounts[id], e.amount.currency) + e.amount.amountMinor < I64_END
    ensures Ahead(l,
      SetBalance(l, id, e.amount.currency,
        RawBalance(l.accounts[id], e.amount.currency) + e.amount.amountMinor).accounts, e)
  {
    var m := SetBalance(l, id, e.amount.currency, RawBalance(l.accounts[id], e.amount.currency) + e.amount.amountMinor);
    forall a: AccountId, c: string
      ensures 0 <= Held(m.accounts, a, c) && Held(m.accounts, a, c) == Held(l.accounts, a, c) + Effect(e, a, c)
    {
      assert 0 <= Held(l.accounts, a, c);
    }
    forall c: string
      ensures Total(m.accounts, c) == Total(l.accounts, c) + CreditEffect(e, c)
    {
      TotalUpdate(l.accounts, c, id, m.accounts[id]);
    }
  }

  /** A transfer that gets past its checks and whose credit fits. */
  function Moved(l: Ledger, from: AccountId, to: AccountId, m: Money): Ledger
    requires from in l.accounts && to in l.accounts && from != to
    requires 0 < m.amountMinor <= RawBalance(l.accounts[from], m.currency)
    requires RawBalance(l.accounts[to], m.currency) + m.amountMinor < I64_END
    requires 0 <= RawBalance(l.accounts[to], m.currency)
  {
    var debited := SetBalance(l, from, m.currency, RawBalance(l.accounts[from], m.currency) - m.amountMinor);
    SetBalance(debited, to, m.currency, RawBalance(debited.accounts[to], m.currency) + m.amountMinor)
  }

  lemma TransferIsAhead(l: Ledger, from: AccountId, to: AccountId, e: Entry)
    requires Agrees(l) && e.kind == Transfer && e.from == Some(from) && e.to == Some(to)
    requires from in l.accounts && to in l.accounts && from != to
    requires 0 < e.amount.amountMinor <= RawBalance(l.accounts[from], e.amount.currency)
    requires RawBalance(l.accounts[to], e.amount.currency) + e.amount.amountMinor < I64_END
    requires 0 <= RawBalance(l.accounts[to], e.amount.currency)
    ensures Ahead(l, Moved(l, from, to, e.amount).accounts, e)
  {
    var m := Moved(l, from, to, e.amount);
    forall a: AccountId, c: string
      ensures 0 <= Held(m.accounts, a, c) && Held(m.accounts, a, c) == Held(l.accounts, a, c) + Effect(e, a, c)
    {
      assert 0 <= Held(l.accounts, a, c);
    }
    var debited :=
      SetBalance(l, from, e.amount.currency, RawBalance(l.accounts[from], e.amount.currency) - e.amount.amountMinor);
    forall c: string
      ensures Total(m.accounts, c) == Total(l.accounts, c) + CreditEffect(e, c)
    {
      TotalUpdate(l.accounts, c, from, debited.accounts[from]);
      TotalUpdate(debited.accounts, c, to, m.accounts[to]);
    }
  }

  /** The transfer passes every check but the final credit. */
  predicate OverflowsAfterDebit(l: Ledger, requestId: string, from: AccountId, to: AccountId, amount: Money)
  {
    !Known(l, requestId) && TransferRefusal(l, from, to, amount).None? && CreditOverflows(l, to, amount)
  }

  lemma TransferShape(
    l: Ledger, requestId: string, from: AccountId, to: AccountId, amount: Money, reference: Option<string>)
    requires Agrees(l) && !Known(l, requestId) && TransferOf(l, requestId, from, to, amount, reference).1.Done?
    ensures var (m, outcome) := TransferOf(l, requestId, from, to, amount, reference); var e := outcome.entry;
      e == Entry(LedgerId(|l.entries| + 1), requestId, Transfer, Some(from), Some(to),
        Money(NormalizeCurrency(amount.currency), amount.amountMinor), reference) &&
      from in l.accounts && to in l.accounts && from != to &&
      0 < e.amount.amountMinor <= RawBalance(l.accounts[from], e.amount.currency) &&
      RawBalance(l.accounts[to], e.amount.currency) + e.amount.amountMinor < I64_END &&
      0 <= RawBalance(l.accounts[to], e.amount.currency) &&
      m == InsertEntry(l.(accounts := Moved(l, from, to, e.amount).accounts), e)
  {
    NormalizeIdempotent(amount.currency);
    assert 0 <= Held(l.accounts, to, NormalizeCurrency(amount.currency));
  }

  lemma SuccessfulTransferKeepsInv(
    l: Ledger, requestId: string, from: AccountId, to: AccountId, amount: Money, reference: Option<string>)
    requires LedgerInv(l) && !Known(l, requestId) && TransferOf(l, requestId, from, to, amount, reference).1.Done?
    ensures LedgerInv(TransferOf(l, requestId, from, to, amount, reference).0)
  {
    var (m, outcome) := TransferOf(l, requestId, from, to, amount, reference);
    TransferShape(l, requestId, from, to, amount, reference);
    MoveKeepsInv(l, from, to, outcome.entry, m);
  }

  lemma MoveKeepsInv(l: Ledger, from: AccountId, to: AccountId, e: Entry, m: Ledger)
    requires LedgerInv(l) && e.id == LedgerId(|l.entries| + 1) && !Known(l, e.requestId)
    requires e.kind == Transfer && e.from == Some(from) && e.to == Some(to)
    requires from in l.accounts && to in l.accounts && from != to
    requires 0 < e.amount.amountMinor <= RawBalance(l.accounts[from], e.amount.currency)
    requires RawBalance(l.accounts[to], e.amount.currency) + e.amount.amountMinor < I64_END
    requires 0 <= RawBalance(l.accounts[to], e.amount.currency)
    requires m == InsertEntry(l.(accounts := Moved(l, from, to, e.amount).accounts), e)
    ensures LedgerInv(m)
  {
    UnknownIsUnused(l, e.requestId);
    TransferIsAhead(l, from, to, e);
    InsertKeepsInv(l, Moved(l, from, to, e.amount).accounts, e);
  }

  lemma OverflowBreaksAgreement(
    l: Ledger, requestId: string, from: AccountId, to: AccountId, amount: Money, reference: Option<string>)
    requires LedgerInv(l) && OverflowsAfterDebit(l, requestId, from, to, amount)
    ensures !Agrees(TransferOf(l, requestId, from, to, amount, reference).0)
  {
    var m := TransferOf(l, requestId, from, to, amount, reference).0;
    var c := NormalizeCurrency(amount.currency);
    assert Held(l.accounts, from, c) == Net(l.entries, from, c, |l.entries|);
    assert Held(m.accounts, from, c) == Held(l.accounts, from, c) - amount.amountMinor;
  }

  /** `transfer` on its own keeps the laws exactly when its credit does not overflow: on
      overflow the debit stays without an entry. */
  lemma TransferKeepsInvIff(
    l: Ledger, requestId: string, from: AccountId, to: AccountId, amount: Money, reference: Option<string>)
    requires LedgerInv(l)
    ensures LedgerInv(TransferOf(l, requestId, from, to, amount, reference).0) <==>
      !OverflowsAfterDebit(l, requestId, from, to, amount)
    ensures OverflowsAfterDebit(l, requestId, from, to, amount) ==>
      TransferOf(l, requestId, from, to, amount, reference).1 == Failed(BalanceOverflow)
  {
    if OverflowsAfterDebit(l, requestId, from, to, amount) {
      OverflowBreaksAgreement(l, requestId, from, to, amount, reference);
    } else if !Known(l, requestId) && TransferRefusal(l, from, to, amount).None? {
      SuccessfulTransferKeepsInv(l, requestId, from, to, amount, reference);
    }
  }

  function Relabelled(l: Ledger, e: Entry): Ledger
  {
    l.(entries := l.entries[e.id := e.(kind := Refund)])
  }

  lemma RelabelKeepsIndexes(l: Ledger, e: Entry)
    requires Numbered(l) && Indexed(l) && e.id in l.entries && l.entries[e.id] == e
    ensures Numbered(Relabelled(l, e)) && Indexed(Relabelled(l, e)) && |Relabelled(l, e).entries| == |l.entries|
  {
    var m := Relabelled(l, e);
    assert m.entries.Keys == l.entries.Keys;
    assert |m.entries.Keys| == |l.entries.Keys|;
  }

  lemma RelabelKeepsInv(l: Ledger, e: Entry)
    requires LedgerInv(l) && e.id in l.entries && l.entries[e.id] == e && e.kind == Transfer
    ensures LedgerInv(Relabelled(l, e))
  {
    var m := Relabelled(l, e);
    RelabelKeepsIndexes(l, e);
    forall a: AccountId, c: string
      ensures 0 <= Held(m.accounts, a, c) && Held(m.accounts, a, c) == Net(m.entries, a, c, |m.entries|)
    {
      SumsFrame(l.entries, m.entries, a, c, |l.entries|);
      assert Held(l.accounts, a, c) == Net(l.entries, a, c, |l.entries|);
    }
    forall c: string
      ensures Total(m.accounts, c) == Credited(m.entries, c, |m.entries|)
    {
      SumsFrame(l.entries, m.entries, "", c, |l.entries|);
    }
  }

  /** A successful refund keeps the laws. */
  lemma SuccessfulRefundKeepsInv(l: Ledger, requestId: string, original: string)
    requires LedgerInv(l) && RefundOf(l, requestId, original).1.Done?
    ensures LedgerInv(RefundOf(l, requestId, original).0)
  {
    if !Known(l, requestId) {
      var o := l.entries[original];
      var (m, outcome) := TransferOf(l, requestId, o.to.value, o.from.value, o.amount, Some(RefundReference(original)));
      SuccessfulTransferKeepsInv(l, requestId, o.to.value, o.from.value, o.amount, Some(RefundReference(original)));
      RelabelKeepsInv(m, outcome.entry);
    }
  }

  // ---------------------------------------------------------------- idempotency

  /** A known request id changes nothing and answers with the stored entry, whatever the
      other arguments are. */
  lemma KnownRequestIsIdempotent(
    l: Ledger, requestId: string, a: AccountId, b: AccountId, amount: Money, reference: Option<string>,
    original: string)
    requires LedgerInv(l) && Known(l, requestId)
    ensures CreditOf(l, requestId, a, amount, reference) == (l, Done(KnownEntry(l, requestId)))
    ensures TransferOf(l, requestId, a, b, amount, reference) == (l, Done(KnownEntry(l, requestId)))
    ensures RefundOf(l, requestId, original) == (l, Done(KnownEntry(l, requestId)))
    ensures KnownEntry(l, requestId).requestId == requestId
  {
  }

  /** ... and every successful operation makes its request id known. */
  lemma SuccessMakesKnown(
    l: Ledger, requestId: string, a: AccountId, b: AccountId, amount: Money, reference: Option<string>)
    requires LedgerInv(l)
    ensures var (m, r) := CreditOf(l, requestId, a, amount, reference);
      r.Done? ==> Known(m, requestId) && KnownEntry(m, requestId) == r.entry
    ensures var (m, r) := TransferOf(l, requestId, a, b, amount, reference);
      r.Done? ==> Known(m, requestId) && KnownEntry(m, requestId) == r.entry
  {
  }
}
