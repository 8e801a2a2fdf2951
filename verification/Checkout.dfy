/** What payments do to the money: an invoice charges the sum of its lines, a checkout moves
    exactly that from the buyer to the seller, a refund moves it back, a settlement adds it. */
module Checkout {
  import opened Wrappers
  import opened Bytes
  import opened Text
  import opened Wallet
  import opened LedgerLaws
  import opened Orders

  // -------------------------------------------------------------- invoice totals

  /** The sum of the price lines. */
  function SumOf(prices: seq<Money>): int
  {
    if prices == [] then 0 else SumOf(prices[..|prices| - 1]) + prices[|prices| - 1].amountMinor
  }

  predicate Fits(n: int)
  {
    -I64_END <= n < I64_END
  }

  lemma {:induction false} SumFromHead(prices: seq<Money>)
    requires prices != []
    ensures SumOf(prices) == prices[0].amountMinor + SumOf(prices[1..])
  {
    if |prices| == 1 {
      assert prices[..0] == [] && prices[1..] == [];
    } else {
      var front := prices[..|prices| - 1];
      SumFromHead(front);
      assert front[1..] == prices[1..][..|prices| - 2];
    }
  }

  /** Every prefix of the lines, added to the total so far, fits. */
  ghost predicate PrefixesFit(prices: seq<Money>, total: int)
  {
    forall k :: 0 <= k <= |prices| ==> Fits(total + SumOf(prices[..k]))
  }

  lemma PrefixSum(prices: seq<Money>, k: nat)
    requires 0 < k <= |prices|
    ensures SumOf(prices[..k]) == prices[0].amountMinor + SumOf(prices[1..][..k - 1])
  {
    SumFromHead(prices[..k]);
    assert prices[..k][1..] == prices[1..][..k - 1];
  }

  lemma PrefixesFitStep(prices: seq<Money>, total: i64)
    requires prices != []
    ensures PrefixesFit(prices, total) <==>
      Fits(total + prices[0].amountMinor) && PrefixesFit(prices[1..], total + prices[0].amountMinor)
  {
    hide SumOf;
    var next, rest := total + prices[0].amountMinor, prices[1..];
    EmptySum(prices);
    EmptySum(rest);
    if PrefixesFit(prices, total) {
      forall k | 0 <= k <= |rest|
        ensures Fits(next + SumOf(rest[..k]))
      {
        PrefixSum(prices, k + 1);
        assert Fits(total + SumOf(prices[..k + 1]));
      }
      assert Fits(next + SumOf(rest[..0]));
    } else {
      var k :| 0 <= k <= |prices| && !Fits(total + SumOf(prices[..k]));
      if k > 0 { PrefixSum(prices, k); }
    }
  }

  lemma EmptySum(prices: seq<Money>)
    ensures SumOf(prices[..0]) == 0
  {
  }

  /** The checked total is the sum of the lines, and it is missing exactly when some prefix of
      the lines does not fit. */
  lemma {:induction false} CheckedTotalIff(prices: seq<Money>, total: i64)
    ensures CheckedTotal(prices, total).Some? <==> PrefixesFit(prices, total)
    ensures CheckedTotal(prices, total).Some? ==> CheckedTotal(prices, total).value == total + SumOf(prices)
    decreases |prices|
  {
    if prices == [] {
      assert forall k :: 0 <= k <= |prices| ==> prices[..k] == [];
    } else {
      PrefixesFitStep(prices, total);
      SumFromHead(prices);
      hide PrefixesFit, SumOf;
      var next := total + prices[0].amountMinor;
      if Fits(next) { CheckedTotalIff(prices[1..], next); }
    }
  }

  // ------------------------------------------------------------------- movements

  /** What a movement of money adds to an account in a currency. */
  function Flow(from: Option<AccountId>, to: Option<AccountId>, amount: Money, a: AccountId, currency: string): int
  {
    if currency != amount.currency then 0
    else (if to == Some(a) then amount.amountMinor else 0) - (if from == Some(a) then amount.amountMinor else 0)
  }

  /** The only difference between two ledgers is one movement. */
  ghost predicate MovesOnly(l: Ledger, m: Ledger, from: Option<AccountId>, to: Option<AccountId>, amount: Money)
  {
    forall a: AccountId, currency: string ::
      Held(m.accounts, a, currency) == Held(l.accounts, a, currency) + Flow(from, to, amount, a, currency)
  }

  /** A lawful ledger that grew by one entry moved exactly the money of that entry. */
  lemma GrowthMovesMoney(l: Ledger, m: Ledger, x: Entry)
    requires LedgerInv(l) && LedgerInv(m) && Grew(l, m, x)
    ensures MovesOnly(l, m, x.from, x.to, x.amount)
  {
    forall a: AccountId, currency: string
      ensures Held(m.accounts, a, currency) == Held(l.accounts, a, currency) + Flow(x.from, x.to, x.amount, a, currency)
    {
      GrowthAddsEffect(l, m, x, a, currency);
      LawfulAgrees(l);
      LawfulAgrees(m);
    }
  }

  lemma GrowthAddsEffect(l: Ledger, m: Ledger, x: Entry, a: AccountId, currency: string)
    requires Numbered(l) && Grew(l, m, x)
    ensures Net(m.entries, a, currency, |m.entries|) ==
      Net(l.entries, a, currency, |l.entries|) + Flow(x.from, x.to, x.amount, a, currency)
  {
    hide LedgerId;
    var n := |l.entries|;
    forall i | 1 <= i <= n
      ensures LedgerId(i) in l.entries && LedgerId(i) in m.entries &&
        SameMovement(l.entries[LedgerId(i)], m.entries[LedgerId(i)])
    {
      assert LedgerId(i) in l.entries;
    }
    SumsFrame(l.entries, m.entries, a, currency, n);
    assert Net(m.entries, a, currency, n + 1) == Net(m.entries, a, currency, n) + Effect(x, a, currency);
    assert |m.entries| == n + 1;
  }

  lemma LawfulAgrees(l: Ledger)
    requires LedgerInv(l)
    ensures Agrees(l) && Numbered(l)
  {
  }

  // ------------------------------------------------------------------- checkouts

  lemma FirstCheckoutIsUnknown(e: Engine, orderId: string)
    requires PaymentsInv(e) && orderId !in e.orders
    ensures CheckoutRequest(orderId) !in e.wallet.requests
  {
  }

  lemma InvoiceAmount(v: Invoice)
    requires ValidInvoice(v)
    ensures 0 < SumOf(v.prices) < I64_END && CheckoutAmount(v) == Money(v.currency, SumOf(v.prices))
  {
    CheckedTotalIff(v.prices, 0);
    assert v.prices[0].currency == v.currency && ValidMoney(v.prices[0]);
    UppercaseIsNormal(v.currency);
  }

  /** A first accepted checkout makes a Paid order for exactly the sum of the invoice's lines,
      backed by a new transfer of that sum from the buyer's wallet to the seller's, and moves
      that money and no other. */
  lemma CheckoutCharges(e: Engine, invoiceId: string, orderId: string, buyer: ActorId, now: int)
    requires PaymentsInv(e) && orderId !in e.orders && DecideCheckout(e, invoiceId, orderId, buyer, now).Events?
    ensures invoiceId in e.invoices && Fits(SumOf(e.invoices[invoiceId].prices))
    ensures var v := e.invoices[invoiceId];
      var amount := Money(v.currency, SumOf(v.prices));
      var after := Execute(e, CheckoutInvoice(invoiceId, orderId, buyer, now));
      var id := LedgerId(|e.wallet.entries| + 1);
      id !in e.wallet.entries && id in after.wallet.entries && after.wallet.entries[id].kind == Transfer &&
      after.wallet.entries == e.wallet.entries[id := after.wallet.entries[id]] &&
      after.wallet.entries[id].amount == amount &&
      after.orders == e.orders[orderId := Order(orderId, v.id, buyer, Paid, amount, Some(id))] &&
      MovesOnly(e.wallet, after.wallet, Some(WalletId(buyer)), Some(WalletId(v.seller)), amount)
  {
    hide LedgerInv, TransferOf, CheckedTotal, CheckoutWallet, NormalizeCurrency, CheckoutAmount, ValidInvoice, SumOf;
    TakePayments(e);
    CheckoutTransfers(e, invoiceId, orderId, buyer, now);
    var v := e.invoices[invoiceId];
    InvoiceAmount(v);
    CheckoutAmountIsNormal(v);
    var c := CheckoutInvoice(invoiceId, orderId, buyer, now);
    var d := Decide(e, c);
    var m, x := d.events[0].wallet, d.events[0].entry;
    var w := CheckoutWallet(e, buyer, v.seller);
    CheckoutWalletKeepsInv(e, buyer, v.seller);
    FirstCheckoutIsUnknown(e, orderId);
    CheckoutGrows(e.wallet, w, CheckoutRequest(orderId), WalletId(buyer), WalletId(v.seller), CheckoutAmount(v),
                  Some(v.id), m, x);
    GrowthMovesMoney(e.wallet, m, x);
    ExecuteTwo(e, c, m, x, d.events[1].order);
  }

  predicate Frozen(l: Ledger, a: AccountId)
  {
    a in l.accounts && l.accounts[a].frozen
  }

  /** Opening a wallet for an actor never fails, and an opened one is empty and not frozen. */
  lemma WalletOpens(l: Ledger, owner: ActorId)
    ensures var (m, r) := EnsureAccount(l, WalletId(owner), owner);
      r.Created? && WalletId(owner) in m.accounts && SameMoney(l, m) &&
      (forall a :: a in l.accounts ==> a in m.accounts && m.accounts[a] == l.accounts[a]) &&
      (forall a :: Frozen(m, a) <==> Frozen(l, a))
  {
    var id := WalletId(owner);
    assert id[0] == 'w' && TrimStart(id) == id;
    TrimEndKeepsFirst(id);
  }

  lemma CurrencyIsValid(v: Invoice)
    requires ValidInvoice(v)
    ensures NormalizeCurrency(v.currency) == v.currency && Utf8Len(Trim(v.currency)) >= 3
  {
    assert v.prices[0].currency == v.currency && ValidMoney(v.prices[0]);
    UppercaseIsNormal(v.currency);
    assert Trimmed(v.currency) && Trim(v.currency) == v.currency;
  }

  /** A transfer between two open wallets succeeds exactly when they differ, neither is
      frozen, the sender has the money and the receiver has room for it. */
  lemma TransferSucceedsIff(
    l: Ledger, requestId: string, from: AccountId, to: AccountId, amount: Money, reference: Option<string>)
    requires Agrees(l) && !Known(l, requestId) && from in l.accounts && to in l.accounts && ValidAmount(amount)
    requires NormalizeCurrency(amount.currency) == amount.currency
    ensures TransferOf(l, requestId, from, to, amount, reference).1.Done? <==>
      from != to && !Frozen(l, from) && !Frozen(l, to) &&
      amount.amountMinor <= Held(l.accounts, from, amount.currency) &&
      Held(l.accounts, to, amount.currency) + amount.amountMinor < I64_END
  {
    hide NormalizeCurrency, LedgerId, ValidAmount;
  }

  /** A first checkout is accepted exactly when the invoice exists and has not expired, the
      buyer is known and is not the seller, neither wallet is frozen, and the sum of the lines
      is in the buyer's wallet and fits into the seller's. */
  lemma CheckoutAcceptedIff(e: Engine, invoiceId: string, orderId: string, buyer: ActorId, now: int)
    requires PaymentsInv(e) && orderId !in e.orders
    ensures DecideCheckout(e, invoiceId, orderId, buyer, now).Events? <==>
      invoiceId in e.invoices && buyer in e.actors &&
      var v := e.invoices[invoiceId];
      var from, to, sum := WalletId(buyer), WalletId(v.seller), SumOf(v.prices);
      !(v.expiresAt.Some? && v.expiresAt.value <= now) && from != to && !Frozen(e.wallet, from) &&
      !Frozen(e.wallet, to) &&
      sum <= Held(e.wallet.accounts, from, v.currency) && Held(e.wallet.accounts, to, v.currency) + sum < I64_END
  {
    hide LedgerInv, TransferOf, CheckedTotal, NormalizeCurrency, ValidInvoice, SumOf, EnsureAccount, WalletId, Trim,
      Utf8Len,
      CheckoutAmount;
    TakePayments(e);
    FirstCheckoutIsUnknown(e, orderId);
    if invoiceId in e.invoices && buyer in e.actors {
      var v := e.invoices[invoiceId];
      var from, to := WalletId(buyer), WalletId(v.seller);
      InvoiceAmount(v);
      CurrencyIsValid(v);
      TotalOfValid(v);
      WalletOpens(e.wallet, buyer);
      var w1 := EnsureAccount(e.wallet, from, buyer).0;
      WalletOpens(w1, v.seller);
      var w := EnsureAccount(w1, to, v.seller).0;
      EnsureKeepsInv(e.wallet, from, buyer);
      EnsureKeepsInv(w1, to, v.seller);
      LawfulAgrees(w);
      TransferSucceedsIff(w, CheckoutRequest(orderId), from, to, CheckoutAmount(v), Some(v.id));
    }
  }

  lemma TotalOfValid(v: Invoice)
    requires ValidInvoice(v)
    ensures CheckedTotal(v.prices, 0).Some? && CheckedTotal(v.prices, 0).value > 0
    ensures CheckoutAmount(v) == Money(AsciiUpper(v.currency), CheckedTotal(v.prices, 0).value)
  {
  }

  // --------------------------------------------------------------------- refunds

  /** The first refund of a paid order under a new request id is given by the invoice's seller
      alone, moves the order's amount back along its transfer, and moves no other money. */
  lemma RefundReturns(e: Engine, orderId: string, seller: ActorId, requestId: string)
    requires PaymentsInv(e) && DecideRefund(e, orderId, seller, requestId).Events? && !Known(e.wallet, requestId)
    requires e.orders[orderId].status == Paid
    ensures var o := e.orders[orderId];
      o.invoiceId in e.invoices && e.invoices[o.invoiceId].seller == seller && PaymentOf(o) in e.wallet.entries &&
      var x := e.wallet.entries[PaymentOf(o)];
      var after := Execute(e, RefundOrder(orderId, seller, requestId));
      after.orders == e.orders[orderId := o.(status := Refunded)] &&
      MovesOnly(e.wallet, after.wallet, x.to, x.from, o.amount)
  {
    hide LedgerInv, RefundOf, NormalizeCurrency;
    TakePayments(e);
    OrderFacts(e, orderId);
    RefundDecision(e, orderId, seller, requestId);
    var c := RefundOrder(orderId, seller, requestId);
    var d := Decide(e, c);
    var m, x := d.events[0].wallet, d.events[0].entry;
    RefundGrows(e.wallet, requestId, PaymentOf(e.orders[orderId]), m, x);
    GrowthMovesMoney(e.wallet, m, x);
    ExecuteTwo(e, c, m, x, e.orders[orderId].(status := Refunded));
  }

  // ----------------------------------------------------------------- settlements

  /** A new settlement adds its amount to the owner's wallet and moves no other money. */
  lemma SettlementAdds(e: Engine, requestId: string, owner: ActorId, amount: Money, reference: Option<string>)
    requires LedgerInv(e.wallet) && DecideCredit(e, requestId, owner, amount, reference).Events? &&
      !Known(e.wallet, requestId)
    ensures owner in e.actors && 0 < amount.amountMinor
    ensures var after := Execute(e, CreditSettlement(requestId, owner, amount, reference));
      after.orders == e.orders && after.invoices == e.invoices &&
      MovesOnly(e.wallet, after.wallet, None, Some(WalletId(owner)),
        Money(NormalizeCurrency(amount.currency), amount.amountMinor))
  {
    hide LedgerInv, NormalizeCurrency, EnsureAccount, WalletId;
    var d := DecideCredit(e, requestId, owner, amount, reference);
    var w := EnsureAccount(e.wallet, WalletId(owner), owner).0;
    var m, x := d.events[0].wallet, d.events[0].entry;
    EnsureKeepsInv(e.wallet, WalletId(owner), owner);
    CreditKeepsInv(w, requestId, WalletId(owner), amount, reference);
    CreditGrows(e.wallet, w, requestId, WalletId(owner), amount, reference, m, x);
    GrowthMovesMoney(e.wallet, m, x);
    ApplyOne(e, d.events[0]);
  }

  /** Crediting an open account succeeds exactly with a positive amount in a currency of at
      least three bytes, if the account is not frozen and has room for it. */
  lemma CreditSucceedsIff(l: Ledger, requestId: string, id: AccountId, amount: Money, reference: Option<string>)
    requires !Known(l, requestId)
    ensures CreditOf(l, requestId, id, amount, reference).1.Done? <==>
      Utf8Len(Trim(amount.currency)) >= 3 && amount.amountMinor > 0 && id in l.accounts && !Frozen(l, id) &&
      Held(l.accounts, id, NormalizeCurrency(amount.currency)) + amount.amountMinor < I64_END
  {
    hide NormalizeCurrency, LedgerId, Trim, Utf8Len;
  }

  /** An invoice is accepted exactly with an id, a title, lines of one three-letter currency
      that are not negative and add up to something that fits, a known seller and an existing
      conversation. */
  lemma InvoiceAcceptedIff(e: Engine, v: Invoice)
    ensures Decide(e, CreateInvoice(v)).Events? <==>
      Trim(v.id) != "" && Trim(v.title) != "" && Utf8Len(v.currency) == 3 && v.prices != [] &&
      (forall i :: 0 <= i < |v.prices| ==>
        v.prices[i].currency == v.currency && AsciiUppercase(v.currency) && v.prices[i].amountMinor >= 0) &&
      PrefixesFit(v.prices, 0) && 0 < SumOf(v.prices) && v.seller in e.actors && v.conversation in e.conversations
  {
    hide Trim, Utf8Len, PrefixesFit, SumOf;
    CheckedTotalIff(v.prices, 0);
  }

  // ------------------------------------------------------------------ repetitions

  /** Repeating a checkout of an existing order is accepted exactly for the same buyer and
      invoice while that has not expired, and changes nothing. */
  lemma RepeatedCheckoutIff(e: Engine, invoiceId: string, orderId: string, buyer: ActorId, now: int)
    requires PaymentsInv(e) && orderId in e.orders
    ensures DecideCheckout(e, invoiceId, orderId, buyer, now).Events? <==>
      invoiceId in e.invoices && buyer in e.actors &&
      !(e.invoices[invoiceId].expiresAt.Some? && e.invoices[invoiceId].expiresAt.value <= now) &&
      e.orders[orderId].invoiceId == e.invoices[invoiceId].id && e.orders[orderId].buyer == buyer
    ensures Execute(e, CheckoutInvoice(invoiceId, orderId, buyer, now)) == e
  {
    hide LedgerInv, RefundsMirror, CheckedTotal, TransferOf;
    OrderFacts(e, orderId);
    assert e.orders[orderId := e.orders[orderId]] == e.orders;
    ApplyOne(e, OrderUpserted(e.orders[orderId]));
  }

  /** Refunding a refunded order is left to the invoice's seller too, and changes nothing. */
  lemma RepeatedRefundIff(e: Engine, orderId: string, seller: ActorId, requestId: string)
    requires PaymentsInv(e) && orderId in e.orders && e.orders[orderId].status == Refunded
    ensures DecideRefund(e, orderId, seller, requestId).Events? <==>
      e.orders[orderId].invoiceId in e.invoices && e.invoices[e.orders[orderId].invoiceId].seller == seller
    ensures Execute(e, RefundOrder(orderId, seller, requestId)) == e
  {
    hide LedgerInv, RefundsMirror, RefundOf;
    OrderFacts(e, orderId);
    assert e.orders[orderId := e.orders[orderId]] == e.orders;
    ApplyOne(e, OrderUpserted(e.orders[orderId]));
  }
}
