/** Exactly which commands keep the promise about orders, now and in every continuation. */
module OrderSafety {
  import opened Wrappers
  import opened Bytes
  import opened Text
  import opened Wallet
  import opened LedgerLaws
  import opened Orders
  import opened PaymentCases

  /** The promise about orders holds in every continuation by harmless client commands. */
  ghost predicate Safe(e: Engine)
  {
    forall more :: ClientRun(more) && HarmlessRun(e, more) ==> Promise(Run(e, more))
  }

  /** A strengthened invariant makes an engine safe. */
  lemma InvariantIsSafe(e: Engine)
    requires PaymentsInv(e)
    ensures Safe(e)
  {
    hide Run, HarmlessRun, PaymentsInv, Promise;
    forall more | ClientRun(more) && HarmlessRun(e, more)
      ensures Promise(Run(e, more))
    {
      RunsKeepPayments(e, more);
      InvariantIsPromise(Run(e, more));
    }
  }

  lemma BrokenIsUnsafe(e: Engine, more: seq<Command>)
    requires ClientRun(more) && HarmlessRun(e, more) && !Promise(Run(e, more))
    ensures !Safe(e)
  {
  }

  // -------------------------------------------------------------- stale refunds

  /** Refunding a paid order under a known id breaks the promise at once. */
  lemma StaleRefundIsUnsafe(e: Engine, orderId: string, seller: ActorId, requestId: string)
    requires PaymentsInv(e) && DecideRefund(e, orderId, seller, requestId).Events?
    requires e.orders[orderId].status == Paid && Known(e.wallet, requestId)
    ensures !Safe(Execute(e, RefundOrder(orderId, seller, requestId)))
  {
    hide PaymentsInv, Promise, Safe, Execute;
    var after := Execute(e, RefundOrder(orderId, seller, requestId));
    StaleRefundMovesNothing(e, orderId, requestId, after);
    BrokenOrder(after, orderId);
    assert Run(after, []) == after;
    BrokenIsUnsafe(after, []);
  }

  // ------------------------------------------------------- entries that pose

  /** A stranger sets up shop and sells the posing order. */
  function Claim(orderId: string): seq<Command>
  {
    [Elsewhere({"a", "b"}, {"c"}), CreateInvoice(SALE), CheckoutInvoice("i", orderId, "a", 0)]
  }

  /** The engine before the last of these commands. */
  function Shop(e: Engine): Engine
  {
    e.(actors := {"a", "b"}, conversations := {"c"}, invoices := e.invoices["i" := SALE])
  }

  lemma ClaimRuns(e: Engine, orderId: string)
    ensures Run(e, Claim(orderId)) == Execute(Shop(e), CheckoutInvoice("i", orderId, "a", 0))
    ensures ClientRun(Claim(orderId)) && HarmlessRun(e, Claim(orderId))
  {
    hide Execute, ValidInvoice;
    var commands := Claim(orderId);
    var e1 := Execute(e, commands[0]);
    var e2 := Execute(e1, commands[1]);
    var e3 := Execute(e2, commands[2]);
    ElsewhereStep(e, {"a", "b"}, {"c"});
    ShopOpens(e1);
    assert e2 == Shop(e);
    assert commands[1..] == [commands[1], commands[2]] && commands[1..][1..] == [commands[2]] &&
      commands[1..][1..][1..] == [];
    assert Run(e3, []) == e3 && Run(e2, [commands[2]]) == e3 && Run(e1, commands[1..]) == e3;
    assert HarmlessRun(e3, []) && HarmlessRun(e2, [commands[2]]) && HarmlessRun(e1, commands[1..]);
  }

  lemma ShopOpens(e: Engine)
    requires e.actors == {"a", "b"} && e.conversations == {"c"}
    ensures Execute(e, CreateInvoice(SALE)) == e.(invoices := e.invoices["i" := SALE])
  {
    hide ValidInvoice;
    SaleIsValid();
    ApplyOne(e, InvoiceCreated(SALE));
  }

  /** The checkout finds its request id known and takes the posing entry for its payment. */
  lemma ClaimedOrder(e: Engine, orderId: string)
    requires orderId !in e.orders && Known(e.wallet, CheckoutRequest(orderId))
    ensures var after := Execute(Shop(e), CheckoutInvoice("i", orderId, "a", 0));
      after.wallet.entries == e.wallet.entries && orderId in after.orders &&
      after.orders[orderId].paymentId == Some(KnownEntry(e.wallet, CheckoutRequest(orderId)).id)
  {
    hide ValidInvoice, CheckedTotal, Trim, CheckoutRequest;
    SaleIsValid();
    PlainTrims("wallet:a");
    PlainTrims("wallet:b");
    assert WalletId("a") == "wallet:a" && WalletId("b") == "wallet:b";
    var s := Shop(e);
    var w := EnsureAccount(EnsureAccount(s.wallet, "wallet:a", "a").0, "wallet:b", "b").0;
    assert w.entries == e.wallet.entries && w.requests == e.wallet.requests;
    var x := KnownEntry(e.wallet, CheckoutRequest(orderId));
    var o := Order(orderId, "i", "a", Paid, Money(AsciiUpper("USD"), 1), Some(x.id));
    assert DecideCheckout(s, "i", orderId, "a", 0) == Events([WalletChanged(w, x), OrderUpserted(o)]);
    ApplyTwo(s, WalletChanged(w, x), OrderUpserted(o));
  }

  /** So an entry that is no transfer but bears the id of an order to come makes that order
      Paid although no money moved. */
  lemma PosingIsUnsafe(e: Engine, requestId: string, after: Engine)
    requires PaymentsInv(e) && PosesAsCheckout(e, requestId) && after.orders.Keys == e.orders.Keys
    requires LedgerInv(after.wallet) && Known(after.wallet, requestId) &&
      KnownEntry(after.wallet, requestId).kind != Transfer
    ensures !Safe(after)
  {
    hide PaymentsInv, Safe, Run, HarmlessRun, Execute, OrderInv, Shop;
    UnknownCheckoutNamesNoOrder(e, requestId);
    var orderId := requestId[|"checkout:"|..];
    ClaimRuns(after, orderId);
    ClaimedOrder(after, orderId);
    var sold := Run(after, Claim(orderId));
    NotBacked(after.wallet, requestId, sold, orderId);
    BrokenOrder(sold, orderId);
    BrokenIsUnsafe(after, Claim(orderId));
  }

  lemma NotBacked(l: Ledger, requestId: string, e: Engine, orderId: string)
    requires LedgerInv(l) && Known(l, requestId) && KnownEntry(l, requestId).kind != Transfer
    requires e.wallet.entries == l.entries && orderId in e.orders
    requires e.orders[orderId].paymentId == Some(KnownEntry(l, requestId).id)
    ensures !OrderInv(e.wallet, e.orders[orderId])
  {
  }

  // ------------------------------------------------------------------ exactness

  lemma BadRefundIsUnsafe(e: Engine, orderId: string, seller: ActorId, requestId: string)
    requires PaymentsInv(e) && !Harmless(e, RefundOrder(orderId, seller, requestId))
    ensures !Safe(Execute(e, RefundOrder(orderId, seller, requestId)))
  {
    hide PaymentsInv, Safe, RefundOf, HasPrefix, CheckoutRequest, LedgerInv;
    var c := RefundOrder(orderId, seller, requestId);
    if Known(e.wallet, requestId) {
      StaleRefundIsUnsafe(e, orderId, seller, requestId);
    } else {
      RefundDecision(e, orderId, seller, requestId);
      TakePayments(e);
      OrderFacts(e, orderId);
      var d := Decide(e, c);
      var m, x := d.events[0].wallet, d.events[0].entry;
      ExecuteTwo(e, c, m, x, e.orders[orderId].(status := Refunded));
      RefundGrows(e.wallet, requestId, PaymentOf(e.orders[orderId]), m, x);
      RefundShape(e.wallet, requestId, PaymentOf(e.orders[orderId]), m, x);
      PosingIsUnsafe(e, requestId, Execute(e, c));
    }
  }

  lemma BadCreditIsUnsafe(e: Engine, requestId: string, owner: ActorId, amount: Money, reference: Option<string>)
    requires PaymentsInv(e) && !Harmless(e, CreditSettlement(requestId, owner, amount, reference))
    ensures !Safe(Execute(e, CreditSettlement(requestId, owner, amount, reference)))
  {
    hide PaymentsInv, Safe, LedgerInv, HasPrefix, NormalizeCurrency, CreditOf, EnsureAccount;
    var d := DecideCredit(e, requestId, owner, amount, reference);
    ApplyOne(e, d.events[0]);
    TakePayments(e);
    EnsureKeepsInv(e.wallet, WalletId(owner), owner);
    var w := EnsureAccount(e.wallet, WalletId(owner), owner).0;
    var m, x := d.events[0].wallet, d.events[0].entry;
    CreditKeepsInv(w, requestId, WalletId(owner), amount, reference);
    CreditGrows(e.wallet, w, requestId, WalletId(owner), amount, reference, m, x);
    GrowthTables(e.wallet, m, x);
    PosingIsUnsafe(e, requestId, e.(wallet := m));
  }

  /** A command clients can cause leaves the orders safe if and only if it is harmless. */
  lemma HarmlessIff(e: Engine, c: Command)
    requires PaymentsInv(e) && !c.UpsertOrder?
    ensures Safe(Execute(e, c)) <==> Harmless(e, c)
  {
    hide PaymentsInv, Safe, Execute, DecideRefund, DecideCredit;
    if Harmless(e, c) {
      ExecuteKeepsPayments(e, c);
      InvariantIsSafe(Execute(e, c));
    } else {
      match c
      case RefundOrder(orderId, seller, requestId) => BadRefundIsUnsafe(e, orderId, seller, requestId);
      case CreditSettlement(requestId, owner, amount, reference) =>
        BadCreditIsUnsafe(e, requestId, owner, amount, reference);
      case _ =>
    }
  }

  /** Safe before and after every command of the run. */
  ghost predicate AlwaysSafe(e: Engine, commands: seq<Command>)
    decreases |commands|
  {
    Safe(e) && (commands == [] || AlwaysSafe(Execute(e, commands[0]), commands[1..]))
  }

  /** A run of client commands keeps every Paid or Refunded order backed by its transfer and
      refunded at most once, for good, if and only if every command of it is harmless. */
  lemma {:induction false} OrdersArePaidAndRefundedOnce(e: Engine, commands: seq<Command>)
    requires PaymentsInv(e) && ClientRun(commands)
    ensures AlwaysSafe(e, commands) <==> HarmlessRun(e, commands)
    ensures HarmlessRun(e, commands) ==> Promise(Run(e, commands))
    decreases |commands|
  {
    hide PaymentsInv, Safe, Execute, Harmless, Promise;
    InvariantIsSafe(e);
    if commands == [] {
      InvariantIsPromise(e);
    } else {
      var next := Execute(e, commands[0]);
      HarmlessIff(e, commands[0]);
      if Harmless(e, commands[0]) {
        ExecuteKeepsPayments(e, commands[0]);
        OrdersArePaidAndRefundedOnce(next, commands[1..]);
      } else {
        assert !AlwaysSafe(next, commands[1..]);
      }
    }
  }
}
