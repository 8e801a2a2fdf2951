/** Concrete inputs on which the ledger and payment laws fail, reached from the empty state. */
module PaymentCases {
  import opened Wrappers
  import opened Bytes
  import opened Text
  import opened Wallet
  import opened LedgerLaws
  import opened Orders

  function Usd(n: i64): Money
  {
    Money("USD", n)
  }

  lemma UsdIsNormal(n: i64)
    ensures NormalizeCurrency("USD") == "USD" && (0 < n ==> ValidAmount(Usd(n))) && (0 <= n ==> ValidMoney(Usd(n)))
    ensures Utf8Len("USD") == 3
  {
    UppercaseIsNormal("USD");
    assert Trimmed("USD") && Trim("USD") == "USD";
    var s := "USD";
    assert Utf8Len(s[3..]) == 0 && s[2..][1..] == s[3..];
    assert Utf8Len(s[2..]) == 1 && s[1..][1..] == s[2..];
    assert Utf8Len(s[1..]) == 2;
    assert Utf8Len(s) == 3;
  }

  /** The first credit of an account. */
  lemma FirstCredit(l: Ledger, requestId: string, id: AccountId, n: i64)
    requires !Known(l, requestId) && id in l.accounts && !l.accounts[id].frozen && l.accounts[id].balances == map[] &&
      0 < n
    ensures var entry := Entry(LedgerId(|l.entries| + 1), requestId, Credit, None, Some(id), Usd(n), None);
      CreditOf(l, requestId, id, Usd(n), None) == (InsertEntry(SetBalance(l, id, "USD", n), entry), Done(entry))
  {
    hide LedgerId, NormalizeCurrency, ValidAmount;
    UsdIsNormal(n);
  }

  // ------------------------------------------------------ overflow after the debit

  /** Two accounts, one credited with the largest balance, the other with one unit. */
  function Full(): Ledger
  {
    var both := CreateAccountOf(CreateAccountOf(EMPTY, "x", "x").0, "y", "y").0;
    CreditOf(CreditOf(both, "r", "x", Usd(I64_END - 1), None).0, "s", "y", Usd(1), None).0
  }

  lemma FullIsLawful()
    ensures LedgerInv(Full())
  {
    hide LedgerInv, CreateAccountOf, CreditOf;
    EmptyLedgerInv();
    CreateKeepsInv(EMPTY, "x", "x");
    var one := CreateAccountOf(EMPTY, "x", "x").0;
    CreateKeepsInv(one, "y", "y");
    var two := CreateAccountOf(one, "y", "y").0;
    CreditKeepsInv(two, "r", "x", Usd(I64_END - 1), None);
    CreditKeepsInv(CreditOf(two, "r", "x", Usd(I64_END - 1), None).0, "s", "y", Usd(1), None);
  }

  lemma FullHolds()
    ensures var l := Full();
      "x" in l.accounts && "y" in l.accounts && !l.accounts["x"].frozen && !l.accounts["y"].frozen &&
      "t" !in l.requests &&
      l.accounts["x"].balances == map["USD" := I64_END - 1] && l.accounts["y"].balances == map["USD" := 1]
  {
    hide LedgerId, CreditOf;
    PlainTrims("x");
    PlainTrims("y");
    var two := CreateAccountOf(CreateAccountOf(EMPTY, "x", "x").0, "y", "y").0;
    assert two == Ledger(map["x" := Account("x", map[], false), "y" := Account("y", map[], false)], map[], map[]);
    FirstCredit(two, "r", "x", I64_END - 1);
    var l := CreditOf(two, "r", "x", Usd(I64_END - 1), None).0;
    FirstCredit(l, "s", "y", 1);
  }

  /** Transferring that unit to the full account breaks agreement: the debit stays without
      an entry. */
  lemma OverflowIsReachable()
    ensures LedgerInv(Full()) && OverflowsAfterDebit(Full(), "t", "y", "x", Usd(1))
    ensures !Agrees(TransferOf(Full(), "t", "y", "x", Usd(1), None).0)
  {
    hide LedgerInv, Full, TransferOf, NormalizeCurrency, ValidAmount, Agrees;
    FullIsLawful();
    FullHolds();
    UsdIsNormal(1);
    OverflowBreaksAgreement(Full(), "t", "y", "x", Usd(1), None);
  }

  // ------------------------------------------------------------- a stale refund

  const SALE: Invoice := Invoice("i", "c", "b", "t", "USD", [Usd(1)], None)

  /** Credit one unit, offer it, buy the offer. */
  const PURCHASE: seq<Command> :=
    [Elsewhere({"a", "b"}, {"c"}), CreditSettlement("r", "a", Usd(1), None), CreateInvoice(SALE),
      CheckoutInvoice("i", "o", "a", 0)]

  const START: Engine := Engine({}, {}, map[], map[], EMPTY)

  function CreditEntry(): Entry
  {
    Entry(LedgerId(1), "r", Credit, None, Some("wallet:a"), Usd(1), None)
  }

  /** The engine before the checkout. */
  function Offered(): Engine
  {
    Engine({"a", "b"}, {"c"}, map["i" := SALE], map[],
           Ledger(map["wallet:a" := Account("a", map["USD" := 1], false)], map[LedgerId(1) := CreditEntry()],
             map["r" := LedgerId(1)]))
  }

  lemma SaleIsValid()
    ensures ValidInvoice(SALE) && CheckedTotal(SALE.prices, 0) == Some(1)
  {
    UsdIsNormal(1);
    PlainTrims("i");
    PlainTrims("t");
    assert SALE.prices[1..] == [];
    assert CheckedTotal([], 1) == Some(1);
  }

  lemma CreditStep(e: Engine)
    requires e == Engine({"a", "b"}, {"c"}, map[], map[], EMPTY)
    ensures Execute(e, CreditSettlement("r", "a", Usd(1), None)) == Offered().(invoices := map[])
  {
    hide LedgerId, CreditOf, Trim, Offered;
    OfferedWallet();
    PlainTrims("wallet:a");
    assert WalletId("a") == "wallet:a";
    var w := EnsureAccount(EMPTY, "wallet:a", "a").0;
    assert w == Ledger(map["wallet:a" := Account("a", map[], false)], map[], map[]);
    FirstCredit(w, "r", "wallet:a", 1);
    var m := CreditOf(w, "r", "wallet:a", Usd(1), None).0;
    assert m == Offered().wallet;
    ApplyOne(e, WalletChanged(m, CreditEntry()));
  }

  lemma OfferedWallet()
    ensures Offered().(invoices := map[]) == Engine({"a", "b"}, {"c"}, map[], map[], Offered().wallet)
    ensures Offered().wallet ==
      Ledger(map["wallet:a" := Account("a", map["USD" := 1], false)], map[LedgerId(1) := CreditEntry()],
        map["r" := LedgerId(1)])
  {
  }

  lemma OfferStep()
    ensures Execute(Offered().(invoices := map[]), CreateInvoice(SALE)) == Offered()
  {
    hide LedgerId, ValidInvoice;
    SaleIsValid();
    ApplyOne(Offered().(invoices := map[]), InvoiceCreated(SALE));
  }

  /** The checkout succeeds and leaves a paid order. */
  lemma CheckoutStep()
    ensures var e := Execute(Offered(), CheckoutInvoice("i", "o", "a", 0));
      "o" in e.orders && e.orders["o"].status == Paid && e.orders["o"].invoiceId == "i" &&
      e.invoices == map["i" := SALE] &&
      Known(e.wallet, "r")
  {
    hide LedgerId, NormalizeCurrency, ValidInvoice, CheckedTotal, Trim, Utf8Len;
    SaleIsValid();
    UsdIsNormal(1);
    UppercaseIsNormal("USD");
    PlainTrims("wallet:b");
    var e := Offered();
    assert WalletId("a") == "wallet:a" && WalletId("b") == "wallet:b";
    var w := EnsureAccount(e.wallet, "wallet:b", "b").0;
    assert w == e.wallet.(accounts := e.wallet.accounts["wallet:b" := Account("b", map[], false)]);
    CheckoutTransfer(w);
    var (m, r) := TransferOf(w, "checkout:o", "wallet:a", "wallet:b", Usd(1), Some("i"));
    assert CheckoutRequest("o") == "checkout:o";
    var o := Order("o", "i", "a", Paid, Usd(1), Some(r.entry.id));
    assert DecideCheckout(e, "i", "o", "a", 0) == Events([WalletChanged(m, r.entry), OrderUpserted(o)]);
    ApplyTwo(e, WalletChanged(m, r.entry), OrderUpserted(o));
  }

  lemma CheckoutTransfer(w: Ledger)
    requires w == Offered().wallet.(accounts := Offered().wallet.accounts["wallet:b" := Account("b", map[], false)])
    ensures var (m, r) := TransferOf(w, "checkout:o", "wallet:a", "wallet:b", Usd(1), Some("i"));
      r.Done? && Known(m, "r")
  {
    hide LedgerId, NormalizeCurrency, ValidAmount;
    UsdIsNormal(1);
    var (m, r) := TransferOf(w, "checkout:o", "wallet:a", "wallet:b", Usd(1), Some("i"));
    assert r.Done?;
    assert m.requests == w.requests["checkout:o" := r.entry.id] && m.entries == w.entries[r.entry.id := r.entry];
  }

  lemma PurchaseRuns()
    ensures Run(START, PURCHASE) == Execute(Offered(), CheckoutInvoice("i", "o", "a", 0))
  {
    hide Execute, Offered;
    var e := Engine({"a", "b"}, {"c"}, map[], map[], EMPTY);
    ElsewhereStep(START, {"a", "b"}, {"c"});
    CreditStep(e);
    OfferStep();
    FourSteps(START, PURCHASE[0], PURCHASE[1], PURCHASE[2], PURCHASE[3]);
  }

  lemma ElsewhereStep(e: Engine, actors: set<ActorId>, conversations: set<string>)
    ensures Execute(e, Elsewhere(actors, conversations)) == e.(actors := actors, conversations := conversations)
  {
    ApplyOne(e, ElsewhereChanged(actors, conversations));
  }

  lemma FourSteps(e: Engine, a: Command, b: Command, c: Command, d: Command)
    ensures Run(e, [a, b, c, d]) == Execute(Execute(Execute(Execute(e, a), b), c), d)
  {
    hide Execute;
    assert [a, b, c, d][1..] == [b, c, d] && [b, c, d][1..] == [c, d] && [c, d][1..] == [d] && [d][1..] == [];
    var e1 := Execute(e, a);
    var e2 := Execute(e1, b);
    var e3 := Execute(e2, c);
    assert Run(e3, [d]) == Run(Execute(e3, d), []);
    assert Run(e2, [c, d]) == Run(e3, [d]);
    assert Run(e1, [b, c, d]) == Run(e2, [c, d]);
  }

  lemma PurchaseIsHarmless()
    ensures HarmlessRun(START, PURCHASE) && ClientRun(PURCHASE)
  {
    hide Execute, Offered;
    var e := Engine({"a", "b"}, {"c"}, map[], map[], EMPTY);
    ElsewhereStep(START, {"a", "b"}, {"c"});
    assert !HasPrefix("r", "checkout:");
    assert Harmless(e, PURCHASE[1]);
    assert PURCHASE[1..] == [PURCHASE[1], PURCHASE[2], PURCHASE[3]] && PURCHASE[1..][1..] == [PURCHASE[2], PURCHASE[3]];
    assert PURCHASE[1..][1..][1..] == [PURCHASE[3]] && PURCHASE[1..][1..][1..][1..] == [];
    var e2 := Execute(e, PURCHASE[1]);
    var e3 := Execute(e2, PURCHASE[2]);
    assert HarmlessRun(Execute(e3, PURCHASE[3]), []);
    assert HarmlessRun(e3, [PURCHASE[3]]);
    assert HarmlessRun(e2, [PURCHASE[2], PURCHASE[3]]);
    assert HarmlessRun(e, PURCHASE[1..]);
  }

  /** Refunding the order under the request id of the credit marks it refunded while no
      money moves, in an engine that a harmless run of client commands reaches. */
  lemma StaleRefundIsReachable()
    ensures HarmlessRun(START, PURCHASE) && ClientRun(PURCHASE) && PaymentsInv(Run(START, PURCHASE))
    ensures var e := Run(START, PURCHASE);
      var after := Execute(e, RefundOrder("o", "b", "r"));
      after.wallet == e.wallet && "o" in after.orders && after.orders["o"].status == Refunded &&
      !Promise(after) && !Harmless(e, RefundOrder("o", "b", "r"))
  {
    hide Run, Execute, PaymentsInv, Promise, HarmlessRun, Harmless, Offered;
    EmptyEngineInv();
    PurchaseIsHarmless();
    RunsKeepPayments(START, PURCHASE);
    PurchaseRuns();
    CheckoutStep();
    var e := Run(START, PURCHASE);
    var after := Execute(e, RefundOrder("o", "b", "r"));
    StaleRefundMovesNothing(e, "o", "r", after);
    BrokenOrder(after, "o");
    if Harmless(e, RefundOrder("o", "b", "r")) {
      ExecuteKeepsPayments(e, RefundOrder("o", "b", "r"));
      InvariantIsPromise(after);
    }
  }
}
