/** Invoices, orders and settlements of the messaging engine, on top of the wallet ledger.
    `decide` works on a copy of the wallet, so a failing command changes nothing. */
module Orders {
  import opened Wrappers
  import opened Bytes
  import opened Text
  import opened Wallet
  import opened LedgerLaws

  datatype PaymentStatus =
    | Draft | Pending | RequiresAction | Authorized | Paid | Refunded | PartiallyRefunded | Cancelled | FailedPayment

  datatype Invoice = Invoice(
    id: string, conversation: string, seller: ActorId, title: string, currency: string, prices: seq<Money>,
    expiresAt: Option<int>)

  datatype Order = Order(
    id: string, invoiceId: string, buyer: ActorId, status: PaymentStatus, amount: Money, paymentId: Option<string>)

  /** The part of the engine state that payments read or write. */
  datatype Engine = Engine(
    actors: set<ActorId>, conversations: set<string>, invoices: map<string, Invoice>, orders: map<string, Order>,
    wallet: Ledger)

  datatype Command =
    | CreateInvoice(invoice: Invoice)
    | UpsertOrder(order: Order)
    | CheckoutInvoice(invoiceId: string, orderId: string, buyer: ActorId, now: int)
    | RefundOrder(orderId: string, seller: ActorId, requestId: string)
    | CreditSettlement(requestId: string, owner: ActorId, amount: Money, reference: Option<string>)
    | Elsewhere(actors: set<ActorId>, conversations: set<string>)  // any command that leaves payments alone

  datatype Event =
    | InvoiceCreated(invoice: Invoice)
    | OrderUpserted(order: Order)
    | WalletChanged(wallet: Ledger, entry: Entry)
    | ElsewhereChanged(actors: set<ActorId>, conversations: set<string>)

  datatype EngineError =
    | InvalidInvoice | InvoiceNotFound | InvoiceExpired | ActorNotFound | ConversationNotFound
    | OrderNotFound | OrderConflict | OrderNotRefundable | RefundForbidden
    | WalletFailed(error: WalletError)

  datatype Decision = Events(events: seq<Event>) | Rejected(error: EngineError)

  // -------------------------------------------------------------------- invoices

  predicate AsciiUppercase(s: string)
  {
    forall i :: 0 <= i < |s| ==> 'A' <= s[i] <= 'Z'
  }

  predicate ValidMoney(m: Money)
  {
    Utf8Len(m.currency) == 3 && AsciiUppercase(m.currency) && m.amountMinor >= 0
  }

  /** The left fold of `checked_total_minor`. */
  function CheckedTotal(prices: seq<Money>, total: i64): Option<i64>
  {
    if prices == [] then Some(total)
    else
      var next := total + prices[0].amountMinor;
      if -I64_END <= next < I64_END then CheckedTotal(prices[1..], next) else None
  }

  predicate ValidInvoice(v: Invoice)
  {
    Trim(v.id) != "" && Trim(v.title) != "" && Utf8Len(v.currency) == 3 && v.prices != [] &&
    (forall i :: 0 <= i < |v.prices| ==> v.prices[i].currency == v.currency && ValidMoney(v.prices[i])) &&
    CheckedTotal(v.prices, 0).Some? && CheckedTotal(v.prices, 0).value > 0
  }

  lemma UppercaseIsNormal(s: string)
    requires AsciiUppercase(s)
    ensures NormalizeCurrency(s) == s && AsciiUpper(s) == s
  {
    assert Trimmed(s);
    assert Trim(s) == s;
  }

  // ---------------------------------------------------------------------- decide

  function WalletId(actor: ActorId): AccountId
  {
    "wallet:" + actor
  }

  function EnsureAccount(l: Ledger, id: AccountId, owner: ActorId): (Ledger, Status)
  {
    if id in l.accounts then (l, Created) else CreateAccountOf(l, id, owner)
  }

  function CheckoutRequest(orderId: string): string
  {
    "checkout:" + orderId
  }

  function DecideCheckout(e: Engine, invoiceId: string, orderId: string, buyer: ActorId, now: int): Decision
  {
    if invoiceId !in e.invoices then Rejected(InvoiceNotFound)
    else if buyer !in e.actors then Rejected(ActorNotFound)
    else
      var invoice := e.invoices[invoiceId];
      if invoice.expiresAt.Some? && invoice.expiresAt.value <= now then Rejected(InvoiceExpired)
      else if orderId in e.orders then
        var existing := e.orders[orderId];
        if existing.invoiceId == invoice.id && existing.buyer == buyer then Events([OrderUpserted(existing)])
        else Rejected(OrderConflict)
      else
        var total := CheckedTotal(invoice.prices, 0);
        if total.None? || total.value <= 0 then Rejected(InvalidInvoice)
        else
          var buyerAccount, sellerAccount := WalletId(buyer), WalletId(invoice.seller);
          var (w1, s1) := EnsureAccount(e.wallet, buyerAccount, buyer);
          if s1.Refused? then Rejected(WalletFailed(s1.error))
          else
            var (w2, s2) := EnsureAccount(w1, sellerAccount, invoice.seller);
            if s2.Refused? then Rejected(WalletFailed(s2.error))
            else
              var amount := Money(AsciiUpper(invoice.currency), total.value);
              var (w3, r) :=
                TransferOf(w2, CheckoutRequest(orderId), buyerAccount, sellerAccount, amount, Some(invoice.id));
              if r.Failed? then Rejected(WalletFailed(r.error))
              else
                Events([WalletChanged(w3, r.entry),
                  OrderUpserted(Order(orderId, invoice.id, buyer, Paid, amount, Some(r.entry.id)))])
  }

  function DecideRefund(e: Engine, orderId: string, seller: ActorId, requestId: string): Decision
  {
    if orderId !in e.orders then Rejected(OrderNotFound)
    else
      var order := e.orders[orderId];
      if order.invoiceId !in e.invoices then Rejected(InvoiceNotFound)
      else if e.invoices[order.invoiceId].seller != seller then Rejected(RefundForbidden)
      else if order.status == Refunded then Events([OrderUpserted(order)])
      else if order.status != Paid || order.paymentId.None? then Rejected(OrderNotRefundable)
      else
        var (w, r) := RefundOf(e.wallet, requestId, order.paymentId.value);
        if r.Failed? then Rejected(WalletFailed(r.error))
        else Events([WalletChanged(w, r.entry), OrderUpserted(order.(status := Refunded))])
  }

  function DecideCredit(
    e: Engine, requestId: string, owner: ActorId, amount: Money, reference: Option<string>): Decision
  {
    if owner !in e.actors then Rejected(ActorNotFound)
    else
      var (w1, s1) := EnsureAccount(e.wallet, WalletId(owner), owner);
      if s1.Refused? then Rejected(WalletFailed(s1.error))
      else
        var (w2, r) := CreditOf(w1, requestId, WalletId(owner), amount, reference);
        if r.Failed? then Rejected(WalletFailed(r.error)) else Events([WalletChanged(w2, r.entry)])
  }

  function Decide(e: Engine, c: Command): Decision
  {
    match c
    case CreateInvoice(v) =>
      if !ValidInvoice(v) then Rejected(InvalidInvoice)
      else if v.seller !in e.actors then Rejected(ActorNotFound)
      else if v.conversation !in e.conversations then Rejected(ConversationNotFound)
      else Events([InvoiceCreated(v)])
    case UpsertOrder(o) =>
      if o.invoiceId !in e.invoices then Rejected(InvoiceNotFound)
      else if o.buyer !in e.actors then Rejected(ActorNotFound)
      else Events([OrderUpserted(o)])
    case CheckoutInvoice(invoiceId, orderId, buyer, now) => DecideCheckout(e, invoiceId, orderId, buyer, now)
    case RefundOrder(orderId, seller, requestId) => DecideRefund(e, orderId, seller, requestId)
    case CreditSettlement(requestId, owner, amount, reference) => DecideCredit(e, requestId, owner, amount, reference)
    case Elsewhere(actors, conversations) => Events([ElsewhereChanged(actors, conversations)])
  }

  function Apply(e: Engine, event: Event): Engine
  {
    match event
    case InvoiceCreated(v) => e.(invoices := e.invoices[v.id := v])
    case OrderUpserted(o) => e.(orders := e.orders[o.id := o])
    case WalletChanged(w, _) => e.(wallet := w)
    case ElsewhereChanged(a, c) => e.(actors := a, conversations := c)
  }

  function ApplyAll(e: Engine, events: seq<Event>): Engine
    decreases |events|
  {
    if events == [] then e else ApplyAll(Apply(e, events[0]), events[1..])
  }

  /** `execute`: a rejected command leaves the state as it was. */
  function Execute(e: Engine, c: Command): Engine
  {
    match Decide(e, c)
    case Rejected(_) => e
    case Events(events) => ApplyAll(e, events)
  }

  function Run(e: Engine, commands: seq<Command>): Engine
    decreases |commands|
  {
    if commands == [] then e else Run(Execute(e, commands[0]), commands[1..])
  }

  lemma ApplyOne(e: Engine, x: Event)
    ensures ApplyAll(e, [x]) == Apply(e, x)
  {
    assert [x][1..] == [];
  }

  lemma ApplyTwo(e: Engine, x: Event, y: Event)
    ensures ApplyAll(e, [x, y]) == Apply(Apply(e, x), y)
  {
    assert [x, y][1..] == [y];
    ApplyOne(Apply(e, x), y);
  }

  // ----------------------------------------------------- ledger laws over all runs

  lemma EnsureKeepsInv(l: Ledger, id: AccountId, owner: ActorId)
    requires LedgerInv(l)
    ensures LedgerInv(EnsureAccount(l, id, owner).0)
    ensures EnsureAccount(l, id, owner).0.entries == l.entries && EnsureAccount(l, id, owner).0.requests == l.requests
  {
    CreateKeepsInv(l, id, owner);
  }

  lemma DoneTransferKeepsInv(
    l: Ledger, requestId: string, from: AccountId, to: AccountId, amount: Money, reference: Option<string>)
    requires LedgerInv(l) && TransferOf(l, requestId, from, to, amount, reference).1.Done?
    ensures LedgerInv(TransferOf(l, requestId, from, to, amount, reference).0)
  {
    TransferKeepsInvIff(l, requestId, from, to, amount, reference);
  }

  lemma CheckoutKeepsLedger(e: Engine, invoiceId: string, orderId: string, buyer: ActorId, now: int)
    requires LedgerInv(e.wallet)
    ensures LedgerInv(Execute(e, CheckoutInvoice(invoiceId, orderId, buyer, now)).wallet)
  {
    var c := CheckoutInvoice(invoiceId, orderId, buyer, now);
    if orderId in e.orders {
      RepeatedCheckout(e, invoiceId, orderId, buyer, now);
    } else if DecideCheckout(e, invoiceId, orderId, buyer, now).Events? {
      FirstCheckoutKeepsLedger(e, invoiceId, orderId, buyer, now);
    }
  }

  lemma RepeatedCheckout(e: Engine, invoiceId: string, orderId: string, buyer: ActorId, now: int)
    requires orderId in e.orders
    ensures Execute(e, CheckoutInvoice(invoiceId, orderId, buyer, now)).wallet == e.wallet
  {
    ApplyOne(e, OrderUpserted(e.orders[orderId]));
  }

  lemma FirstCheckoutKeepsLedger(e: Engine, invoiceId: string, orderId: string, buyer: ActorId, now: int)
    requires LedgerInv(e.wallet) && orderId !in e.orders && DecideCheckout(e, invoiceId, orderId, buyer, now).Events?
    ensures LedgerInv(Execute(e, CheckoutInvoice(invoiceId, orderId, buyer, now)).wallet)
  {
    hide LedgerInv, TransferOf, CheckoutWallet, DecideCheckout;
    CheckoutTransfers(e, invoiceId, orderId, buyer, now);
    var v := e.invoices[invoiceId];
    var w := CheckoutWallet(e, buyer, v.seller);
    CheckoutWalletKeepsInv(e, buyer, v.seller);
    DoneTransferKeepsInv(w, CheckoutRequest(orderId), WalletId(buyer), WalletId(v.seller), CheckoutAmount(v),
      Some(v.id));
    var d := DecideCheckout(e, invoiceId, orderId, buyer, now);
    ExecuteTwo(e, CheckoutInvoice(invoiceId, orderId, buyer, now), d.events[0].wallet, d.events[0].entry,
      d.events[1].order);
  }

  lemma RefundKeepsLedger(e: Engine, orderId: string, seller: ActorId, requestId: string)
    requires LedgerInv(e.wallet)
    ensures LedgerInv(Execute(e, RefundOrder(orderId, seller, requestId)).wallet)
  {
    var d := DecideRefund(e, orderId, seller, requestId);
    if d.Events? {
      if |d.events| == 1 {
        ApplyOne(e, d.events[0]);
      } else {
        ApplyTwo(e, d.events[0], d.events[1]);
        SuccessfulRefundKeepsInv(e.wallet, requestId, PaymentOf(e.orders[orderId]));
      }
    }
  }

  lemma CreditKeepsLedger(e: Engine, requestId: string, owner: ActorId, amount: Money, reference: Option<string>)
    requires LedgerInv(e.wallet)
    ensures LedgerInv(Execute(e, CreditSettlement(requestId, owner, amount, reference)).wallet)
  {
    var d := DecideCredit(e, requestId, owner, amount, reference);
    if d.Events? {
      ApplyOne(e, d.events[0]);
      EnsureKeepsInv(e.wallet, WalletId(owner), owner);
      CreditKeepsInv(EnsureAccount(e.wallet, WalletId(owner), owner).0, requestId, WalletId(owner), amount, reference);
    }
  }

  lemma ExecuteKeepsLedger(e: Engine, c: Command)
    requires LedgerInv(e.wallet)
    ensures LedgerInv(Execute(e, c).wallet)
  {
    match c
    case CheckoutInvoice(invoiceId, orderId, buyer, now) => CheckoutKeepsLedger(e, invoiceId, orderId, buyer, now);
    case RefundOrder(orderId, seller, requestId) => RefundKeepsLedger(e, orderId, seller, requestId);
    case CreditSettlement(requestId, owner, amount, reference) =>
      CreditKeepsLedger(e, requestId, owner, amount, reference);
    case CreateInvoice(v) => ApplyOne(e, InvoiceCreated(v));
    case UpsertOrder(o) => ApplyOne(e, OrderUpserted(o));
    case Elsewhere(a, k) => ApplyOne(e, ElsewhereChanged(a, k));
  }

  /** Over every run, failing commands included: balances equal incoming minus outgoing
      entries and are never negative, their sum equals the credits, entry ids are the
      numbers 1..n, and request ids index the entries one to one. */
  lemma {:induction false} LedgerLawsHoldOverRuns(e: Engine, commands: seq<Command>)
    requires LedgerInv(e.wallet)
    ensures LedgerInv(Run(e, commands).wallet)
    decreases |commands|
  {
    if commands != [] {
      ExecuteKeepsLedger(e, commands[0]);
      LedgerLawsHoldOverRuns(Execute(e, commands[0]), commands[1..]);
    }
  }

  // ------------------------------------------------------------ orders and refunds

  predicate HasPrefix(s: string, p: string)
  {
    |p| <= |s| && s[..|p|] == p
  }

  /** A new ledger entry under this request id would pose as the checkout of an order. */
  predicate PosesAsCheckout(e: Engine, requestId: string)
  {
    !Known(e.wallet, requestId) && HasPrefix(requestId, "checkout:")
  }

  /** A refund of a paid order needs a request id that is new and no checkout's, and a new
      credit one that is no checkout's. */
  predicate Harmless(e: Engine, c: Command)
  {
    match c
    case RefundOrder(orderId, seller, requestId) =>
      !(DecideRefund(e, orderId, seller, requestId).Events? && e.orders[orderId].status == Paid &&
        (Known(e.wallet, requestId) || HasPrefix(requestId, "checkout:")))
    case CreditSettlement(requestId, owner, amount, reference) =>
      !(DecideCredit(e, requestId, owner, amount, reference).Events? && PosesAsCheckout(e, requestId))
    case _ => true
  }

  predicate HarmlessRun(e: Engine, commands: seq<Command>)
    decreases |commands|
  {
    commands == [] || (Harmless(e, commands[0]) && HarmlessRun(Execute(e, commands[0]), commands[1..]))
  }

  /** Runs of the commands clients can cause; `UpsertOrder` is internal to the engine. */
  predicate ClientRun(commands: seq<Command>)
  {
    forall i :: 0 <= i < |commands| ==> !commands[i].UpsertOrder?
  }

  predicate IsRefundOf(r: Entry, original: string)
  {
    r.kind == Refund && r.reference == Some(RefundReference(original))
  }

  /** How often the first n entries give the money of one entry back. */
  function RefundCount(entries: map<string, Entry>, original: string, n: nat): nat
  {
    if n == 0 then 0
    else
      RefundCount(entries, original, n - 1) +
      if LedgerId(n) in entries && IsRefundOf(entries[LedgerId(n)], original) then 1 else 0
  }

  function PaymentOf(o: Order): string
  {
    if o.paymentId.Some? then o.paymentId.value else ""
  }

  /** The order names the transfer that paid it: same amount, from the buyer, under the
      request id derived from the order. */
  ghost predicate Backed(l: Ledger, o: Order)
  {
    o.paymentId.Some? && PaymentOf(o) in l.entries &&
    var x := l.entries[PaymentOf(o)];
    x.kind == Transfer && x.requestId == CheckoutRequest(o.id) && x.amount == o.amount &&
    x.from == Some(WalletId(o.buyer)) && x.to.Some?
  }

  ghost predicate OrderInv(l: Ledger, o: Order)
  {
    (o.status == Paid || o.status == Refunded) && Backed(l, o) &&
    RefundCount(l.entries, PaymentOf(o), |l.entries|) == if o.status == Refunded then 1 else 0
  }

  /** Every refund entry reverses an existing transfer exactly. */
  ghost predicate RefundsMirror(l: Ledger)
  {
    forall k :: k in l.entries && l.entries[k].kind == Refund ==> Mirrors(l, l.entries[k])
  }

  ghost predicate Mirrors(l: Ledger, r: Entry)
  {
    exists original :: original in l.entries && Reverses(r, l.entries[original], original)
  }

  predicate Reverses(r: Entry, x: Entry, original: string)
  {
    IsRefundOf(r, original) && x.kind == Transfer && r.from == x.to && r.to == x.from && r.amount == x.amount
  }

  /** A checkout request id belongs to the order it names. */
  ghost predicate CheckoutsOwned(e: Engine)
  {
    forall orderId :: CheckoutRequest(orderId) in e.wallet.requests ==> orderId in e.orders
  }

  /** Amounts in entries are already in normal form. */
  ghost predicate NormalAmounts(l: Ledger)
  {
    forall k :: k in l.entries ==> NormalizeCurrency(l.entries[k].amount.currency) == l.entries[k].amount.currency
  }

  /** What every Paid or Refunded order promises: it names the transfer of exactly its amount
      made under its own request id, its money moved back once if it is Refunded and not at
      all if it is Paid, and whatever moved back reverses its transfer exactly. */
  ghost predicate Promise(e: Engine)
  {
    OrdersInv(e.wallet, e.orders) && RefundsMirror(e.wallet)
  }

  /** The promise with what keeps it: the ledger laws, checkout ids that belong to orders,
      normal amounts and valid invoices. */
  ghost predicate PaymentsInv(e: Engine)
  {
    LedgerInv(e.wallet) && RefundsMirror(e.wallet) && CheckoutsOwned(e) && NormalAmounts(e.wallet) &&
    InvoicesValid(e.invoices) && OrdersInv(e.wallet, e.orders)
  }

  ghost predicate InvoicesValid(invoices: map<string, Invoice>)
  {
    forall id :: id in invoices ==> ValidInvoice(invoices[id])
  }

  lemma {:induction false} RefundCountFrame(e: map<string, Entry>, f: map<string, Entry>, original: string, n: nat)
    requires forall i :: 1 <= i <= n ==> LedgerId(i) in e && LedgerId(i) in f && e[LedgerId(i)] == f[LedgerId(i)]
    ensures RefundCount(e, original, n) == RefundCount(f, original, n)
  {
    if n != 0 { RefundCountFrame(e, f, original, n - 1); }
  }

  /** The ledger grew by one entry. */
  ghost predicate Grew(l: Ledger, m: Ledger, x: Entry)
  {
    x.id == LedgerId(|l.entries| + 1) && x.id !in l.entries && m.entries == l.entries[x.id := x] &&
    m.requests == l.requests[x.requestId := x.id] && x.requestId !in l.requests
  }

  lemma GrownRefundCount(l: Ledger, m: Ledger, x: Entry, original: string)
    requires Numbered(l) && Grew(l, m, x)
    ensures |m.entries| == |l.entries| + 1
    ensures RefundCount(m.entries, original, |m.entries|) ==
      RefundCount(l.entries, original, |l.entries|) + if IsRefundOf(x, original) then 1 else 0
  {
    RefundCountFrame(l.entries, m.entries, original, |l.entries|);
  }

  lemma GrowthKeepsOrder(l: Ledger, m: Ledger, x: Entry, o: Order)
    requires Numbered(l) && Grew(l, m, x) && OrderInv(l, o) && !IsRefundOf(x, PaymentOf(o))
    ensures OrderInv(m, o)
  {
    GrownRefundCount(l, m, x, PaymentOf(o));
  }

  lemma GrowthKeepsMirrors(l: Ledger, m: Ledger, x: Entry)
    requires Grew(l, m, x) && RefundsMirror(l) && (x.kind == Refund ==> Mirrors(l, x))
    ensures RefundsMirror(m)
  {
    forall k | k in m.entries && m.entries[k].kind == Refund
      ensures Mirrors(m, m.entries[k])
    {
      var r := m.entries[k];
      assert Mirrors(l, r);
      var original :| original in l.entries && Reverses(r, l.entries[original], original);
      assert original in m.entries && Reverses(r, m.entries[original], original);
    }
  }

  /** A refund entry of one order's payment is not one of another's. */
  lemma RefundIsSpecific(a: string, b: string)
    requires RefundReference(a) == RefundReference(b)
    ensures a == b
  {
    ConcatCancels("refund:", a, b);
  }

  lemma CheckoutRequestInjective(a: string, b: string)
    requires CheckoutRequest(a) == CheckoutRequest(b)
    ensures a == b
  {
    ConcatCancels("checkout:", a, b);
  }

  lemma CheckoutRequestHasPrefix(orderId: string)
    ensures HasPrefix(CheckoutRequest(orderId), "checkout:")
  {
  }

  /** No order owes anything to an entry that does not exist yet. */
  lemma {:induction false} NoRefundYet(l: Ledger, original: string, n: nat)
    requires RefundsMirror(l) && original !in l.entries
    ensures RefundCount(l.entries, original, n) == 0
  {
    if n != 0 {
      NoRefundYet(l, original, n - 1);
      if LedgerId(n) in l.entries && IsRefundOf(l.entries[LedgerId(n)], original) {
        var r := l.entries[LedgerId(n)];
        assert Mirrors(l, r);
        var x :| x in l.entries && Reverses(r, l.entries[x], x);
        RefundIsSpecific(x, original);
      }
    }
  }

  // ------------------------------------------------------------------- checkout

  /** The wallet copy a checkout transfers on, and the amount. */
  function CheckoutWallet(e: Engine, buyer: ActorId, seller: ActorId): Ledger
  {
    EnsureAccount(EnsureAccount(e.wallet, WalletId(buyer), buyer).0, WalletId(seller), seller).0
  }

  function CheckoutAmount(v: Invoice): Money
    requires CheckedTotal(v.prices, 0).Some?
  {
    Money(AsciiUpper(v.currency), CheckedTotal(v.prices, 0).value)
  }

  lemma CheckoutTransfers(e: Engine, invoiceId: string, orderId: string, buyer: ActorId, now: int)
    requires orderId !in e.orders && DecideCheckout(e, invoiceId, orderId, buyer, now).Events?
    ensures invoiceId in e.invoices && CheckedTotal(e.invoices[invoiceId].prices, 0).Some?
    ensures var v := e.invoices[invoiceId]; var d := DecideCheckout(e, invoiceId, orderId, buyer, now);
      var (m, r) :=
        TransferOf(CheckoutWallet(e, buyer, v.seller), CheckoutRequest(orderId), WalletId(buyer), WalletId(v.seller),
          CheckoutAmount(v), Some(v.id));
      r.Done? && d.events ==
        [WalletChanged(m, r.entry),
          OrderUpserted(Order(orderId, v.id, buyer, Paid, CheckoutAmount(v), Some(r.entry.id)))]
  {
  }

  lemma CheckoutAmountIsNormal(v: Invoice)
    requires ValidInvoice(v)
    ensures NormalizeCurrency(CheckoutAmount(v).currency) == CheckoutAmount(v).currency
  {
    assert v.prices[0].currency == v.currency && ValidMoney(v.prices[0]);
    UppercaseIsNormal(v.currency);
  }

  /** The transfer of a checkout whose request id is new adds exactly its entry. */
  lemma CheckoutGrows(
    l: Ledger, w: Ledger, requestId: string, from: AccountId, to: AccountId, amount: Money, reference: Option<string>,
    m: Ledger, x: Entry)
    requires LedgerInv(l) && LedgerInv(w) && w.entries == l.entries && w.requests == l.requests
    requires requestId !in l.requests && NormalizeCurrency(amount.currency) == amount.currency
    requires TransferOf(w, requestId, from, to, amount, reference) == (m, Done(x))
    ensures Grew(l, m, x) && LedgerInv(m)
    ensures x.kind == Transfer && x.requestId == requestId && x.amount == amount && x.from == Some(from) &&
      x.to == Some(to)
  {
    TransferShape(w, requestId, from, to, amount, reference);
    DoneTransferKeepsInv(w, requestId, from, to, amount, reference);
    NextIdIsFresh(l);
  }

  lemma CheckoutWalletKeepsInv(e: Engine, buyer: ActorId, seller: ActorId)
    requires LedgerInv(e.wallet)
    ensures var w := CheckoutWallet(e, buyer, seller);
      LedgerInv(w) && w.entries == e.wallet.entries && w.requests == e.wallet.requests
  {
    EnsureKeepsInv(e.wallet, WalletId(buyer), buyer);
    EnsureKeepsInv(EnsureAccount(e.wallet, WalletId(buyer), buyer).0, WalletId(seller), seller);
  }

  ghost predicate OrdersInv(l: Ledger, orders: map<string, Order>)
  {
    forall id :: id in orders ==> orders[id].id == id && OrderInv(l, orders[id])
  }

  lemma OrdersSurviveGrowth(e: Engine, m: Ledger, x: Entry, o: Order)
    requires Numbered(e.wallet) && OrdersInv(e.wallet, e.orders) && Grew(e.wallet, m, x) && OrderInv(m, o) &&
      SparesOthers(e, x, o)
    ensures OrdersInv(m, e.orders[o.id := o])
  {
    forall id | id in e.orders && id != o.id
      ensures OrderInv(m, e.orders[id])
    {
      GrowthKeepsOrder(e.wallet, m, x, e.orders[id]);
    }
  }

  lemma CheckoutsStayOwned(e: Engine, after: Engine, x: Entry, o: Order)
    requires CheckoutsOwned(e) && after.wallet.requests == e.wallet.requests[x.requestId := x.id] &&
      after.orders == e.orders[o.id := o]
    requires ClaimsOnly(x, o)
    ensures CheckoutsOwned(after)
  {
    forall orderId | CheckoutRequest(orderId) in after.wallet.requests
      ensures orderId in after.orders
    {
      if x.requestId != CheckoutRequest(orderId) { assert CheckoutRequest(orderId) in e.wallet.requests; }
    }
  }

  lemma TakePayments(e: Engine)
    requires PaymentsInv(e)
    ensures LedgerInv(e.wallet) && Numbered(e.wallet) && RefundsMirror(e.wallet) && CheckoutsOwned(e)
    ensures NormalAmounts(e.wallet) && InvoicesValid(e.invoices) && OrdersInv(e.wallet, e.orders)
  {
  }

  lemma GivePayments(e: Engine)
    requires LedgerInv(e.wallet) && RefundsMirror(e.wallet) && CheckoutsOwned(e)
    requires NormalAmounts(e.wallet) && InvoicesValid(e.invoices) && OrdersInv(e.wallet, e.orders)
    ensures PaymentsInv(e)
  {
  }

  lemma GrowthKeepsNormal(l: Ledger, m: Ledger, x: Entry)
    requires NormalAmounts(l) && Grew(l, m, x) && NormalizeCurrency(x.amount.currency) == x.amount.currency
    ensures NormalAmounts(m)
  {
  }

  lemma GrowthTables(l: Ledger, m: Ledger, x: Entry)
    requires Grew(l, m, x)
    ensures m.requests == l.requests[x.requestId := x.id]
  {
  }

  /** The new entry refunds no other order. */
  ghost predicate SparesOthers(e: Engine, x: Entry, o: Order)
  {
    forall id :: id in e.orders && id != o.id ==> !IsRefundOf(x, PaymentOf(e.orders[id]))
  }

  /** The new entry's request id is no other order's checkout. */
  ghost predicate ClaimsOnly(x: Entry, o: Order)
  {
    forall orderId :: x.requestId == CheckoutRequest(orderId) ==> orderId == o.id
  }

  /** One new entry and one new or updated order keep the invariant. */
  lemma AssemblePayments(e: Engine, after: Engine, x: Entry, o: Order)
    requires PaymentsInv(e) && Grew(e.wallet, after.wallet, x) && LedgerInv(after.wallet)
    requires after.invoices == e.invoices && after.orders == e.orders[o.id := o]
    requires NormalizeCurrency(x.amount.currency) == x.amount.currency
    requires x.kind == Refund ==> Mirrors(e.wallet, x)
    requires OrderInv(after.wallet, o) && SparesOthers(e, x, o) && ClaimsOnly(x, o)
    ensures PaymentsInv(after)
  {
    hide *;
    TakePayments(e);
    GrowthKeepsMirrors(e.wallet, after.wallet, x);
    OrdersSurviveGrowth(e, after.wallet, x, o);
    GrowthTables(e.wallet, after.wallet, x);
    CheckoutsStayOwned(e, after, x, o);
    GrowthKeepsNormal(e.wallet, after.wallet, x);
    GivePayments(after);
  }

  lemma NewOrderInv(l: Ledger, m: Ledger, x: Entry, o: Order)
    requires Numbered(l) && RefundsMirror(l) && Grew(l, m, x)
    requires x.kind == Transfer && x.requestId == CheckoutRequest(o.id) && x.amount == o.amount
    requires x.from == Some(WalletId(o.buyer)) && x.to.Some? && o.status == Paid && o.paymentId == Some(x.id)
    ensures OrderInv(m, o)
  {
    NoRefundYet(l, x.id, |l.entries|);
    GrownRefundCount(l, m, x, x.id);
  }

  lemma TransferSparesOrders(e: Engine, x: Entry, o: Order)
    requires x.kind == Transfer
    ensures SparesOthers(e, x, o)
  {
  }

  lemma CheckoutClaimsOnly(x: Entry, o: Order)
    requires x.requestId == CheckoutRequest(o.id)
    ensures ClaimsOnly(x, o)
  {
    forall other | x.requestId == CheckoutRequest(other)
      ensures other == o.id
    {
      CheckoutRequestInjective(o.id, other);
    }
  }

  /** The first checkout of an order. */
  lemma NewOrderKeepsPayments(e: Engine, after: Engine, m: Ledger, x: Entry, o: Order)
    requires PaymentsInv(e) && Grew(e.wallet, m, x) && LedgerInv(m)
    requires x.kind == Transfer && x.requestId == CheckoutRequest(o.id) && x.amount == o.amount
    requires x.from == Some(WalletId(o.buyer)) && x.to.Some? && o.status == Paid && o.paymentId == Some(x.id)
    requires NormalizeCurrency(x.amount.currency) == x.amount.currency
    requires after == e.(wallet := m, orders := e.orders[o.id := o])
    ensures PaymentsInv(after)
  {
    hide *;
    TakePayments(e);
    NewOrderInv(e.wallet, m, x, o);
    TransferSparesOrders(e, x, o);
    CheckoutClaimsOnly(x, o);
    AssemblePayments(e, after, x, o);
  }

  lemma ExecuteOne(e: Engine, c: Command, x: Event)
    requires Decide(e, c) == Events([x])
    ensures Execute(e, c) == Apply(e, x)
  {
    ApplyOne(e, x);
  }

  lemma ExecuteTwo(e: Engine, c: Command, m: Ledger, x: Entry, o: Order)
    requires Decide(e, c) == Events([WalletChanged(m, x), OrderUpserted(o)])
    ensures Execute(e, c) == e.(wallet := m, orders := e.orders[o.id := o])
  {
    ApplyTwo(e, WalletChanged(m, x), OrderUpserted(o));
  }

  lemma UnchangedOrder(e: Engine, c: Command, orderId: string)
    requires orderId in e.orders && e.orders[orderId].id == orderId &&
      Decide(e, c) == Events([OrderUpserted(e.orders[orderId])])
    ensures Execute(e, c) == e
  {
    ExecuteOne(e, c, OrderUpserted(e.orders[orderId]));
    assert e.orders[orderId := e.orders[orderId]] == e.orders;
  }

  lemma CheckoutKeepsPayments(e: Engine, invoiceId: string, orderId: string, buyer: ActorId, now: int)
    requires PaymentsInv(e)
    ensures PaymentsInv(Execute(e, CheckoutInvoice(invoiceId, orderId, buyer, now)))
  {
    var c := CheckoutInvoice(invoiceId, orderId, buyer, now);
    var d := Decide(e, c);
    if d.Events? {
      if orderId in e.orders {
        UnchangedOrder(e, c, orderId);
      } else {
        CheckoutTransfers(e, invoiceId, orderId, buyer, now);
        var m, x, o := d.events[0].wallet, d.events[0].entry, d.events[1].order;
        FirstCheckoutKeepsPayments(e, e.invoices[invoiceId], orderId, buyer, m, x, o);
        ExecuteTwo(e, c, m, x, o);
      }
    }
  }

  lemma FirstCheckoutKeepsPayments(
    e: Engine, v: Invoice, orderId: string, buyer: ActorId, m: Ledger, x: Entry, o: Order)
    requires PaymentsInv(e) && orderId !in e.orders && ValidInvoice(v)
    requires TransferOf(CheckoutWallet(e, buyer, v.seller), CheckoutRequest(orderId), WalletId(buyer),
      WalletId(v.seller), CheckoutAmount(v), Some(v.id)) == (m, Done(x))
    requires o == Order(orderId, v.id, buyer, Paid, CheckoutAmount(v), Some(x.id))
    ensures PaymentsInv(e.(wallet := m, orders := e.orders[o.id := o]))
  {
    CheckoutAmountIsNormal(v);
    CheckoutWalletKeepsInv(e, buyer, v.seller);
    CheckoutGrows(e.wallet, CheckoutWallet(e, buyer, v.seller), CheckoutRequest(orderId), WalletId(buyer),
      WalletId(v.seller), CheckoutAmount(v), Some(v.id), m, x);
    NewOrderKeepsPayments(e, e.(wallet := m, orders := e.orders[o.id := o]), m, x, o);
  }

  // --------------------------------------------------------------------- refund

  /** A successful new refund, spelled out. */
  lemma RefundShape(l: Ledger, requestId: string, original: string, m: Ledger, x: Entry)
    requires Agrees(l) && !Known(l, requestId) && RefundOf(l, requestId, original) == (m, Done(x))
    ensures original in l.entries && l.entries[original].kind == Transfer
    ensures var o := l.entries[original];
      x == Entry(LedgerId(|l.entries| + 1), requestId, Refund, o.to, o.from,
                 Money(NormalizeCurrency(o.amount.currency), o.amount.amountMinor), Some(RefundReference(original)))
    ensures m.entries == l.entries[x.id := x] && m.requests == l.requests[requestId := x.id]
  {
    var o := l.entries[original];
    var reference := Some(RefundReference(original));
    var (after, outcome) := TransferOf(l, requestId, o.to.value, o.from.value, o.amount, reference);
    TransferShape(l, requestId, o.to.value, o.from.value, o.amount, reference);
    var y := outcome.entry;
    assert after.entries == l.entries[y.id := y];
    assert x == y.(kind := Refund);
    assert m.entries == after.entries[x.id := x];
  }

  lemma RefundGrows(l: Ledger, requestId: string, original: string, m: Ledger, x: Entry)
    requires LedgerInv(l) && NormalAmounts(l) && !Known(l, requestId) &&
      RefundOf(l, requestId, original) == (m, Done(x))
    ensures Grew(l, m, x) && LedgerInv(m) && x.requestId == requestId
    ensures original in l.entries && Reverses(x, l.entries[original], original)
  {
    SuccessfulRefundKeepsInv(l, requestId, original);
    RefundShape(l, requestId, original, m, x);
    UnknownIsUnused(l, requestId);
    NextIdIsFresh(l);
  }

  lemma RefundedOrderInv(l: Ledger, m: Ledger, x: Entry, order: Order)
    requires Numbered(l) && Grew(l, m, x) && OrderInv(l, order) && order.status == Paid &&
      IsRefundOf(x, PaymentOf(order))
    ensures OrderInv(m, order.(status := Refunded))
  {
    GrownRefundCount(l, m, x, PaymentOf(order));
  }

  lemma RefundSparesOthers(e: Engine, x: Entry, order: Order)
    requires OrdersInv(e.wallet, e.orders) && order.id in e.orders && PaymentOf(e.orders[order.id]) == PaymentOf(order)
    requires IsRefundOf(x, PaymentOf(order))
    ensures SparesOthers(e, x, order)
  {
    forall id | id in e.orders && id != order.id
      ensures !IsRefundOf(x, PaymentOf(e.orders[id]))
    {
      OtherOrdersUntouched(e, x, id, order.id);
    }
  }

  lemma ForeignClaimsNothing(x: Entry, o: Order)
    requires !HasPrefix(x.requestId, "checkout:")
    ensures ClaimsOnly(x, o)
  {
    forall other
      ensures x.requestId != CheckoutRequest(other)
    {
      CheckoutRequestHasPrefix(other);
    }
  }

  lemma ReversalFacts(l: Ledger, x: Entry, original: string)
    requires NormalAmounts(l) && original in l.entries && Reverses(x, l.entries[original], original)
    ensures Mirrors(l, x) && IsRefundOf(x, original) && NormalizeCurrency(x.amount.currency) == x.amount.currency
  {
  }

  lemma OrderFacts(e: Engine, orderId: string)
    requires OrdersInv(e.wallet, e.orders) && orderId in e.orders
    ensures e.orders[orderId].id == orderId && OrderInv(e.wallet, e.orders[orderId])
  {
  }

  /** The first refund of a paid order. */
  lemma FirstRefundKeepsPayments(e: Engine, orderId: string, requestId: string, m: Ledger, x: Entry)
    requires PaymentsInv(e) && orderId in e.orders && e.orders[orderId].status == Paid
    requires !Known(e.wallet, requestId) && !HasPrefix(requestId, "checkout:")
    requires RefundOf(e.wallet, requestId, PaymentOf(e.orders[orderId])) == (m, Done(x))
    ensures PaymentsInv(e.(wallet := m, orders := e.orders[orderId := e.orders[orderId].(status := Refunded)]))
  {
    hide *;
    var order := e.orders[orderId];
    var refunded := order.(status := Refunded);
    TakePayments(e);
    OrderFacts(e, orderId);
    RefundGrows(e.wallet, requestId, PaymentOf(order), m, x);
    ReversalFacts(e.wallet, x, PaymentOf(order));
    RefundedOrderInv(e.wallet, m, x, order);
    assert PaymentOf(refunded) == PaymentOf(order) by { PaymentIgnoresStatus(order); }
    RefundSparesOthers(e, x, refunded);
    ForeignClaimsNothing(x, refunded);
    AssemblePayments(e, e.(wallet := m, orders := e.orders[orderId := refunded]), x, refunded);
  }

  lemma PaymentIgnoresStatus(order: Order)
    ensures PaymentOf(order.(status := Refunded)) == PaymentOf(order)
  {
  }

  lemma OtherOrdersUntouched(e: Engine, x: Entry, id: string, orderId: string)
    requires OrdersInv(e.wallet, e.orders) && id in e.orders && orderId in e.orders && id != orderId
    requires IsRefundOf(x, PaymentOf(e.orders[orderId]))
    ensures !IsRefundOf(x, PaymentOf(e.orders[id]))
  {
    DistinctPayments(e, id, orderId);
    if IsRefundOf(x, PaymentOf(e.orders[id])) {
      RefundIsSpecific(PaymentOf(e.orders[id]), PaymentOf(e.orders[orderId]));
    }
  }

  lemma RefundDecision(e: Engine, orderId: string, seller: ActorId, requestId: string)
    requires DecideRefund(e, orderId, seller, requestId).Events?
    ensures orderId in e.orders
    ensures var d := DecideRefund(e, orderId, seller, requestId); var order := e.orders[orderId];
      if order.status == Refunded then d.events == [OrderUpserted(order)]
      else
        order.status == Paid && order.paymentId.Some? &&
        var (m, r) := RefundOf(e.wallet, requestId, PaymentOf(order));
        r.Done? && d.events == [WalletChanged(m, r.entry), OrderUpserted(order.(status := Refunded))]
  {
  }

  lemma RefundKeepsPayments(e: Engine, orderId: string, seller: ActorId, requestId: string)
    requires PaymentsInv(e) && Harmless(e, RefundOrder(orderId, seller, requestId))
    ensures PaymentsInv(Execute(e, RefundOrder(orderId, seller, requestId)))
  {
    var c := RefundOrder(orderId, seller, requestId);
    var d := Decide(e, c);
    if d.Events? {
      RefundDecision(e, orderId, seller, requestId);
      if e.orders[orderId].status == Refunded {
        UnchangedOrder(e, c, orderId);
      } else {
        var m, x := d.events[0].wallet, d.events[0].entry;
        FirstRefundKeepsPayments(e, orderId, requestId, m, x);
        ExecuteTwo(e, c, m, x, e.orders[orderId].(status := Refunded));
      }
    }
  }

  /** An unknown request id with the checkout prefix names no order. */
  lemma UnknownCheckoutNamesNoOrder(e: Engine, requestId: string)
    requires PaymentsInv(e) && PosesAsCheckout(e, requestId)
    ensures requestId == CheckoutRequest(requestId[|"checkout:"|..]) && requestId[|"checkout:"|..] !in e.orders
  {
    var n := |"checkout:"|;
    var orderId := requestId[n..];
    assert requestId == requestId[..n] + orderId;
    if orderId in e.orders { OrdersAreKnown(e, orderId); }
  }

  /** The request id of every order is in the ledger. */
  lemma OrdersAreKnown(e: Engine, orderId: string)
    requires PaymentsInv(e) && orderId in e.orders
    ensures Known(e.wallet, CheckoutRequest(orderId))
  {
    OrderFacts(e, orderId);
    var x := e.wallet.entries[PaymentOf(e.orders[orderId])];
    assert x.requestId in e.wallet.requests;
  }

  lemma DistinctPayments(e: Engine, a: string, b: string)
    requires OrdersInv(e.wallet, e.orders) && a in e.orders && b in e.orders && a != b
    ensures PaymentOf(e.orders[a]) != PaymentOf(e.orders[b])
  {
    assert OrderInv(e.wallet, e.orders[a]) && OrderInv(e.wallet, e.orders[b]);
    if PaymentOf(e.orders[a]) == PaymentOf(e.orders[b]) {
      CheckoutRequestInjective(a, b);
    }
  }

  // --------------------------------------------------------------------- credit

  lemma CreditGrows(
    l: Ledger, w: Ledger, requestId: string, id: AccountId, amount: Money, reference: Option<string>, m: Ledger,
    x: Entry)
    requires LedgerInv(l) && w.entries == l.entries && w.requests == l.requests && !Known(l, requestId)
    requires CreditOf(w, requestId, id, amount, reference) == (m, Done(x))
    ensures Grew(l, m, x) && x.kind == Credit && x.requestId == requestId &&
      NormalizeCurrency(x.amount.currency) == x.amount.currency
  {
    UnknownIsUnused(l, requestId);
    NextIdIsFresh(l);
    NormalizeIdempotent(amount.currency);
  }

  /** A new credit touches no order. */
  lemma NewCreditKeepsPayments(e: Engine, m: Ledger, x: Entry)
    requires PaymentsInv(e) && Grew(e.wallet, m, x) && LedgerInv(m) && x.kind == Credit
    requires NormalizeCurrency(x.amount.currency) == x.amount.currency && !HasPrefix(x.requestId, "checkout:")
    ensures PaymentsInv(e.(wallet := m))
  {
    GrowthKeepsMirrors(e.wallet, m, x);
    OrdersSurviveCredit(e.wallet, m, x, e.orders);
    ForeignRequestOwnsNoCheckout(e, e.(wallet := m), x);
  }

  lemma OrdersSurviveCredit(l: Ledger, m: Ledger, x: Entry, orders: map<string, Order>)
    requires Numbered(l) && OrdersInv(l, orders) && Grew(l, m, x) && x.kind == Credit
    ensures OrdersInv(m, orders)
  {
    forall id | id in orders
      ensures OrderInv(m, orders[id])
    {
      GrowthKeepsOrder(l, m, x, orders[id]);
    }
  }

  lemma ForeignRequestOwnsNoCheckout(e: Engine, after: Engine, x: Entry)
    requires CheckoutsOwned(e) && after.orders == e.orders &&
      after.wallet.requests == e.wallet.requests[x.requestId := x.id]
    requires !HasPrefix(x.requestId, "checkout:")
    ensures CheckoutsOwned(after)
  {
    forall orderId | CheckoutRequest(orderId) in after.wallet.requests
      ensures orderId in after.orders
    {
      CheckoutRequestHasPrefix(orderId);
      assert CheckoutRequest(orderId) in e.wallet.requests;
    }
  }

  /** Adding accounts without entries touches no order. */
  lemma SameEntriesKeepPayments(e: Engine, m: Ledger)
    requires PaymentsInv(e) && LedgerInv(m) && m.entries == e.wallet.entries && m.requests == e.wallet.requests
    ensures PaymentsInv(e.(wallet := m))
  {
    forall id | id in e.orders
      ensures OrderInv(m, e.orders[id])
    {
      assert OrderInv(e.wallet, e.orders[id]);
    }
    SameEntriesKeepMirrors(e.wallet, m);
  }

  lemma CreditKeepsPayments(e: Engine, requestId: string, owner: ActorId, amount: Money, reference: Option<string>)
    requires PaymentsInv(e) && Harmless(e, CreditSettlement(requestId, owner, amount, reference))
    ensures PaymentsInv(Execute(e, CreditSettlement(requestId, owner, amount, reference)))
  {
    hide PaymentsInv, LedgerInv, HasPrefix, NormalizeCurrency, CreditOf, EnsureAccount;
    var d := DecideCredit(e, requestId, owner, amount, reference);
    if d.Events? {
      ApplyOne(e, d.events[0]);
      TakePayments(e);
      EnsureKeepsInv(e.wallet, WalletId(owner), owner);
      var w := EnsureAccount(e.wallet, WalletId(owner), owner).0;
      var m, x := d.events[0].wallet, d.events[0].entry;
      CreditKeepsInv(w, requestId, WalletId(owner), amount, reference);
      if Known(e.wallet, requestId) {
        KnownCredit(w, requestId, WalletId(owner), amount, reference);
        SameEntriesKeepPayments(e, m);
      } else {
        CreditGrows(e.wallet, w, requestId, WalletId(owner), amount, reference, m, x);
        NewCreditKeepsPayments(e, m, x);
      }
    }
  }

  lemma KnownCredit(l: Ledger, requestId: string, id: AccountId, amount: Money, reference: Option<string>)
    requires Known(l, requestId)
    ensures CreditOf(l, requestId, id, amount, reference) == (l, Done(KnownEntry(l, requestId)))
  {
  }

  lemma SameEntriesKeepMirrors(l: Ledger, m: Ledger)
    requires RefundsMirror(l) && m.entries == l.entries
    ensures RefundsMirror(m)
  {
    forall k | k in m.entries && m.entries[k].kind == Refund
      ensures Mirrors(m, m.entries[k])
    {
      assert Mirrors(l, l.entries[k]);
      var original :| original in l.entries && Reverses(l.entries[k], l.entries[original], original);
      assert original in m.entries && Reverses(m.entries[k], m.entries[original], original);
    }
  }

  /** Any other command clients can cause keeps the invariant. */
  lemma OtherCommandsKeepPayments(e: Engine, c: Command)
    requires PaymentsInv(e) && !c.UpsertOrder? && !c.RefundOrder? && !c.CreditSettlement?
    ensures PaymentsInv(Execute(e, c))
  {
    hide DecideCheckout;
    match c
    case CheckoutInvoice(invoiceId, orderId, buyer, now) => CheckoutKeepsPayments(e, invoiceId, orderId, buyer, now);
    case CreateInvoice(v) => ApplyOne(e, InvoiceCreated(v));
    case Elsewhere(a, k) => ApplyOne(e, ElsewhereChanged(a, k));
  }

  /** Every harmless command clients can cause keeps the payment invariant ... */
  lemma ExecuteKeepsPayments(e: Engine, c: Command)
    requires PaymentsInv(e) && !c.UpsertOrder? && Harmless(e, c)
    ensures PaymentsInv(Execute(e, c))
  {
    hide PaymentsInv, Execute, DecideRefund, DecideCredit;
    match c
    case RefundOrder(orderId, seller, requestId) => RefundKeepsPayments(e, orderId, seller, requestId);
    case CreditSettlement(requestId, owner, amount, reference) =>
      CreditKeepsPayments(e, requestId, owner, amount, reference);
    case _ => OtherCommandsKeepPayments(e, c);
  }

  /** ... and so does every harmless run of them. */
  lemma {:induction false} RunsKeepPayments(e: Engine, commands: seq<Command>)
    requires PaymentsInv(e) && ClientRun(commands) && HarmlessRun(e, commands)
    ensures PaymentsInv(Run(e, commands))
    decreases |commands|
  {
    hide PaymentsInv, Execute, Harmless;
    if commands != [] {
      ExecuteKeepsPayments(e, commands[0]);
      RunsKeepPayments(Execute(e, commands[0]), commands[1..]);
    }
  }

  lemma StaleRefundOutcome(e: Engine, orderId: string, requestId: string)
    requires orderId in e.orders && e.orders[orderId].id == orderId && e.orders[orderId].status == Paid &&
      e.orders[orderId].paymentId.Some?
    requires e.orders[orderId].invoiceId in e.invoices && Known(e.wallet, requestId)
    ensures Execute(e, RefundOrder(orderId, e.invoices[e.orders[orderId].invoiceId].seller, requestId)) ==
      e.(orders := e.orders[orderId := e.orders[orderId].(status := Refunded)])
  {
    var order := e.orders[orderId];
    var c := RefundOrder(orderId, e.invoices[order.invoiceId].seller, requestId);
    ExecuteTwo(e, c, e.wallet, KnownEntry(e.wallet, requestId), order.(status := Refunded));
  }

  /** The freshness condition is needed: a refund under any known request id marks the
      order Refunded and moves nothing. */
  lemma StaleRefundMovesNothing(e: Engine, orderId: string, requestId: string, after: Engine)
    requires PaymentsInv(e) && orderId in e.orders && e.orders[orderId].status == Paid
    requires e.orders[orderId].invoiceId in e.invoices && Known(e.wallet, requestId)
    requires after == Execute(e, RefundOrder(orderId, e.invoices[e.orders[orderId].invoiceId].seller, requestId))
    ensures after.wallet == e.wallet && orderId in after.orders && after.orders[orderId].status == Refunded
    ensures !OrderInv(after.wallet, after.orders[orderId])
  {
    assert OrderInv(e.wallet, e.orders[orderId]);
    StaleRefundOutcome(e, orderId, requestId);
  }

  lemma InvariantIsPromise(e: Engine)
    requires PaymentsInv(e)
    ensures Promise(e)
  {
  }

  lemma BrokenOrder(e: Engine, orderId: string)
    requires orderId in e.orders && !OrderInv(e.wallet, e.orders[orderId])
    ensures !Promise(e)
  {
  }

  lemma EmptyEngineInv()
    ensures PaymentsInv(Engine({}, {}, map[], map[], EMPTY))
  {
    EmptyLedgerInv();
  }

  // ----------------------------------------------------------------- idempotency

  /** The same entries and requests, and the same balance of every account. */
  ghost predicate SameMoney(l: Ledger, m: Ledger)
  {
    m.entries == l.entries && m.requests == l.requests &&
    forall a: AccountId, currency: string :: Held(m.accounts, a, currency) == Held(l.accounts, a, currency)
  }

  lemma EnsureKeepsMoney(l: Ledger, id: AccountId, owner: ActorId)
    ensures SameMoney(l, EnsureAccount(l, id, owner).0)
  {
  }

  /** Every request the command may act under. */
  predicate ActsUnder(c: Command, requestId: string)
  {
    match c
    case CreditSettlement(r, _, _, _) => r == requestId
    case RefundOrder(_, _, r) => r == requestId
    case CheckoutInvoice(_, orderId, _, _) => CheckoutRequest(orderId) == requestId
    case _ => false
  }

  /** A settlement, refund or checkout under a known request id moves no money. */
  lemma KnownRequestMovesNothing(e: Engine, c: Command, requestId: string)
    requires Known(e.wallet, requestId) && ActsUnder(c, requestId)
    ensures SameMoney(e.wallet, Execute(e, c).wallet)
  {
    hide NormalizeCurrency, CheckoutRequest, WalletId;
    match c
    case CreditSettlement(r, owner, amount, reference) =>
      EnsureKeepsMoney(e.wallet, WalletId(owner), owner);
      var d := Decide(e, c);
      if d.Events? { ApplyOne(e, d.events[0]); }
    case RefundOrder(orderId, seller, r) =>
      var d := Decide(e, c);
      if d.Events? { RefundMoves(e, orderId, seller, requestId); }
    case CheckoutInvoice(invoiceId, orderId, buyer, now) =>
      KnownCheckoutMovesNothing(e, invoiceId, orderId, buyer, now);
  }

  lemma RefundMoves(e: Engine, orderId: string, seller: ActorId, requestId: string)
    requires DecideRefund(e, orderId, seller, requestId).Events? && Known(e.wallet, requestId)
    ensures Execute(e, RefundOrder(orderId, seller, requestId)).wallet == e.wallet
  {
    var d := DecideRefund(e, orderId, seller, requestId);
    var order := e.orders[orderId];
    if order.status == Refunded {
      ApplyOne(e, d.events[0]);
    } else {
      ApplyTwo(e, d.events[0], d.events[1]);
    }
  }

  lemma KnownCheckoutMovesNothing(e: Engine, invoiceId: string, orderId: string, buyer: ActorId, now: int)
    requires Known(e.wallet, CheckoutRequest(orderId))
    ensures SameMoney(e.wallet, Execute(e, CheckoutInvoice(invoiceId, orderId, buyer, now)).wallet)
  {
    hide CheckedTotal, CheckoutRequest, WalletId;
    var d := DecideCheckout(e, invoiceId, orderId, buyer, now);
    if d.Events? {
      var v := e.invoices[invoiceId];
      if orderId in e.orders {
        ApplyOne(e, d.events[0]);
      } else {
        EnsureKeepsMoney(e.wallet, WalletId(buyer), buyer);
        var w := EnsureAccount(e.wallet, WalletId(buyer), buyer).0;
        EnsureKeepsMoney(w, WalletId(v.seller), v.seller);
        ApplyTwo(e, d.events[0], d.events[1]);
      }
    }
  }

  /** No request is ever forgotten. */
  ghost predicate Remembers(l: Ledger, m: Ledger)
  {
    forall r :: Known(l, r) ==> Known(m, r)
  }

  lemma OperationsRemember(
    l: Ledger, requestId: string, a: AccountId, b: AccountId, amount: Money, reference: Option<string>,
    original: string)
    ensures Remembers(l, CreditOf(l, requestId, a, amount, reference).0)
    ensures Remembers(l, TransferOf(l, requestId, a, b, amount, reference).0)
    ensures Remembers(l, RefundOf(l, requestId, original).0)
  {
    hide NormalizeCurrency, LedgerId, ValidAmount, RefundReference;
    TransferRemembers(l, requestId, a, b, amount, reference);
    if original in l.entries && l.entries[original].from.Some? && l.entries[original].to.Some? {
      var o := l.entries[original];
      TransferRemembers(l, requestId, o.to.value, o.from.value, o.amount, Some(RefundReference(original)));
    }
  }

  lemma TransferRemembers(
    l: Ledger, requestId: string, a: AccountId, b: AccountId, amount: Money, reference: Option<string>)
    ensures Remembers(l, TransferOf(l, requestId, a, b, amount, reference).0)
  {
    hide NormalizeCurrency, LedgerId, ValidAmount;
  }

  lemma ExecuteRemembers(e: Engine, c: Command)
    ensures Remembers(e.wallet, Execute(e, c).wallet)
  {
    hide TransferOf, CreditOf, RefundOf, CheckedTotal, ValidInvoice, Known;
    var d := Decide(e, c);
    if d.Events? {
      match c
      case CreateInvoice(v) => ApplyOne(e, d.events[0]);
      case UpsertOrder(o) => ApplyOne(e, d.events[0]);
      case Elsewhere(a, k) => ApplyOne(e, d.events[0]);
      case CreditSettlement(r, owner, amount, reference) =>
        ApplyOne(e, d.events[0]);
        var w := EnsureAccount(e.wallet, WalletId(owner), owner).0;
        EnsureRemembers(e.wallet, WalletId(owner), owner);
        OperationsRemember(w, r, WalletId(owner), "", amount, reference, "");
      case RefundOrder(orderId, seller, r) =>
        if e.orders[orderId].status == Refunded {
          ApplyOne(e, d.events[0]);
        } else {
          ApplyTwo(e, d.events[0], d.events[1]);
          OperationsRemember(e.wallet, r, "", "", Money("", 0), None, e.orders[orderId].paymentId.value);
        }
      case CheckoutInvoice(invoiceId, orderId, buyer, now) => CheckoutRemembers(e, invoiceId, orderId, buyer, now);
    }
  }

  lemma EnsureRemembers(l: Ledger, id: AccountId, owner: ActorId)
    ensures Remembers(l, EnsureAccount(l, id, owner).0)
  {
  }

  lemma CheckoutRemembers(e: Engine, invoiceId: string, orderId: string, buyer: ActorId, now: int)
    requires DecideCheckout(e, invoiceId, orderId, buyer, now).Events?
    ensures Remembers(e.wallet, Execute(e, CheckoutInvoice(invoiceId, orderId, buyer, now)).wallet)
  {
    hide TransferOf, CheckedTotal, Known, EnsureAccount;
    var d := DecideCheckout(e, invoiceId, orderId, buyer, now);
    if orderId in e.orders {
      ApplyOne(e, d.events[0]);
    } else {
      var v := e.invoices[invoiceId];
      var w := EnsureAccount(e.wallet, WalletId(buyer), buyer).0;
      EnsureRemembers(e.wallet, WalletId(buyer), buyer);
      EnsureRemembers(w, WalletId(v.seller), v.seller);
      var u := EnsureAccount(w, WalletId(v.seller), v.seller).0;
      TransferRemembers(u, CheckoutRequest(orderId), WalletId(buyer), WalletId(v.seller),
                        Money(AsciiUpper(v.currency), CheckedTotal(v.prices, 0).value), Some(v.id));
      ApplyTwo(e, d.events[0], d.events[1]);
    }
  }

  lemma {:induction false} RunRemembers(e: Engine, commands: seq<Command>)
    ensures Remembers(e.wallet, Run(e, commands).wallet)
    decreases |commands|
  {
    hide Execute, Known;
    if commands != [] {
      ExecuteRemembers(e, commands[0]);
      RunRemembers(Execute(e, commands[0]), commands[1..]);
    }
  }

  /** Idempotency of the engine: once a request id is known, then after any further run a
      settlement, refund or checkout under it moves no money. */
  lemma IdempotentOverRuns(e: Engine, commands: seq<Command>, c: Command, requestId: string)
    requires Known(e.wallet, requestId) && ActsUnder(c, requestId)
    ensures var after := Run(e, commands); SameMoney(after.wallet, Execute(after, c).wallet)
  {
    hide Run, Execute, Known, SameMoney;
    RunRemembers(e, commands);
    KnownRequestMovesNothing(Run(e, commands), c, requestId);
  }
}
