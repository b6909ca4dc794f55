/** Applying a payment to a debt (App.tsx, `handlePartialPayment`): the paid
    amount grows by the payment, clamped to the total; the debt is marked paid
    once nothing remains; and a transaction recording the payment is put at
    the head of the ledger. The two data-store calls are parameters: `acked`
    for the debt update, `created` for the new transaction's id (`None` when
    that call threw). Memory changes only when both calls return. */
module Settlement {
  import opened Wrappers
  import opened Types
  import opened Seqs
  import opened Stats
  import Wire

  /** Category and note prefix of the transactions a settlement records. */
  const PaymentCategory: string := "Pagos/Cobros"
  const PaymentNotePrefix: string := "Abono de: "

  /** A validated payment: `debt` is the first record with the selected id,
      found at position `at`; `pay` is the positive amount entered. */
  datatype Payment = Payment(at: nat, debt: Debt, pay: real)

  /** The paid amount before clamping. */
  function NewPaid(p: Payment): real {
    p.debt.paidAmount + p.pay
  }

  predicate FullyPaid(p: Payment) {
    NewPaid(p) >= p.debt.amount
  }

  /** Validation and lookup. A payment is rejected when no debt is selected,
      the amount is NaN or not positive, or no debt has the selected id. */
  function Plan(ds: seq<Debt>, selected: Option<Id>, payment: Option<real>): (r: Option<Payment>)
    ensures r.None? <==>
      || !Truthy(selected) || payment.None? || payment.value <= 0.0
      || (forall i :: 0 <= i < |ds| ==> ds[i].id != selected.value)
    ensures r.Some? ==>
      && r.value.pay == payment.value && r.value.pay > 0.0
      && r.value.at < |ds| && ds[r.value.at] == r.value.debt && r.value.debt.id == selected.value
      && (forall j :: 0 <= j < r.value.at ==> ds[j].id != selected.value)
  {
    if !Truthy(selected) then None
    else if payment.None? || payment.value <= 0.0 then None
    else match FindFirst(ds, DebtHasId(selected.value))
      case None => None
      case Some(k) => Some(Payment(k, ds[k], payment.value))
  }

  /** The in-memory update of one record carrying the selected id. The clamp
      uses that record's own total; the unclamped amount is the one computed
      from the first match. */
  function SettledDebt(p: Payment, d: Debt): (r: Debt)
    ensures r.(paidAmount := d.paidAmount, isPaid := d.isPaid) == d
    ensures r.isPaid <==> p.debt.paidAmount + p.pay >= p.debt.amount
    ensures r.isPaid ==> r.paidAmount == d.amount
    ensures !r.isPaid ==> r.paidAmount == p.debt.paidAmount + p.pay
    ensures d.amount == p.debt.amount ==> (r.isPaid <==> r.paidAmount >= r.amount)
  {
    d.(paidAmount := if FullyPaid(p) then d.amount else NewPaid(p), isPaid := FullyPaid(p))
  }

  /** `SettledDebt` as the callback of the list update. */
  function Settled(p: Payment): Debt -> Debt {
    (d: Debt) => SettledDebt(p, d)
  }

  /** The patch sent to the data store for the found debt: the unclamped paid
      amount capped at the found debt's total, flagged paid exactly when the
      cap is reached. */
  function PatchFor(p: Payment): (r: Wire.DebtPatch)
    ensures r.paid_amount == if NewPaid(p) <= p.debt.amount then NewPaid(p) else p.debt.amount
    ensures r.is_paid <==> r.paid_amount >= p.debt.amount
    ensures p.pay >= 0.0 && p.debt.paidAmount <= p.debt.amount ==>
      p.debt.paidAmount <= r.paid_amount <= p.debt.amount
  {
    Wire.DebtPatch(if FullyPaid(p) then p.debt.amount else NewPaid(p), FullyPaid(p))
  }

  /** The transaction a payment records: the full payment, unclamped; an
      expense when the user owed the money and an income otherwise. */
  function PaymentTransaction(p: Payment, id: Id, now: string): (t: Transaction)
    ensures t.id == id && t.date == now && t.amount == p.pay
    ensures t.kind == Expense <==> p.debt.kind == OwedByMe
    ensures t.category == PaymentCategory
    ensures t.note == PaymentNotePrefix + p.debt.person
  {
    Transaction(id, p.pay, if p.debt.kind == OwedByMe then Expense else Income,
                PaymentCategory, now, PaymentNotePrefix + p.debt.person)
  }

  /** The whole settlement step on the two lists. */
  function Settle(l: Ledger, selected: Option<Id>, payment: Option<real>, acked: bool,
                  created: Option<Id>, now: string): (r: Ledger)
    ensures (|| !Truthy(selected) || payment.None? || payment.value <= 0.0
             || (forall i :: 0 <= i < |l.debts| ==> l.debts[i].id != selected.value)) ==> r == l
    ensures !acked || created.None? ==> r == l
    ensures Plan(l.debts, selected, payment).Some? && acked && created.Some? ==>
      var p := Plan(l.debts, selected, payment).value;
      && r.transactions == [PaymentTransaction(p, created.value, now)] + l.transactions
      && |r.debts| == |l.debts|
      && (forall i :: 0 <= i < |l.debts| && l.debts[i].id != selected.value ==> r.debts[i] == l.debts[i])
      && (forall i :: 0 <= i < |l.debts| && l.debts[i].id == selected.value ==>
            && r.debts[i].isPaid == (p.debt.paidAmount + p.pay >= p.debt.amount)
            && r.debts[i].paidAmount == (if r.debts[i].isPaid then l.debts[i].amount
                                         else p.debt.paidAmount + p.pay)
            && r.debts[i].(paidAmount := l.debts[i].paidAmount, isPaid := l.debts[i].isPaid) == l.debts[i])
  {
    match Plan(l.debts, selected, payment)
    case None => l
    case Some(p) =>
      if !acked then l
      else match created
        case None => l
        case Some(id) =>
          Ledger([PaymentTransaction(p, id, now)] + l.transactions,
                 MapWhere(l.debts, DebtHasId(p.debt.id), Settled(p)))
  }

  /** With unique ids the settlement is a point update of the found debt. */
  lemma SettleIsPointUpdate(l: Ledger, selected: Option<Id>, payment: Option<real>, id: Id, now: string)
    requires UniqueDebtIds(l.debts)
    requires Plan(l.debts, selected, payment).Some?
    ensures var p := Plan(l.debts, selected, payment).value;
      Settle(l, selected, payment, true, Some(id), now).debts == l.debts[p.at := Settled(p)(p.debt)]
  {
    var p := Plan(l.debts, selected, payment).value;
    MapWhereSingle(l.debts, DebtHasId(p.debt.id), Settled(p), p.at);
  }

  /** If the found debt satisfied `0 <= paidAmount <= amount`, afterwards its
      paid amount lies between the old paid amount and the total, and the debt
      is consistent. */
  lemma SettlementBounds(l: Ledger, selected: Option<Id>, payment: Option<real>, id: Id, now: string)
    requires Plan(l.debts, selected, payment).Some?
    requires var d := Plan(l.debts, selected, payment).value.debt; 0.0 <= d.paidAmount <= d.amount
    ensures var p := Plan(l.debts, selected, payment).value;
      var after := Settle(l, selected, payment, true, Some(id), now).debts[p.at];
      && p.debt.paidAmount <= after.paidAmount <= p.debt.amount
      && Consistent(after)
  {
  }

  /** Settlement keeps every debt consistent and never lowers a paid amount. */
  lemma SettlementPreservesConsistency(l: Ledger, selected: Option<Id>, payment: Option<real>,
                                       acked: bool, created: Option<Id>, now: string)
    requires AllConsistent(l.debts) && UniqueDebtIds(l.debts)
    ensures var r := Settle(l, selected, payment, acked, created, now);
      && AllConsistent(r.debts)
      && |r.debts| == |l.debts|
      && forall i :: 0 <= i < |l.debts| ==> l.debts[i].paidAmount <= r.debts[i].paidAmount
  {
    var plan := Plan(l.debts, selected, payment);
    if plan.Some? && acked && created.Some? {
      SettleIsPointUpdate(l, selected, payment, created.value, now);
    }
  }

  /** Settlement never changes an id, so debt ids stay unique. */
  lemma SettlePreservesUniqueIds(l: Ledger, selected: Option<Id>, payment: Option<real>,
                                 acked: bool, created: Option<Id>, now: string)
    requires UniqueDebtIds(l.debts)
    ensures UniqueDebtIds(Settle(l, selected, payment, acked, created, now).debts)
  {
    var r := Settle(l, selected, payment, acked, created, now);
    assert forall i :: 0 <= i < |l.debts| ==> r.debts[i].id == l.debts[i].id;
  }

  /** The amount a settlement actually takes off the debt. */
  function Credited(p: Payment): (c: real)
    requires p.debt.paidAmount <= p.debt.amount && p.pay > 0.0
    ensures 0.0 <= c <= p.pay
    ensures c == p.pay <==> NewPaid(p) <= p.debt.amount
  {
    if FullyPaid(p) then p.debt.amount - p.debt.paidAmount else p.pay
  }

  /** The figures after a settlement: the payment moves the balance by its full
      amount, while the outstanding total drops only by what was credited (and
      not at all for a debt already marked paid). */
  lemma SettlementStats(l: Ledger, selected: Option<Id>, payment: Option<real>, id: Id, now: string)
    requires UniqueDebtIds(l.debts)
    requires Plan(l.debts, selected, payment).Some?
    requires Consistent(Plan(l.debts, selected, payment).value.debt)
    ensures var p := Plan(l.debts, selected, payment).value;
      var before, after := StatsOf(l), StatsOf(Settle(l, selected, payment, true, Some(id), now));
      var credited := if p.debt.isPaid then 0.0 else Credited(p);
      && after.totalBalance == before.totalBalance + (if p.debt.kind == OwedByMe then -p.pay else p.pay)
      && after.totalDebtToPay == before.totalDebtToPay - (if p.debt.kind == OwedByMe then credited else 0.0)
      && after.totalDebtToReceive == before.totalDebtToReceive - (if p.debt.kind == OwedToMe then credited else 0.0)
  {
    var p := Plan(l.debts, selected, payment).value;
    var r := Settle(l, selected, payment, true, Some(id), now);
    StatsAfterPrepend(PaymentTransaction(p, id, now), l.transactions, l.debts);
    SettleIsPointUpdate(l, selected, payment, id, now);
    var d' := Settled(p)(p.debt);
    SumWhereUpdate(l.debts, p.at, d', OutstandingByMe, Remaining);
    SumWhereUpdate(l.debts, p.at, d', OutstandingToMe, Remaining);
  }

  /** On overpayment the recorded transaction exceeds what the debt was
      credited: the excess is discarded from the debt but kept in the ledger. */
  lemma OverpaymentRecordsMoreThanCredited(l: Ledger, selected: Option<Id>, payment: Option<real>, id: Id, now: string)
    requires Plan(l.debts, selected, payment).Some?
    requires var p := Plan(l.debts, selected, payment).value; p.debt.paidAmount <= p.debt.amount < NewPaid(p)
    ensures var p := Plan(l.debts, selected, payment).value;
      var r := Settle(l, selected, payment, true, Some(id), now);
      && r.transactions[0].amount - (r.debts[p.at].paidAmount - p.debt.paidAmount) == NewPaid(p) - p.debt.amount
      && r.transactions[0].amount > Credited(p)
  {
  }

  /** A debt of 100 with 80 paid, settled with 50: paid becomes 100, not 130,
      the debt is marked paid, and an expense of 50 is recorded. */
  lemma OverpaymentExample(now: string)
    ensures var l := Ledger([], [Debt("d1", "Ana", 100.0, 80.0, OwedByMe, "", false)]);
      var r := Settle(l, Some("d1"), Some(50.0), true, Some("t1"), now);
      && r.debts == [Debt("d1", "Ana", 100.0, 100.0, OwedByMe, "", true)]
      && r.transactions == [Transaction("t1", 50.0, Expense, "Pagos/Cobros", now, "Abono de: Ana")]
  {
    var l := Ledger([], [Debt("d1", "Ana", 100.0, 80.0, OwedByMe, "", false)]);
    assert l.debts[0].id == "d1";
    assert FindFirst(l.debts, DebtHasId("d1")) == Some(0);
    var p := Payment(0, l.debts[0], 50.0);
    assert Plan(l.debts, Some("d1"), Some(50.0)) == Some(p);
    assert FullyPaid(p);
    var r := Settle(l, Some("d1"), Some(50.0), true, Some("t1"), now);
    assert r.debts[0] == Debt("d1", "Ana", 100.0, 100.0, OwedByMe, "", true);
    assert PaymentNotePrefix + "Ana" == "Abono de: Ana";
    assert r.transactions[0] == Transaction("t1", 50.0, Expense, "Pagos/Cobros", now, "Abono de: Ana");
  }

  /** A debt saved with a negative amount is settled downwards: a debt of -5
      with nothing paid, settled with 1, ends with -5 paid and marked paid. */
  lemma NegativeDebtExample(now: string)
    ensures var l := Ledger([], [Debt("d1", "Ana", -5.0, 0.0, OwedByMe, "", false)]);
      var r := Settle(l, Some("d1"), Some(1.0), true, Some("t1"), now);
      && r.debts == [Debt("d1", "Ana", -5.0, -5.0, OwedByMe, "", true)]
      && r.debts[0].paidAmount < l.debts[0].paidAmount
  {
    var l := Ledger([], [Debt("d1", "Ana", -5.0, 0.0, OwedByMe, "", false)]);
    assert FindFirst(l.debts, DebtHasId("d1")) == Some(0);
    var p := Payment(0, l.debts[0], 1.0);
    assert Plan(l.debts, Some("d1"), Some(1.0)) == Some(p);
    assert FullyPaid(p);
  }

  /** What the data store is told and what memory holds agree: patching the
      stored row of the found debt reads back as its in-memory update. */
  lemma PatchAgreesWithMemory(p: Payment, createdAt: string)
    ensures Wire.FromWire(Wire.ApplyPatch(Wire.ToWire(p.debt, createdAt), PatchFor(p))) == Settled(p)(p.debt)
  {
  }
}
