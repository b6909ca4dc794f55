/** Creating, editing, deleting and loading records in the client's two lists
    (App.tsx: `fetchData`, `handleLogout`, `handleSaveTransaction`,
    `handleSaveDebt`, `deleteTransaction`, `deleteDebt`). Every data-store
    call is a parameter: `acked` is true when an update or delete call
    returned, `created` is the id of the record a create call returned, or
    `None` when the call threw. The lists change only after the call returns. */
module Records {
  import opened Wrappers
  import opened Types
  import opened Seqs
  import opened Stats
  import Wire

  /** The transaction form: the amount as `parseFloat` saw it (`None` for NaN). */
  datatype TransactionForm = TransactionForm(
    amount: Option<real>,
    kind: TransactionType,
    category: string,
    note: string)

  /** The debt form: the amount as `parseFloat` saw it (`None` for NaN). */
  datatype DebtForm = DebtForm(
    amount: Option<real>,
    person: string,
    kind: DebtType,
    note: string)

  /** The fields an edit writes over a transaction; the date becomes the save time. */
  function EditTransaction(form: TransactionForm, amount: real, now: string): Transaction -> Transaction {
    (t: Transaction) => t.(amount := amount, kind := form.kind, category := form.category,
                           note := form.note, date := now)
  }

  /** The fields an edit writes over a debt; the settlement state is reset. */
  function EditDebt(form: DebtForm, amount: real): Debt -> Debt {
    (d: Debt) => d.(amount := amount, person := form.person, kind := form.kind,
                    note := form.note, paidAmount := 0.0, isPaid := false)
  }

  /** Saving the transaction form: an edit when `editingId` is truthy, a
      creation otherwise. */
  function SaveTransaction(l: Ledger, editingId: Option<Id>, form: TransactionForm, now: string,
                           acked: bool, created: Option<Id>): (r: Ledger)
    ensures r.debts == l.debts
    ensures form.amount.None? ==> r == l
    ensures form.amount.Some? && !Truthy(editingId) && created.Some? ==>
      r.transactions == [Transaction(created.value, form.amount.value, form.kind, form.category, now, form.note)]
                        + l.transactions
    ensures !Truthy(editingId) && created.None? ==> r == l
    ensures Truthy(editingId) && !acked ==> r == l
    ensures form.amount.Some? && Truthy(editingId) && acked ==>
      && |r.transactions| == |l.transactions|
      && (forall i :: 0 <= i < |l.transactions| && l.transactions[i].id != editingId.value ==>
            r.transactions[i] == l.transactions[i])
      && (forall i :: 0 <= i < |l.transactions| && l.transactions[i].id == editingId.value ==>
            var t := r.transactions[i];
            && t.id == editingId.value && t.amount == form.amount.value && t.kind == form.kind
            && t.category == form.category && t.note == form.note && t.date == now)
  {
    if form.amount.None? then l
    else if Truthy(editingId) then
      if acked then
        l.(transactions := MapWhere(l.transactions, TxHasId(editingId.value),
                                    EditTransaction(form, form.amount.value, now)))
      else l
    else
      match created
      case Some(id) =>
        var t := Transaction(id, form.amount.value, form.kind, form.category, now, form.note);
        l.(transactions := [t] + l.transactions)
      case None => l
  }

  /** Saving the debt form: an edit when `editingId` is truthy, a creation
      otherwise. Either way the record comes out unpaid with nothing paid. */
  function SaveDebt(l: Ledger, editingId: Option<Id>, form: DebtForm, acked: bool, created: Option<Id>): (r: Ledger)
    ensures r.transactions == l.transactions
    ensures form.amount.None? ==> r == l
    ensures form.amount.Some? && !Truthy(editingId) && created.Some? ==>
      r.debts == [Debt(created.value, form.person, form.amount.value, 0.0, form.kind, form.note, false)] + l.debts
    ensures !Truthy(editingId) && created.None? ==> r == l
    ensures Truthy(editingId) && !acked ==> r == l
    ensures form.amount.Some? && Truthy(editingId) && acked ==>
      && |r.debts| == |l.debts|
      && (forall i :: 0 <= i < |l.debts| && l.debts[i].id != editingId.value ==> r.debts[i] == l.debts[i])
      && (forall i :: 0 <= i < |l.debts| && l.debts[i].id == editingId.value ==>
            r.debts[i] == Debt(editingId.value, form.person, form.amount.value, 0.0, form.kind, form.note, false))
  {
    if form.amount.None? then l
    else if Truthy(editingId) then
      if acked then l.(debts := MapWhere(l.debts, DebtHasId(editingId.value), EditDebt(form, form.amount.value)))
      else l
    else
      match created
      case Some(id) => l.(debts := [Debt(id, form.person, form.amount.value, 0.0, form.kind, form.note, false)] + l.debts)
      case None => l
  }

  /** Deleting a transaction: on success, exactly the records with that id go. */
  function DeleteTransaction(l: Ledger, id: Id, acked: bool): (r: Ledger)
    ensures r.debts == l.debts
    ensures !acked ==> r == l
    ensures acked ==> forall i :: 0 <= i < |r.transactions| ==>
      r.transactions[i].id != id && r.transactions[i] in l.transactions
    ensures acked ==> forall i :: 0 <= i < |l.transactions| && l.transactions[i].id != id ==>
      l.transactions[i] in r.transactions
    ensures (forall i :: 0 <= i < |l.transactions| ==> l.transactions[i].id != id) ==> r == l
  {
    if acked then l.(transactions := RemoveWhere(l.transactions, TxHasId(id))) else l
  }

  /** Deleting a debt: on success, exactly the records with that id go. */
  function DeleteDebt(l: Ledger, id: Id, acked: bool): (r: Ledger)
    ensures r.transactions == l.transactions
    ensures !acked ==> r == l
    ensures acked ==> forall i :: 0 <= i < |r.debts| ==> r.debts[i].id != id && r.debts[i] in l.debts
    ensures acked ==> forall i :: 0 <= i < |l.debts| && l.debts[i].id != id ==> l.debts[i] in r.debts
    ensures (forall i :: 0 <= i < |l.debts| ==> l.debts[i].id != id) ==> r == l
  {
    if acked then l.(debts := RemoveWhere(l.debts, DebtHasId(id))) else l
  }

  /** Signing out empties both lists. */
  function Logout(l: Ledger): (r: Ledger)
    ensures |r.transactions| == 0 && |r.debts| == 0
  {
    Ledger([], [])
  }

  /** Loading both lists at once; if either fetch fails, nothing changes. The
      transactions are taken as returned, the debts through the wire mapping. */
  function Load(l: Ledger, fetched: Option<(seq<Transaction>, seq<Wire.WireDebt>)>): (r: Ledger)
    ensures fetched.None? ==> r == l
    ensures fetched.Some? ==> r.transactions == fetched.value.0
    ensures fetched.Some? ==> |r.debts| == |fetched.value.1|
    ensures fetched.Some? ==> forall i :: 0 <= i < |r.debts| ==>
      var w := fetched.value.1[i];
      && r.debts[i] == Wire.FromWire(w)
      && r.debts[i].id == w.id && r.debts[i].person == w.person
      && r.debts[i].kind == w.kind && r.debts[i].note == w.note
      && r.debts[i].amount == w.amount
      && r.debts[i].paidAmount == w.paid_amount.GetOr(0.0)
      && r.debts[i].isPaid == (w.is_paid == Some(true))
  {
    match fetched
    case None => l
    case Some((ts, ws)) => Ledger(ts, Wire.LoadDebts(ws))
  }

  /** After signing out every figure on the dashboard is zero. */
  lemma LogoutClearsStats(l: Ledger)
    ensures StatsOf(Logout(l)) == FinancialStats(0.0, 0.0, 0.0, 0.0, 0.0)
  {
  }

  /** Creating a transaction moves the total of its type by its amount and
      leaves the other figures alone. */
  lemma CreateTransactionStats(l: Ledger, form: TransactionForm, now: string, id: Id)
    requires form.amount.Some?
    ensures var r := SaveTransaction(l, None, form, now, false, Some(id));
      && StatsOf(r).totalIncome == StatsOf(l).totalIncome + (if form.kind == Income then form.amount.value else 0.0)
      && StatsOf(r).totalExpenses == StatsOf(l).totalExpenses + (if form.kind == Expense then form.amount.value else 0.0)
      && StatsOf(r).totalDebtToPay == StatsOf(l).totalDebtToPay
      && StatsOf(r).totalDebtToReceive == StatsOf(l).totalDebtToReceive
  {
    var t := Transaction(id, form.amount.value, form.kind, form.category, now, form.note);
    StatsAfterPrepend(t, l.transactions, l.debts);
  }

  /** With unique ids, an edit changes exactly the one record with that id. */
  lemma EditTransactionIsPointUpdate(l: Ledger, id: Id, form: TransactionForm, now: string, k: nat)
    requires form.amount.Some? && id != ""
    requires UniqueTxIds(l.transactions)
    requires k < |l.transactions| && l.transactions[k].id == id
    ensures SaveTransaction(l, Some(id), form, now, true, None).transactions
         == l.transactions[k := EditTransaction(form, form.amount.value, now)(l.transactions[k])]
  {
    MapWhereSingle(l.transactions, TxHasId(id), EditTransaction(form, form.amount.value, now), k);
  }

  /** Submitting the same edit twice (same time stamp) is the same as once. */
  lemma EditTransactionIdempotent(l: Ledger, id: Id, form: TransactionForm, now: string)
    ensures var once := SaveTransaction(l, Some(id), form, now, true, None);
            SaveTransaction(once, Some(id), form, now, true, None) == once
  {
    if form.amount.Some? && id != "" {
      MapWhereIdempotent(l.transactions, TxHasId(id), EditTransaction(form, form.amount.value, now));
    }
  }

  /** A debt saved by the form satisfies the debt invariant exactly when its
      amount is positive: a zero amount leaves it unpaid with nothing left. */
  lemma SavedDebtConsistentIff(l: Ledger, editingId: Option<Id>, form: DebtForm, acked: bool, id: Id, k: nat)
    requires form.amount.Some?
    requires Truthy(editingId) ==> acked && k < |l.debts| && l.debts[k].id == editingId.value
    requires !Truthy(editingId) ==> k == 0
    ensures var r := SaveDebt(l, editingId, form, acked, Some(id));
      k < |r.debts| && (Consistent(r.debts[k]) <==> form.amount.value > 0.0)
  {
  }

  /** Saving a debt with a positive amount keeps every debt consistent. */
  lemma SaveDebtPreservesConsistency(l: Ledger, editingId: Option<Id>, form: DebtForm, acked: bool, created: Option<Id>)
    requires AllConsistent(l.debts)
    requires form.amount.Some? ==> form.amount.value > 0.0
    ensures AllConsistent(SaveDebt(l, editingId, form, acked, created).debts)
  {
    var r := SaveDebt(l, editingId, form, acked, created);
    if form.amount.Some? && !Truthy(editingId) && created.Some? {
      assert forall i :: 1 <= i < |r.debts| ==> r.debts[i] == l.debts[i - 1];
    }
  }

  /** Saving a debt keeps debt ids unique when a created record's id is fresh:
      an edit never changes an id. */
  lemma SaveDebtPreservesUniqueIds(l: Ledger, editingId: Option<Id>, form: DebtForm, acked: bool, created: Option<Id>)
    requires UniqueDebtIds(l.debts)
    requires created.Some? ==> forall i :: 0 <= i < |l.debts| ==> l.debts[i].id != created.value
    ensures UniqueDebtIds(SaveDebt(l, editingId, form, acked, created).debts)
  {
    var r := SaveDebt(l, editingId, form, acked, created);
    if form.amount.Some? && !Truthy(editingId) && created.Some? {
      assert forall i :: 1 <= i < |r.debts| ==> r.debts[i] == l.debts[i - 1];
    }
  }

  /** The debt id, as a key. */
  function DebtId(d: Debt): Id { d.id }

  /** Deleting debts keeps debt ids unique. */
  lemma DeleteDebtPreservesUniqueIds(l: Ledger, id: Id, acked: bool)
    requires UniqueDebtIds(l.debts)
    ensures UniqueDebtIds(DeleteDebt(l, id, acked).debts)
  {
    assert DistinctBy(l.debts, DebtId);
    RemoveWherePreservesDistinct(l.debts, DebtHasId(id), DebtId);
    var r := DeleteDebt(l, id, acked);
    assert DistinctBy(r.debts, DebtId);
  }

  /** Deletion keeps the survivors in order: deleting from a concatenation is
      the concatenation of the deletions. */
  lemma DeleteKeepsOrder(a: seq<Transaction>, b: seq<Transaction>, ds: seq<Debt>, id: Id)
    ensures DeleteTransaction(Ledger(a + b, ds), id, true).transactions
         == DeleteTransaction(Ledger(a, ds), id, true).transactions
          + DeleteTransaction(Ledger(b, ds), id, true).transactions
  {
    RemoveWhereAppend(a, b, TxHasId(id));
  }

  /** Debt deletion keeps the survivors in order, as for transactions. */
  lemma DeleteDebtKeepsOrder(ts: seq<Transaction>, a: seq<Debt>, b: seq<Debt>, id: Id)
    ensures DeleteDebt(Ledger(ts, a + b), id, true).debts
         == DeleteDebt(Ledger(ts, a), id, true).debts + DeleteDebt(Ledger(ts, b), id, true).debts
  {
    RemoveWhereAppend(a, b, DebtHasId(id));
  }

  /** Deleting the same debt twice is the same as deleting it once, and two
      deletions may happen in either order. */
  lemma DeleteDebtIdempotentAndCommutes(l: Ledger, x: Id, y: Id)
    ensures DeleteDebt(DeleteDebt(l, x, true), x, true) == DeleteDebt(l, x, true)
    ensures DeleteDebt(DeleteDebt(l, x, true), y, true) == DeleteDebt(DeleteDebt(l, y, true), x, true)
  {
    RemoveWhereIdempotent(l.debts, DebtHasId(x));
    RemoveWhereCommutes(l.debts, DebtHasId(x), DebtHasId(y));
  }

  /** Deleting debts keeps every remaining debt consistent. */
  lemma DeleteDebtPreservesConsistency(l: Ledger, id: Id, acked: bool)
    requires AllConsistent(l.debts)
    ensures AllConsistent(DeleteDebt(l, id, acked).debts)
  {
    var r := DeleteDebt(l, id, acked);
    forall i | 0 <= i < |r.debts|
      ensures Consistent(r.debts[i])
    {
      assert r.debts[i] in l.debts;
    }
  }
}
