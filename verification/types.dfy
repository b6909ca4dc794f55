/** The records of the finance tracker (types.ts) and the in-memory state the
    client keeps: two lists, newest first. The TypeScript field `type` is
    called `kind` here because `type` is a Dafny keyword. */
module Types {
  import opened Wrappers

  /** Identifiers are opaque strings assigned by the data store. */
  type Id = string

  datatype TransactionType = Income | Expense

  datatype DebtType = OwedToMe | OwedByMe

  datatype Transaction = Transaction(
    id: Id,
    amount: real,
    kind: TransactionType,
    category: string,
    date: string,
    note: string)

  datatype Debt = Debt(
    id: Id,
    person: string,
    amount: real,
    paidAmount: real,
    kind: DebtType,
    note: string,
    isPaid: bool)

  /** The two lists the client holds in memory. */
  datatype Ledger = Ledger(transactions: seq<Transaction>, debts: seq<Debt>)

  /** JavaScript truthiness of an optional id: `null` and `""` are both falsy. */
  predicate Truthy(id: Option<Id>) {
    id.Some? && id.value != ""
  }

  /** The debt invariant: the paid part lies between zero and the total, and the
      debt is marked paid exactly when nothing remains. */
  predicate Consistent(d: Debt) {
    && 0.0 <= d.paidAmount <= d.amount
    && d.isPaid == (d.paidAmount >= d.amount)
  }

  predicate AllConsistent(ds: seq<Debt>) {
    forall i :: 0 <= i < |ds| ==> Consistent(ds[i])
  }

  /** No two debts share an id (the data store assigns fresh ids). */
  predicate UniqueDebtIds(ds: seq<Debt>) {
    forall i, j :: 0 <= i < |ds| && 0 <= j < |ds| && i != j ==> ds[i].id != ds[j].id
  }

  /** No two transactions share an id. */
  predicate UniqueTxIds(ts: seq<Transaction>) {
    forall i, j :: 0 <= i < |ts| && 0 <= j < |ts| && i != j ==> ts[i].id != ts[j].id
  }

  /** The selector `t => t.id === id` used by the list updates. */
  function TxHasId(id: Id): Transaction -> bool {
    (t: Transaction) => t.id == id
  }

  /** The selector `d => d.id === id` used by the list updates. */
  function DebtHasId(id: Id): Debt -> bool {
    (d: Debt) => d.id == id
  }
}
