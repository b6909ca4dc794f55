/** The dashboard figures (App.tsx, the `stats` memo): income and expense totals
    over the transactions, and the outstanding remainders of unpaid debts. */
module Stats {
  import opened Types
  import opened Seqs

  datatype FinancialStats = FinancialStats(
    totalBalance: real,
    totalIncome: real,
    totalExpenses: real,
    totalDebtToPay: real,
    totalDebtToReceive: real)

  predicate IsIncome(t: Transaction) { t.kind == Income }

  predicate IsExpense(t: Transaction) { t.kind == Expense }

  function TxAmount(t: Transaction): real { t.amount }

  /** An unpaid debt the user owes. */
  predicate OutstandingByMe(d: Debt) { d.kind == OwedByMe && !d.isPaid }

  /** An unpaid debt owed to the user. */
  predicate OutstandingToMe(d: Debt) { d.kind == OwedToMe && !d.isPaid }

  /** What is left to settle on a debt. */
  function Remaining(d: Debt): real { d.amount - d.paidAmount }

  function TotalIncome(ts: seq<Transaction>): real { SumWhere(ts, IsIncome, TxAmount) }

  function TotalExpenses(ts: seq<Transaction>): real { SumWhere(ts, IsExpense, TxAmount) }

  function ToPay(ds: seq<Debt>): real { SumWhere(ds, OutstandingByMe, Remaining) }

  function ToReceive(ds: seq<Debt>): real { SumWhere(ds, OutstandingToMe, Remaining) }

  /** The figures are recomputed from scratch from the two lists. When every
      debt is consistent, both outstanding totals are non-negative. */
  function Compute(ts: seq<Transaction>, ds: seq<Debt>): (s: FinancialStats)
    ensures s.totalBalance == s.totalIncome - s.totalExpenses
    ensures AllConsistent(ds) ==> s.totalDebtToPay >= 0.0 && s.totalDebtToReceive >= 0.0
  {
    var income := TotalIncome(ts);
    var expenses := TotalExpenses(ts);
    FinancialStats(income - expenses, income, expenses, ToPay(ds), ToReceive(ds))
  }

  function StatsOf(l: Ledger): FinancialStats {
    Compute(l.transactions, l.debts)
  }

  /** Totals over two lists concatenated are the sums of the separate totals. */
  lemma StatsOfConcatenation(a: seq<Transaction>, b: seq<Transaction>, ds: seq<Debt>)
    ensures Compute(a + b, ds).totalIncome == Compute(a, ds).totalIncome + Compute(b, ds).totalIncome
    ensures Compute(a + b, ds).totalExpenses == Compute(a, ds).totalExpenses + Compute(b, ds).totalExpenses
    ensures Compute(a + b, ds).totalBalance == Compute(a, ds).totalBalance + Compute(b, ds).totalBalance
  {
    SumWhereAppend(a, b, IsIncome, TxAmount);
    SumWhereAppend(a, b, IsExpense, TxAmount);
  }

  /** Prepending one transaction adds its amount to the total of its own type
      and to no other figure. */
  lemma StatsAfterPrepend(t: Transaction, ts: seq<Transaction>, ds: seq<Debt>)
    ensures Compute([t] + ts, ds).totalIncome
         == Compute(ts, ds).totalIncome + (if t.kind == Income then t.amount else 0.0)
    ensures Compute([t] + ts, ds).totalExpenses
         == Compute(ts, ds).totalExpenses + (if t.kind == Expense then t.amount else 0.0)
    ensures Compute([t] + ts, ds).totalBalance
         == Compute(ts, ds).totalBalance + (if t.kind == Income then t.amount else -t.amount)
    ensures Compute([t] + ts, ds).totalDebtToPay == Compute(ts, ds).totalDebtToPay
    ensures Compute([t] + ts, ds).totalDebtToReceive == Compute(ts, ds).totalDebtToReceive
  {
    StatsOfConcatenation([t], ts, ds);
    SumWhereSingleton(t, IsIncome, TxAmount);
    SumWhereSingleton(t, IsExpense, TxAmount);
  }

  /** Paid debts contribute nothing: dropping them leaves both outstanding
      totals as they were. */
  lemma PaidDebtsContributeNothing(ds: seq<Debt>)
    ensures ToPay(RemoveWhere(ds, (d: Debt) => d.isPaid)) == ToPay(ds)
    ensures ToReceive(RemoveWhere(ds, (d: Debt) => d.isPaid)) == ToReceive(ds)
  {
    var paid := (d: Debt) => d.isPaid;
    SumWhereIgnoresDropped(ds, paid, OutstandingByMe, Remaining);
    SumWhereIgnoresDropped(ds, paid, OutstandingToMe, Remaining);
  }

  /** For consistent debts, nothing is left to pay exactly when every debt the
      user owes is marked paid; likewise for what others owe. */
  lemma NothingOwedIff(ds: seq<Debt>)
    requires AllConsistent(ds)
    ensures ToPay(ds) == 0.0 <==> forall i :: 0 <= i < |ds| && ds[i].kind == OwedByMe ==> ds[i].isPaid
    ensures ToReceive(ds) == 0.0 <==> forall i :: 0 <= i < |ds| && ds[i].kind == OwedToMe ==> ds[i].isPaid
  {
    SumWherePositiveZeroIff(ds, OutstandingByMe, Remaining);
    SumWherePositiveZeroIff(ds, OutstandingToMe, Remaining);
  }

  /** One income of 200 and one expense of 50 give a balance of 150. */
  lemma IncomeExpenseExample(now: string)
    ensures var ts := [Transaction("a", 200.0, Income, "Salario", now, ""),
                       Transaction("b", 50.0, Expense, "Comida", now, "")];
            var s := Compute(ts, []);
            s.totalIncome == 200.0 && s.totalExpenses == 50.0 && s.totalBalance == 150.0
  {
    var ts := [Transaction("a", 200.0, Income, "Salario", now, ""),
               Transaction("b", 50.0, Expense, "Comida", now, "")];
    StatsOfConcatenation([ts[0]], [ts[1]], []);
    assert [ts[0]] + [ts[1]] == ts;
    SumWhereSingleton(ts[0], IsIncome, TxAmount);
    SumWhereSingleton(ts[1], IsIncome, TxAmount);
    SumWhereSingleton(ts[0], IsExpense, TxAmount);
    SumWhereSingleton(ts[1], IsExpense, TxAmount);
  }

  /** An unpaid debt of 100 with 30 paid leaves 70 to pay; a fully paid debt
      owed to the user adds nothing to receive. */
  lemma DebtTotalsExample()
    ensures var ds := [Debt("x", "Ana", 100.0, 30.0, OwedByMe, "", false),
                       Debt("y", "Luis", 40.0, 40.0, OwedToMe, "", true)];
            ToPay(ds) == 70.0 && ToReceive(ds) == 0.0
  {
    var ds := [Debt("x", "Ana", 100.0, 30.0, OwedByMe, "", false),
               Debt("y", "Luis", 40.0, 40.0, OwedToMe, "", true)];
    assert [ds[0]] + [ds[1]] == ds;
    SumWhereAppend([ds[0]], [ds[1]], OutstandingByMe, Remaining);
    SumWhereAppend([ds[0]], [ds[1]], OutstandingToMe, Remaining);
    SumWhereSingleton(ds[0], OutstandingByMe, Remaining);
    SumWhereSingleton(ds[1], OutstandingByMe, Remaining);
    SumWhereSingleton(ds[0], OutstandingToMe, Remaining);
    SumWhereSingleton(ds[1], OutstandingToMe, Remaining);
  }
}
