# FinanceFlow ledger and debt settlement, in Dafny

FinanceFlow is a personal finance tracker. The client keeps two lists in
memory, newest first: transactions (incomes and expenses) and debts (money
the user owes, or money owed to the user). Debts can be paid off in parts.
This project models the business logic of `App.tsx` as pure functions over
those two lists:

- the dashboard figures: total income, total expenses, balance, and what is
  still to pay and to receive on unpaid debts;
- the settlement of a partial payment against a debt: validation, the clamp
  of the paid amount to the total, the paid flag, and the transaction that
  records the payment;
- saving (create or edit), deleting and loading records, and the reset of
  both lists on sign-out;
- the mapping of the data store's debt rows (`paid_amount`, `is_paid`, which
  may be null) to the client's records (`paidAmount`, `isPaid`).

Amounts are exact `real`s. The result of `parseFloat` is an `Option<real>`,
where `None` stands for NaN. Every data-store call is a parameter. An update
or delete call is a `bool` that says whether it returned. A create call is an
`Option<Id>` that carries the new record's id, or `None` when the call threw.
The lists change only after the call returns, as in the source. The clock is
a parameter `now`. The TypeScript field `type` is called `kind` here, because
`type` is a Dafny keyword.

Files: `wrappers.dfy` (Option), `types.dfy` (records, the debt invariant,
id selectors), `seqs.dfy` (the list idioms: filtered sum, removal,
conditional update, first match), `stats.dfy`, `wire.dfy`, `records.dfy`,
`settlement.dfy`.

## Behaviour kept as the code has it

Some behaviours of `App.tsx` differ from what a reader might expect. The
model keeps each one as the code has it:

- Editing a transaction overwrites its `date` with the save time (App.tsx:210,
  App.tsx:215). An edit might be expected to keep the original date; the
  code replaces it.
- Editing a debt resets `paidAmount` to 0 and `isPaid` to false (App.tsx:237-238,
  App.tsx:243). An edit might be expected to keep the payments already made;
  the code discards them.
- Saving only rejects amounts that parse to NaN (App.tsx:202, App.tsx:229).
  Zero and negative amounts are accepted. A debt saved with a non-positive
  amount breaks the debt invariant: `Records.SavedDebtConsistentIff` proves
  the saved record is consistent exactly when its amount is positive.
  Settling such a debt can then lower its paid amount: a debt of -5 with
  nothing paid, settled with 1, ends with -5 paid and marked paid
  (`Settlement.NegativeDebtExample`).
- Debt ids are assumed unique, as the data store assigns them. Creating with a
  fresh id, editing, deleting and settling all keep them unique
  (`Records.SaveDebtPreservesUniqueIds`, `Records.DeleteDebtPreservesUniqueIds`,
  `Settlement.SettlePreservesUniqueIds`), so the settlement lemmas that assume
  unique ids apply after every step.
- `editingId` and `selectedDebtId` are checked for JavaScript truthiness, so
  an empty id counts as no id (`Types.Truthy`).
- Settlement looks the debt up with `find`, so the first record with the id
  is used. The list update then maps every record with that id, clamping
  each to its own total (App.tsx:261, App.tsx:281). With unique ids, which
  the data store assigns, this is a point update (`Settlement.SettleIsPointUpdate`).
- The payment transaction records the full payment, even when the debt's
  paid amount was clamped (App.tsx:268, App.tsx:273). The excess is dropped
  from the debt but kept in the ledger, which may or may not be intended. The
  model keeps it.
  `Settlement.OverpaymentRecordsMoreThanCredited` measures the gap, and
  `Settlement.SettlementStats` shows that the balance moves by the full
  payment while the outstanding total drops only by the credited part.

## Model

| member | source | states |
|---|---|---|
| Seqs.SumWhere | App.tsx:170-173 | the filtered running sum used for every dashboard total; non-negative when every counted value is |
| Seqs.RemoveWhere | App.tsx:293 | the list filter of a delete: every survivor was in the list and is not dropped, every non-dropped element survives, nothing is dropped when nothing matches |
| Seqs.MapWhere | App.tsx:281 | the list map of an in-place edit: same length, matching elements replaced by the update, all others unchanged at their position |
| Seqs.FindFirst | App.tsx:261 | the `find` of a debt by id: the position of the first match, and `None` exactly when nothing matches |
| Seqs.SumWhereAppend | App.tsx:170-173 | a filtered sum over a concatenation is the sum of the two parts |
| Seqs.SumWhereUpdate | App.tsx:172-173 | replacing one element changes a filtered sum by exactly the difference of the two contributions |
| Seqs.SumWhereIgnoresDropped | App.tsx:172-173 | elements that the filter excludes can be removed without changing the sum |
| Seqs.SumWherePositiveZeroIff | App.tsx:172-173 | with positive values, a filtered sum is zero exactly when nothing passes the filter |
| Seqs.RemoveWhereAppend | App.tsx:293 | removal distributes over concatenation, so survivors keep their relative order |
| Seqs.RemoveWhereIdempotent | App.tsx:303 | removing by the same predicate twice removes nothing more |
| Seqs.RemoveWhereCommutes | App.tsx:303 | two removals may be applied in either order |
| Seqs.RemoveWherePreservesDistinct | App.tsx:303 | removal keeps elements with distinct keys distinct |
| Seqs.MapWhereSingle | App.tsx:215 | when one element matches, the in-place edit is a single point update |
| Seqs.MapWhereIdempotent | App.tsx:215 | an idempotent update that keeps its target selected gives the same list when applied twice |
| Stats.Compute | App.tsx:169-176 | the five dashboard figures, recomputed from the lists; balance is income minus expenses; the outstanding totals are non-negative when every debt is consistent |
| Stats.StatsOfConcatenation | App.tsx:170-171 | income, expenses and balance over two lists concatenated are the sums over the parts |
| Stats.StatsAfterPrepend | App.tsx:170-175 | one more transaction adds its amount to the total of its own type, moves the balance by plus or minus its amount, and leaves the debt totals alone |
| Stats.PaidDebtsContributeNothing | App.tsx:172-173 | dropping every paid debt leaves both outstanding totals unchanged |
| Stats.NothingOwedIff | App.tsx:172-173 | for consistent debts, nothing is left to pay exactly when every debt the user owes is paid, and likewise to receive |
| Stats.IncomeExpenseExample | App.tsx:170-175 | an income of 200 and an expense of 50 give income 200, expenses 50, balance 150 |
| Stats.DebtTotalsExample | App.tsx:172-173 | an unpaid owed debt of 100 with 30 paid and a paid debt of 40 owed to the user give 70 to pay and 0 to receive |
| Wire.PaidOrZero | App.tsx:128 | a null or missing `paid_amount` reads as 0, any number reads as itself |
| Wire.BoolOrFalse | App.tsx:129 | `is_paid` reads as true only when it is stored as true |
| Wire.FromWire | App.tsx:126-130 | a row becomes a record with the same id, person, amount, kind and note; a present paid amount is kept and a missing one becomes 0; the paid flag is true only when stored as true, so a missing one becomes false |
| Wire.ApplyPatch | App.tsx:267-270 | a settlement patch on a stored row reads back as the patched paid amount and flag; id, person, amount, kind, note and creation time are untouched |
| Wire.FromWireToWire | App.tsx:126-130 | a record written with both settlement fields reads back as itself |
| Wire.LoadDebts | App.tsx:126-130 | the loaded list maps every row, in the store's order |
| Wire.LoadDefaultsMissingFields | App.tsx:128-129 | rows missing both settlement fields load with nothing paid and not paid |
| Wire.LoadAfterStore | App.tsx:126-130 | storing a list of debts and loading it gives the same list |
| Records.SaveTransaction | App.tsx:199-224 | NaN amount or failed call: nothing changes; create: exactly one record with the new id and the form fields at the head; edit: every record with the id gets the form fields and the save time, all others stay in place; debts untouched |
| Records.SaveDebt | App.tsx:226-252 | NaN amount or failed call: nothing changes; create: one unpaid record with nothing paid at the head; edit: records with the id get the form fields and are reset to unpaid, all others stay in place; transactions untouched |
| Records.DeleteTransaction | App.tsx:289-297 | failed call: nothing changes; otherwise the survivors are exactly the records without the id; unknown id: nothing changes |
| Records.DeleteDebt | App.tsx:299-307 | failed call: nothing changes; otherwise the survivors are exactly the debts without the id; unknown id: nothing changes |
| Records.Logout | App.tsx:192-197 | both lists become empty |
| Records.Load | App.tsx:116-136 | failed fetch: nothing changes; otherwise transactions as fetched, and each debt is its row read through the wire mapping: id, person, amount, kind and note copied, paid amount kept or 0 when missing, paid flag true only when stored as true |
| Records.LogoutClearsStats | App.tsx:192-197 | after sign-out every dashboard figure is zero |
| Records.CreateTransactionStats | App.tsx:216-218 | creating a transaction moves only the total of its type, by its amount |
| Records.EditTransactionIsPointUpdate | App.tsx:213-215 | with unique ids an edit changes exactly the one record with that id |
| Records.EditTransactionIdempotent | App.tsx:205-215 | the same edit with the same time stamp applied twice equals once |
| Records.SavedDebtConsistentIff | App.tsx:232-246 | a saved debt satisfies the debt invariant exactly when its amount is positive |
| Records.SaveDebtPreservesConsistency | App.tsx:232-246 | saving a positive amount keeps every debt consistent |
| Records.DeleteKeepsOrder | App.tsx:293 | deleting from a concatenation is the concatenation of the deletions |
| Records.DeleteDebtKeepsOrder | App.tsx:303 | deleting debts from a concatenation is the concatenation of the deletions, so the surviving debts keep their order |
| Records.DeleteDebtIdempotentAndCommutes | App.tsx:303 | deleting a debt twice equals once; two deletions commute |
| Records.SaveDebtPreservesUniqueIds | App.tsx:241-246 | saving a debt keeps debt ids unique when a created record gets a fresh id, since an edit never changes an id |
| Records.DeleteDebtPreservesUniqueIds | App.tsx:303 | deleting debts keeps debt ids unique |
| Records.DeleteDebtPreservesConsistency | App.tsx:303 | deleting keeps every remaining debt consistent |
| Settlement.Plan | App.tsx:256-262 | rejected exactly when no debt is selected, the amount is NaN or not positive, or no debt has the id; otherwise the first debt with the id and the payment |
| Settlement.SettledDebt | App.tsx:281 | the map callback on a record with the selected id: only paid amount and flag change; the flag is set exactly when the found debt's old paid amount plus the payment reaches the found debt's total; a paid record gets its own total as paid amount, an unpaid one the found debt's old paid amount plus the payment; for the found debt itself the flag agrees with paid amount reaching the total |
| Settlement.PatchFor | App.tsx:267-270 | the patch sent for the found debt: paid amount is the found debt's old paid amount plus the payment, capped at the found debt's total; paid flag set exactly when the cap is reached; for a debt with 0 <= paid <= total and a non-negative payment the new paid amount lies between the old one and the total |
| Settlement.PaymentTransaction | App.tsx:272-278 | the recorded transaction carries the full payment, is an expense exactly when the user owed the debt, has category "Pagos/Cobros" and note "Abono de: " followed by the person |
| Settlement.Settle | App.tsx:254-287 | any rejection or failed call leaves both lists unchanged; otherwise one payment transaction is prepended, the debt list keeps its length and order, debts with other ids are unchanged, and a matching debt is paid exactly when old paid plus payment reaches the total, with paid amount the total if so and old paid plus payment if not, no other field changing |
| Settlement.SettleIsPointUpdate | App.tsx:281 | with unique ids the settlement updates only the found debt |
| Settlement.SettlementBounds | App.tsx:264-268 | if the found debt had 0 <= paid <= total, afterwards old paid <= new paid <= total and the debt is consistent |
| Settlement.SettlementPreservesConsistency | App.tsx:264-281 | with unique ids, every debt stays consistent and no paid amount decreases |
| Settlement.SettlePreservesUniqueIds | App.tsx:281 | settlement never changes an id, so debt ids stay unique |
| Settlement.NegativeDebtExample | App.tsx:264-281 | a debt of -5 with nothing paid, settled with 1, ends with -5 paid and marked paid, a lower paid amount than before |
| Settlement.Credited | App.tsx:264-268 | the amount taken off the debt lies between 0 and the payment and equals the payment exactly when no clamp happens |
| Settlement.SettlementStats | App.tsx:264-282 | the balance moves by the full payment (down for an owed debt, up otherwise), while the matching outstanding total drops only by the credited amount, or not at all if the debt was already paid |
| Settlement.OverpaymentRecordsMoreThanCredited | App.tsx:268-273 | on overpayment the recorded transaction exceeds the credited amount by exactly the excess over the total |
| Settlement.OverpaymentExample | App.tsx:264-282 | a debt of 100 with 80 paid, settled with 50, ends with 100 paid and marked paid, and an expense of 50 is recorded |
| Settlement.PatchAgreesWithMemory | App.tsx:267-281 | the patch sent to the store for the found debt reads back as the in-memory update |

## Left out

- Network I/O (services/supabaseService.ts): every call is an abstract success or failure parameter.
- The record a create returns: it is taken to be the submitted fields plus the new id (and, for a transaction, the save time as `date`). The source puts whatever the store returns at the head of the list. Any rewriting of the fields by the store (such as the timestamp's format) is not modelled. Neither is the `undefined` entry the source puts at the head after an HTTP error, since the create calls return `result[0]` without checking the response status.
- Sessions, sign-in and cookies (services/supabaseClient.ts, App.tsx:99-114, App.tsx:143-151, App.tsx:178-190): identity-provider I/O. Only the list reset of sign-out is modelled, as `Records.Logout`.
- The display currency kept in local storage (App.tsx:138-141): a presentation preference stored by the host.
- Number formatting, percentages and progress bars (App.tsx:161-167, App.tsx:585-589, App.tsx:639-642): locale-dependent floating-point presentation.
- Rendering, charts, modals, tabs and the `window.confirm` before a delete: interface concerns. The delete operations start after the user confirmed.
- Floating point: amounts are exact reals, so rounding is not modelled, in the sums (which keep the source's left-to-right order) or in settlement. In doubles 0.7 + 0.1 is just below 0.8, so the source leaves a debt of 0.8 with 0.7 paid, settled with 0.1, unpaid with about 1e-16 still counted to pay; the model marks it paid.
- `parseFloat` itself: only its outcome is modelled, as `Option<real>`. An infinite result is not modelled.
- The two settlement calls are not atomic in the source. If the debt update succeeds and the transaction create fails, the store and memory disagree. The model covers memory only, where both calls must succeed before anything changes.
- The store's `date` and `created_at` ordering of loaded lists is taken as given.
- The optional `user_id` and `dueDate` fields, and the extra row fields that the load spread copies onto each debt: the core never reads them.
- types.ts has no behaviour; its types are the datatypes in `types.dfy`.
