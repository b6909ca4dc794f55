/** The boundary between the data store's debt rows and the client's debt
    records (App.tsx, `fetchData`): the store spells the settlement fields
    `paid_amount` / `is_paid` and may leave them null; the client spells them
    `paidAmount` / `isPaid` and always has a value. Wire field names are kept
    in the store's own spelling. */
module Wire {
  import opened Wrappers
  import opened Types

  /** A debt row as the store returns it; `None` is a null or missing field. */
  datatype WireDebt = WireDebt(
    id: Id,
    person: string,
    amount: real,
    paid_amount: Option<real>,
    is_paid: Option<bool>,
    kind: DebtType,
    note: string,
    created_at: string)

  /** The partial update the client sends for a debt: new paid amount and flag. */
  datatype DebtPatch = DebtPatch(paid_amount: real, is_paid: bool)

  /** JavaScript `Number(x || 0)` on a numeric field: null and missing become 0,
      and every number (0 included) maps to itself. */
  function PaidOrZero(x: Option<real>): (r: real)
    ensures x.None? ==> r == 0.0
    ensures x.Some? ==> r == x.value
  {
    if x.Some? && x.value != 0.0 then x.value else 0.0
  }

  /** JavaScript `!!x` on a boolean field: null and missing become false. */
  function BoolOrFalse(x: Option<bool>): (r: bool)
    ensures r <==> x == Some(true)
  {
    x.Some? && x.value
  }

  /** Reading a row into a client record. */
  function FromWire(w: WireDebt): (d: Debt)
    ensures d.id == w.id && d.person == w.person && d.amount == w.amount
    ensures d.kind == w.kind && d.note == w.note
    ensures w.paid_amount.None? ==> d.paidAmount == 0.0
    ensures w.paid_amount.Some? ==> d.paidAmount == w.paid_amount.value
    ensures !d.isPaid <==> w.is_paid != Some(true)
  {
    Debt(w.id, w.person, w.amount, PaidOrZero(w.paid_amount), w.kind, w.note, BoolOrFalse(w.is_paid))
  }

  /** The row the store holds for a client record, with both settlement fields
      written out (the client always sends them). */
  function ToWire(d: Debt, createdAt: string): WireDebt {
    WireDebt(d.id, d.person, d.amount, Some(d.paidAmount), Some(d.isPaid), d.kind, d.note, createdAt)
  }

  /** The store's effect of a patch on a row. */
  function ApplyPatch(w: WireDebt, p: DebtPatch): (r: WireDebt)
    ensures FromWire(r).paidAmount == p.paid_amount && FromWire(r).isPaid == p.is_paid
    ensures r.id == w.id && r.amount == w.amount && r.kind == w.kind && r.person == w.person
    ensures r.note == w.note && r.created_at == w.created_at
  {
    w.(paid_amount := Some(p.paid_amount), is_paid := Some(p.is_paid))
  }

  /** Reading back a stored record gives the record itself. */
  lemma FromWireToWire(d: Debt, createdAt: string)
    ensures FromWire(ToWire(d, createdAt)) == d
  {
  }

  /** Reading the whole debt list, element by element in the store's order. */
  function LoadDebts(ws: seq<WireDebt>): (ds: seq<Debt>)
    ensures |ds| == |ws|
    ensures forall i :: 0 <= i < |ws| ==> ds[i] == FromWire(ws[i])
  {
    if |ws| == 0 then [] else [FromWire(ws[0])] + LoadDebts(ws[1..])
  }

  /** Rows with the settlement fields missing load as unpaid, with nothing paid. */
  lemma LoadDefaultsMissingFields(ws: seq<WireDebt>)
    requires forall i :: 0 <= i < |ws| ==> ws[i].paid_amount.None? && ws[i].is_paid.None?
    ensures forall i :: 0 <= i < |ws| ==> LoadDebts(ws)[i].paidAmount == 0.0 && !LoadDebts(ws)[i].isPaid
  {
  }

  /** Storing a list of records and loading it back gives the same list. */
  lemma {:induction false} LoadAfterStore(ds: seq<Debt>, createdAt: string)
    ensures LoadDebts(seq(|ds|, i requires 0 <= i < |ds| => ToWire(ds[i], createdAt))) == ds
  {
    var ws := seq(|ds|, i requires 0 <= i < |ds| => ToWire(ds[i], createdAt));
    forall i | 0 <= i < |ds|
      ensures LoadDebts(ws)[i] == ds[i]
    {
      FromWireToWire(ds[i], createdAt);
    }
  }
}
