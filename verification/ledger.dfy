/** Sequences of inventory calls, and a per-item reference ledger that
    says what one item's stock is after them without looking at how the
    dictionary is laid out. */
module Ledger {
  import opened StockMap
  import opened InventorySystem

  /** One mutating call: add_item or remove_item. */
  datatype Op = AddOp(what: Value, amount: Value) | RemoveOp(name: string, count: int)

  function Apply(inv: Inventory, op: Op): Inventory {
    match op
    case AddOp(item, qty) => AddItem(inv, item, qty, []).inv
    case RemoveOp(item, qty) => RemoveItem(inv, item, qty).inv
  }

  /** The calls made one after another, each loading what the previous
      one saved. */
  function Run(inv: Inventory, ops: seq<Op>): Inventory
    decreases |ops|
  {
    if |ops| == 0 then inv else Run(Apply(inv, ops[0]), ops[1..])
  }

  /** One item's stock across one call: None when the item is absent.
      An accepted add for the item adds to the stock (from 0 when absent);
      a remove of a present item subtracts and drops the item at or below
      zero; a remove of an absent item, and every call about another item
      or rejected by the type checks, leaves the stock alone. */
  function Step(v: Option<int>, x: string, op: Op): Option<int> {
    match op
    case AddOp(item, qty) =>
      if item == Str(x) && IsNumber(qty) then Some(v.GetOr(0) + Amount(qty)) else v
    case RemoveOp(item, qty) =>
      if item != x then v
      else match v
        case None => None
        case Some(w) => if w - qty > 0 then Some(w - qty) else None
  }

  function Track(v: Option<int>, x: string, ops: seq<Op>): Option<int>
    decreases |ops|
  {
    if |ops| == 0 then v else Track(Step(v, x, ops[0]), x, ops[1..])
  }

  /** One call changes an item's stock exactly as the ledger step says. */
  lemma ApplyStep(inv: Inventory, op: Op, x: string)
    ensures Lookup(Apply(inv, op), x) == Step(Lookup(inv, x), x, op)
  {
  }

  /** After any sequence of calls, each item's stock is what the ledger
      computes from that item's own calls: adds summed from 0, removes
      subtracted, the item gone (and get_qty 0) once a remove brings it to
      or below zero. */
  lemma {:induction false} RunTracksItem(inv: Inventory, ops: seq<Op>, x: string)
    ensures Lookup(Run(inv, ops), x) == Track(Lookup(inv, x), x, ops)
    decreases |ops|
  {
    if |ops| > 0 {
      ApplyStep(inv, ops[0], x);
      RunTracksItem(Apply(inv, ops[0]), ops[1..], x);
    }
  }

  /** get_qty after a sequence of calls, read off the ledger. */
  lemma RunGetQty(inv: Inventory, ops: seq<Op>, x: string)
    ensures GetQty(Run(inv, ops), x) == Track(Lookup(inv, x), x, ops).GetOr(0)
  {
    RunTracksItem(inv, ops, x);
  }
}
