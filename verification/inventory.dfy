/** The inventory operations with file loading and saving stripped off:
    each public operation of the inventory store becomes a pure function
    from the dictionary it would have loaded to the dictionary it would
    have saved (and, for the queries, the value it returns). */
module InventorySystem {
  import opened StockMap

  /** An argument of dynamic type, as add_item receives it. Python's `bool`
      is a subclass of `int`, so it passes the numeric check with value
      0 or 1. Floating-point quantities are not represented. */
  datatype Value = Str(s: string) | Int(i: int) | Bool(b: bool) | Other

  /** `isinstance(v, (int, float))` */
  predicate IsNumber(v: Value) {
    v.Int? || v.Bool?
  }

  /** The integer a numeric argument stands for. */
  function Amount(v: Value): int
    requires IsNumber(v)
  {
    match v
    case Int(n) => n
    case Bool(b) => if b then 1 else 0
  }

  /** The default arguments of add_item and check_low_items. */
  const DefaultItem: Value := Str("default")
  const DefaultQty: Value := Int(0)
  const DefaultThreshold := 5

  /** One line of the caller's log; the timestamp is not modelled. */
  datatype LogEntry = Added(item: string, qty: Value)

  /** How add_item ended: stored, or which type check rejected it. */
  datatype AddStatus = Stored | ItemNotString | QtyNotNumber

  datatype AddResult = AddResult(inv: Inventory, logs: seq<LogEntry>, status: AddStatus)

  /** add_item: reject a non-string item, then a non-numeric quantity;
      otherwise add the quantity to the stored one (0 when absent) and
      append one log line. */
  function AddItem(inv: Inventory, item: Value, qty: Value, logs: seq<LogEntry>): (r: AddResult)
    ensures r.status == Stored <==> item.Str? && IsNumber(qty)
    ensures !item.Str? ==> r.status == ItemNotString
    ensures item.Str? && !IsNumber(qty) ==> r.status == QtyNotNumber
    ensures r.status != Stored ==> r.inv == inv && r.logs == logs
    ensures r.status == Stored ==>
      && Lookup(r.inv, item.s) == Some(Get(inv, item.s) + Amount(qty))
      && r.logs == logs + [Added(item.s, qty)]
    ensures r.status == Stored ==> forall m :: m != item.s ==> Lookup(r.inv, m) == Lookup(inv, m)
    ensures r.status == Stored ==> forall m :: Has(inv, m) ==> Has(r.inv, m) && Position(r.inv, m) == Position(inv, m)
    ensures r.status == Stored && !Has(inv, item.s) ==> |r.inv| == |inv| + 1 && Position(r.inv, item.s) == |inv|
    ensures r.status == Stored && Has(inv, item.s) ==> |r.inv| == |inv|
  {
    if !item.Str? then AddResult(inv, logs, ItemNotString)
    else if !IsNumber(qty) then AddResult(inv, logs, QtyNotNumber)
    else
      var name := item.s;
      AddResult(Put(inv, name, Get(inv, name) + Amount(qty)), logs + [Added(name, qty)], Stored)
  }

  /** How remove_item ended: the quantity went down, the entry was
      deleted, or the item was not found. */
  datatype RemoveStatus = Decremented | Deleted | NotFound

  datatype RemoveResult = RemoveResult(inv: Inventory, status: RemoveStatus)

  /** remove_item: subtract from a present item and delete it when the
      result is at or below zero; an absent item is reported and the
      dictionary is left as it was. */
  function RemoveItem(inv: Inventory, item: string, qty: int): (r: RemoveResult)
    ensures r.status == NotFound <==> !Has(inv, item)
    ensures !Has(inv, item) ==> r.inv == inv
    ensures Has(inv, item) && Get(inv, item) - qty > 0 ==>
      && r.status == Decremented
      && Lookup(r.inv, item) == Some(Get(inv, item) - qty)
      && |r.inv| == |inv|
      && Position(r.inv, item) == Position(inv, item)
    ensures Has(inv, item) && Get(inv, item) - qty <= 0 ==>
      r.status == Deleted && !Has(r.inv, item) && |r.inv| == |inv| - 1
    ensures forall m :: m != item ==> Lookup(r.inv, m) == Lookup(inv, m)
    ensures forall m, n :: m != item && n != item && Has(inv, m) && Has(inv, n) ==>
      Has(r.inv, m) && Has(r.inv, n) &&
      (Position(r.inv, m) < Position(r.inv, n) <==> Position(inv, m) < Position(inv, n))
  {
    if !Has(inv, item) then RemoveResult(inv, NotFound)
    else
      var left := Get(inv, item) - qty;
      if left <= 0 then RemoveResult(Delete(inv, item), Deleted)
      else RemoveResult(Put(inv, item, left), Decremented)
  }

  /** get_qty: the stored quantity, or 0 for an absent item. */
  function GetQty(inv: Inventory, item: string): (r: int)
    ensures forall i :: 0 <= i < |inv| && inv[i].name == item ==> r == inv[i].qty
    ensures (forall i :: 0 <= i < |inv| ==> inv[i].name != item) ==> r == 0
  {
    Get(inv, item)
  }

  /** check_low_items: the names whose quantity is strictly below the
      threshold, each once, in the dictionary's iteration order. */
  function CheckLowItems(inv: Inventory, threshold: int): (r: seq<string>)
    ensures forall x :: x in r <==> Has(inv, x) && Get(inv, x) < threshold
    ensures forall p, q :: 0 <= p < q < |r| ==> r[p] != r[q]
    ensures forall p, q :: 0 <= p < q < |r| ==>
      Has(inv, r[p]) && Has(inv, r[q]) && Position(inv, r[p]) < Position(inv, r[q])
  {
    if |inv| == 0 then []
    else
      var rest := CheckLowItems(inv[1..], threshold);
      LookupTail(inv);
      if inv[0].qty < threshold then [inv[0].name] + rest else rest
  }

  /** check_low_items over a dictionary whose entries are those of `a`
      followed by those of `b`: the low names of `a`, then those of `b`. */
  lemma {:induction false} LowItemsAppend(a: Inventory, b: Inventory, threshold: int)
    requires DistinctNames(a + b)
    ensures CheckLowItems(a + b, threshold) == CheckLowItems(a, threshold) + CheckLowItems(b, threshold)
  {
    if |a| > 0 {
      var ab: Inventory := a + b;
      assert ab[1..] == a[1..] + b;
      LowItemsAppend(a[1..], b, threshold);
    } else {
      assert a + b == b;
    }
  }

  /** Looking past the first entry: every other name is found one place
      later in the whole dictionary than in its tail. */
  lemma LookupTail(inv: Inventory)
    requires |inv| > 0
    ensures !Has(inv[1..], inv[0].name)
    ensures Has(inv, inv[0].name) && Position(inv, inv[0].name) == 0
    ensures forall x :: x != inv[0].name ==>
      Lookup(inv, x) == Lookup(inv[1..], x) && Has(inv, x) == Has(inv[1..], x)
    ensures forall x :: x != inv[0].name && Has(inv, x) ==> Position(inv, x) == Position(inv[1..], x) + 1
  {
  }
}
