/** Properties that relate several calls: removing the whole stock,
    undoing an add, which calls keep quantities positive, and the
    demonstration run of the program's entry point. */
module InventoryProperties {
  import opened StockMap
  import opened InventorySystem
  import opened Ledger

  /** Removing exactly the stored quantity deletes the item, after which
      get_qty reports 0. */
  lemma RemoveWholeStock(inv: Inventory, item: string)
    requires Has(inv, item)
    ensures var r := RemoveItem(inv, item, GetQty(inv, item));
      r.status == Deleted && !Has(r.inv, item) && GetQty(r.inv, item) == 0
  {
  }

  /** Removing what was just added restores the inventory exactly, entry
      order included, unless the item was already stored at or below zero:
      then the remove deletes it. */
  lemma AddThenRemove(inv: Inventory, x: string, q: int, logs: seq<LogEntry>)
    ensures !Has(inv, x) || Get(inv, x) > 0 ==>
      RemoveItem(AddItem(inv, Str(x), Int(q), logs).inv, x, q).inv == inv
    ensures Has(inv, x) && Get(inv, x) <= 0 ==>
      RemoveItem(AddItem(inv, Str(x), Int(q), logs).inv, x, q).inv == Delete(inv, x)
  {
  }

  /** Every stored quantity is above zero. */
  predicate AllPositive(inv: seq<Entry>) {
    forall i :: 0 <= i < |inv| ==> inv[i].qty > 0
  }

  /** remove_item keeps all quantities positive: it prunes whatever it
      takes to zero or below. */
  lemma RemoveKeepsPositive(inv: Inventory, item: string, qty: int)
    requires AllPositive(inv)
    ensures AllPositive(RemoveItem(inv, item, qty).inv)
  {
  }

  /** add_item keeps all quantities positive only when what it adds is
      positive. */
  lemma AddPositiveKeepsPositive(inv: Inventory, item: Value, qty: Value, logs: seq<LogEntry>)
    requires AllPositive(inv)
    requires item.Str? && IsNumber(qty) ==> Amount(qty) > 0
    ensures AllPositive(AddItem(inv, item, qty, logs).inv)
  {
  }

  /** Positivity is not an invariant of the store: add_item stores a sum
      at or below zero as it is, and nothing prunes it until a remove. */
  lemma AddCanStoreNonPositive(inv: Inventory, x: string, qty: Value, logs: seq<LogEntry>)
    requires IsNumber(qty) && Get(inv, x) + Amount(qty) <= 0
    ensures var r := AddItem(inv, Str(x), qty, logs);
      r.status == Stored && Has(r.inv, x) && !AllPositive(r.inv)
  {
  }

  /** Calling add_item with every argument defaulted stores an item named
      "default" with quantity 0 when there is none. */
  lemma AddDefaults(inv: Inventory, logs: seq<LogEntry>)
    requires !Has(inv, "default")
    ensures var r := AddItem(inv, DefaultItem, DefaultQty, logs);
      && Lookup(r.inv, "default") == Some(0)
      && Position(r.inv, "default") == |inv|
      && |r.logs| == |logs| + 1
  {
  }

  /** Adding an item the store does not hold appends it last with the
      added quantity. */
  lemma AddNewAppends(inv: Inventory, x: string, q: int)
    requires !Has(inv, x)
    ensures AddItem(inv, Str(x), Int(q), []).inv == inv + [Entry(x, q)]
  {
  }

  /** Removing less than an item holds updates its entry where it stands. */
  lemma RemoveInPlace(inv: Inventory, k: nat, q: int)
    requires k < |inv| && inv[k].qty - q > 0
    ensures RemoveItem(inv, inv[k].name, q).inv == inv[k := Entry(inv[k].name, inv[k].qty - q)]
  {
    IndexOfDistinct(inv, k, inv[k].name);
  }

  /** The calls the program's entry point makes: add 10 apples, add 2
      bananas, remove 3 apples. */
  const MainOps := [AddOp(Str("apple"), Int(10)), AddOp(Str("banana"), Int(2)), RemoveOp("apple", 3)]

  /** The entry point's first call appends 10 apples. */
  lemma MainStep1(inv: Inventory)
    requires !Has(inv, "apple") && !Has(inv, "banana")
    ensures DistinctNames(inv + [Entry("apple", 10)])
    ensures Apply(inv, MainOps[0]) == inv + [Entry("apple", 10)]
    ensures !Has(inv + [Entry("apple", 10)], "banana")
  {
    AddNewAppends(inv, "apple", 10);
  }

  /** Its second call appends 2 bananas. */
  lemma MainStep2(inv: Inventory)
    requires DistinctNames(inv + [Entry("apple", 10)])
    requires !Has(inv + [Entry("apple", 10)], "banana")
    ensures DistinctNames(inv + [Entry("apple", 10), Entry("banana", 2)])
    ensures Apply(inv + [Entry("apple", 10)], MainOps[1]) == inv + [Entry("apple", 10), Entry("banana", 2)]
  {
    var s1: Inventory := inv + [Entry("apple", 10)];
    AddNewAppends(s1, "banana", 2);
    assert s1 + [Entry("banana", 2)] == inv + [Entry("apple", 10), Entry("banana", 2)];
  }

  /** Its third call takes 3 of the 10 apples, in place. */
  lemma MainStep3(inv: Inventory)
    requires DistinctNames(inv + [Entry("apple", 10), Entry("banana", 2)])
    ensures DistinctNames(inv + [Entry("apple", 7), Entry("banana", 2)])
    ensures Apply(inv + [Entry("apple", 10), Entry("banana", 2)], MainOps[2]) == inv + [Entry("apple", 7), Entry("banana", 2)]
  {
    var s2: Inventory := inv + [Entry("apple", 10), Entry("banana", 2)];
    RemoveInPlace(s2, |inv|, 3);
    assert s2[|inv| := Entry("apple", 7)] == inv + [Entry("apple", 7), Entry("banana", 2)];
  }

  /** The entry point's calls on a store without apples or bananas leave
      its entries followed by 7 apples and 2 bananas. */
  lemma MainRun(inv: Inventory)
    requires !Has(inv, "apple") && !Has(inv, "banana")
    ensures DistinctNames(inv + [Entry("apple", 7), Entry("banana", 2)])
    ensures Run(inv, MainOps) == inv + [Entry("apple", 7), Entry("banana", 2)]
  {
    MainStep1(inv);
    MainStep2(inv);
    MainStep3(inv);
    var s1: Inventory := inv + [Entry("apple", 10)];
    var s2: Inventory := inv + [Entry("apple", 10), Entry("banana", 2)];
    var s3: Inventory := inv + [Entry("apple", 7), Entry("banana", 2)];
    calc {
      Run(inv, MainOps);
      Run(s1, MainOps[1..]);
      Run(s2, MainOps[2..]);
      Run(s3, []);
    }
  }

  /** 7 apples are left at the end of the store. */
  lemma MainQty(inv: Inventory)
    requires DistinctNames(inv + [Entry("apple", 7), Entry("banana", 2)])
    ensures GetQty(inv + [Entry("apple", 7), Entry("banana", 2)], "apple") == 7
  {
    var s: Inventory := inv + [Entry("apple", 7), Entry("banana", 2)];
    IndexOfDistinct(s, |inv|, "apple");
  }

  /** Of the two items the run appends, only bananas are low. */
  lemma MainLow(inv: Inventory)
    requires DistinctNames(inv + [Entry("apple", 7), Entry("banana", 2)])
    ensures CheckLowItems(inv + [Entry("apple", 7), Entry("banana", 2)], DefaultThreshold)
      == CheckLowItems(inv, DefaultThreshold) + ["banana"]
  {
    LowItemsAppend(inv, [Entry("apple", 7), Entry("banana", 2)], DefaultThreshold);
  }

  /** The demonstration run, from any store that holds neither apples nor
      bananas: the two items end up last, apples first, with 7 apples;
      bananas join the items below the default threshold of 5, after the
      store's own. */
  lemma MainScenarioFrom(inv: Inventory)
    requires !Has(inv, "apple") && !Has(inv, "banana")
    ensures var s := Run(inv, MainOps);
      && s == inv + [Entry("apple", 7), Entry("banana", 2)]
      && GetQty(s, "apple") == 7
      && CheckLowItems(s, DefaultThreshold) == CheckLowItems(inv, DefaultThreshold) + ["banana"]
  {
    MainRun(inv);
    MainQty(inv);
    MainLow(inv);
  }

  /** The demonstration run on a missing or empty file, which loads as an
      empty store: 7 apples remain and only bananas are low. */
  lemma MainScenario()
    ensures var s := Run([], MainOps);
      && s == [Entry("apple", 7), Entry("banana", 2)]
      && GetQty(s, "apple") == 7
      && CheckLowItems(s, DefaultThreshold) == ["banana"]
  {
  }
}
