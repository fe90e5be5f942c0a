/** The insertion-ordered dictionary underneath the inventory.

    A Python dict from item name to quantity is modelled as a sequence of
    (name, quantity) entries whose names are pairwise distinct, in insertion
    order. The three dictionary operations the inventory uses are defined
    here: lookup with a default (`d.get(k, 0)`), assignment (`d[k] = v`,
    which keeps an existing key where it is and appends a new one) and
    deletion (`del d[k]`). */
module StockMap {

  datatype Option<T> = None | Some(value: T) {
    function GetOr(default: T): T {
      if Some? then value else default
    }
  }

  /** One key/value pair of the dictionary. */
  datatype Entry = Entry(name: string, qty: int)

  /** The dictionary invariant: no name occurs twice. */
  predicate DistinctNames(s: seq<Entry>) {
    forall i, j :: 0 <= i < j < |s| ==> s[i].name != s[j].name
  }

  type Inventory = s: seq<Entry> | DistinctNames(s) witness []

  /** The index of the first entry called `name`, if any. */
  function IndexOf(s: seq<Entry>, name: string): (r: Option<nat>)
    ensures r.Some? ==> r.value < |s| && s[r.value].name == name
    ensures r.Some? ==> forall j :: 0 <= j < r.value ==> s[j].name != name
    ensures r.None? <==> forall i :: 0 <= i < |s| ==> s[i].name != name
  {
    if |s| == 0 then None
    else if s[0].name == name then Some(0)
    else match IndexOf(s[1..], name)
      case None => None
      case Some(k) => Some(k + 1)
  }

  /** In a dictionary, the entry carrying a name is the one lookup finds. */
  lemma IndexOfDistinct(inv: Inventory, i: nat, name: string)
    requires i < |inv| && inv[i].name == name
    ensures IndexOf(inv, name) == Some(i)
  {
  }

  /** `name in d` */
  predicate Has(inv: seq<Entry>, name: string) {
    IndexOf(inv, name).Some?
  }

  /** The stored quantity, if the name is a key. */
  function Lookup(inv: seq<Entry>, name: string): Option<int> {
    match IndexOf(inv, name)
    case Some(k) => Some(inv[k].qty)
    case None => None
  }

  /** `d.get(name, 0)` */
  function Get(inv: seq<Entry>, name: string): int {
    Lookup(inv, name).GetOr(0)
  }

  /** Where a key sits in the dictionary's iteration order. */
  function Position(inv: seq<Entry>, name: string): (p: nat)
    requires Has(inv, name)
    ensures p < |inv| && inv[p].name == name
  {
    IndexOf(inv, name).value
  }

  /** `d[name] = q`: the key gets the new value; every other key keeps its
      value and its place; an existing key keeps its place and a new key
      goes last. */
  function Put(inv: Inventory, name: string, q: int): (r: Inventory)
    ensures Lookup(r, name) == Some(q)
    ensures forall m :: m != name ==> Lookup(r, m) == Lookup(inv, m)
    ensures forall m :: Has(inv, m) ==> Has(r, m) && Position(r, m) == Position(inv, m)
    ensures Has(inv, name) ==> |r| == |inv|
    ensures !Has(inv, name) ==> |r| == |inv| + 1 && Position(r, name) == |inv|
  {
    match IndexOf(inv, name)
    case Some(k) =>
      ReplaceFacts(inv, k, q);
      inv[k := Entry(name, q)]
    case None =>
      AppendFacts(inv, name, q);
      inv + [Entry(name, q)]
  }

  lemma ReplaceFacts(inv: Inventory, k: nat, q: int)
    requires k < |inv|
    ensures DistinctNames(inv[k := Entry(inv[k].name, q)])
    ensures var r := inv[k := Entry(inv[k].name, q)];
      && Lookup(r, inv[k].name) == Some(q)
      && (forall m :: m != inv[k].name ==> Lookup(r, m) == Lookup(inv, m))
      && (forall m :: Has(inv, m) ==> Has(r, m) && Position(r, m) == Position(inv, m))
  {
    var name := inv[k].name;
    var r: Inventory := inv[k := Entry(name, q)];
    IndexOfDistinct(r, k, name);
    forall m | Has(inv, m)
      ensures Has(r, m) && Position(r, m) == Position(inv, m)
    {
      IndexOfDistinct(r, Position(inv, m), m);
    }
    forall m | m != name
      ensures Lookup(r, m) == Lookup(inv, m)
    {
      if Has(inv, m) {
        IndexOfDistinct(r, Position(inv, m), m);
      }
    }
  }

  lemma AppendFacts(inv: Inventory, name: string, q: int)
    requires !Has(inv, name)
    ensures DistinctNames(inv + [Entry(name, q)])
    ensures var r := inv + [Entry(name, q)];
      && Lookup(r, name) == Some(q) && Position(r, name) == |inv|
      && (forall m :: m != name ==> Lookup(r, m) == Lookup(inv, m))
      && (forall m :: Has(inv, m) ==> Has(r, m) && Position(r, m) == Position(inv, m))
  {
    var r: Inventory := inv + [Entry(name, q)];
    IndexOfDistinct(r, |inv|, name);
    forall m | Has(inv, m)
      ensures Has(r, m) && Position(r, m) == Position(inv, m)
    {
      IndexOfDistinct(r, Position(inv, m), m);
    }
    forall m | m != name
      ensures Lookup(r, m) == Lookup(inv, m)
    {
      if Has(inv, m) {
        IndexOfDistinct(r, Position(inv, m), m);
      }
    }
  }

  /** `del d[name]`: the key disappears, every other key keeps its value,
      the keys before it keep their place and the keys after it move up by
      one, so the relative order of the rest is unchanged. */
  function Delete(inv: Inventory, name: string): (r: Inventory)
    requires Has(inv, name)
    ensures !Has(r, name)
    ensures |r| == |inv| - 1
    ensures forall m :: m != name ==> Lookup(r, m) == Lookup(inv, m)
    ensures forall m :: m != name && Has(inv, m) ==>
      Has(r, m) && Position(r, m) ==
        if Position(inv, m) < Position(inv, name) then Position(inv, m) else Position(inv, m) - 1
  {
    var k := Position(inv, name);
    DeleteFacts(inv, k);
    inv[..k] + inv[k + 1..]
  }

  lemma DeleteFacts(inv: Inventory, k: nat)
    requires k < |inv|
    ensures DistinctNames(inv[..k] + inv[k + 1..])
    ensures var r := inv[..k] + inv[k + 1..];
      && !Has(r, inv[k].name)
      && (forall m :: m != inv[k].name ==> Lookup(r, m) == Lookup(inv, m))
      && (forall m :: m != inv[k].name && Has(inv, m) ==>
            Has(r, m) && Position(r, m) == if Position(inv, m) < k then Position(inv, m) else Position(inv, m) - 1)
  {
    var name := inv[k].name;
    var r := inv[..k] + inv[k + 1..];
    assert forall i :: 0 <= i < |r| ==> r[i] == if i < k then inv[i] else inv[i + 1];
    assert DistinctNames(r);
    var r': Inventory := r;
    forall m | m != name && Has(inv, m)
      ensures Has(r, m) && Position(r, m) == if Position(inv, m) < k then Position(inv, m) else Position(inv, m) - 1
    {
      var p := Position(inv, m);
      IndexOfDistinct(r', if p < k then p else p - 1, m);
    }
    forall m | m != name
      ensures Lookup(r, m) == Lookup(inv, m)
    {
      if Has(inv, m) {
        var p := Position(inv, m);
        IndexOfDistinct(r', if p < k then p else p - 1, m);
      }
    }
  }
}
