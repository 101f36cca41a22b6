/**
 * Checkout hold rows and the one aggregate everything else is stated with: how many
 * units of one stock key a table of hold rows keeps back.
 */
module Holds {
  import opened Common

  /** A `branch_stock` row's key. The vendor is left out: a branch belongs to one vendor for ever. */
  datatype StockKey = StockKey(branch: Id, variant: Id)

  datatype PaymentMethod = Online | CashOnDelivery

  /** The identity of a hold row: line number `line` of the reservation that wrote it. */
  datatype HoldId = HoldId(reservation: Id, line: nat)

  datatype HoldItem = HoldItem(key: StockKey, quantity: nat, unitPrice: nat, payment: PaymentMethod)

  type HoldTable = map<HoldId, HoldItem>

  function QuantityOn(item: HoldItem, k: StockKey): nat
  {
    if item.key == k then item.quantity else 0
  }

  ghost function Pick(items: HoldTable): (i: HoldId)
    requires items != map[]
    ensures i in items
  {
    var i :| i in items;
    i
  }

  /** The units of `k` held by the rows of `items`. */
  ghost function Held(items: HoldTable, k: StockKey): nat
    decreases |items|
  {
    if items == map[] then 0 else
      var i := Pick(items);
      QuantityOn(items[i], k) + Held(items - {i}, k)
  }

  lemma {:induction false} HeldRemove(items: HoldTable, i: HoldId, k: StockKey)
    requires i in items
    ensures Held(items, k) == QuantityOn(items[i], k) + Held(items - {i}, k)
    decreases |items|
  {
    var j := Pick(items);
    if i != j {
      HeldRemove(items - {j}, i, k);
      HeldRemove(items - {i}, j, k);
      assert (items - {j}) - {i} == (items - {i}) - {j};
    }
  }

  lemma HeldInsert(items: HoldTable, i: HoldId, item: HoldItem, k: StockKey)
    requires i !in items
    ensures Held(items[i := item], k) == Held(items, k) + QuantityOn(item, k)
  {
    HeldRemove(items[i := item], i, k);
    assert items[i := item] - {i} == items;
  }

  lemma UnionInsert(a: HoldTable, b: HoldTable, i: HoldId)
    requires a.Keys !! b.Keys && i in b
    ensures i !in a + (b - {i})
    ensures a + b == (a + (b - {i}))[i := b[i]]
  {
  }

  lemma {:induction false} HeldUnion(a: HoldTable, b: HoldTable, k: StockKey)
    requires a.Keys !! b.Keys
    ensures Held(a + b, k) == Held(a, k) + Held(b, k)
    decreases |b|
  {
    if b == map[] {
      assert a + b == a;
    } else {
      var i := Pick(b);
      HeldUnion(a, b - {i}, k);
      UnionInsert(a, b, i);
      HeldInsert(a + (b - {i}), i, b[i], k);
    }
  }

  /** Taking rows out of a table lowers the held quantity by exactly what those rows held. */
  lemma HeldSplit(items: HoldTable, ids: set<HoldId>, k: StockKey)
    ensures Held(items, k) == Held(Restrict(items, ids), k) + Held(items - ids, k)
  {
    RestrictAndRest(items, ids);
    HeldUnion(Restrict(items, ids), items - ids, k);
  }

  function KeysIn(items: HoldTable): set<StockKey>
  {
    set i | i in items :: items[i].key
  }

  function OnKey(items: HoldTable, k: StockKey): HoldTable
  {
    map i | i in items && items[i].key == k :: items[i]
  }

  lemma {:induction false} HeldNone(items: HoldTable, k: StockKey)
    requires forall i | i in items :: items[i].key != k
    ensures Held(items, k) == 0
    decreases |items|
  {
    if items != map[] {
      HeldNone(items - {Pick(items)}, k);
    }
  }

  /** Only the rows on `k` matter for what is held on `k`. */
  lemma HeldDependsOnKeyOnly(items: HoldTable, other: HoldTable, k: StockKey)
    requires OnKey(items, k) == OnKey(other, k)
    ensures Held(items, k) == Held(other, k)
  {
    HeldOnKey(items, k);
    HeldOnKey(other, k);
  }

  lemma HeldOnKey(items: HoldTable, k: StockKey)
    ensures Held(items, k) == Held(OnKey(items, k), k)
  {
    var on := OnKey(items, k);
    HeldSplit(items, on.Keys, k);
    assert Restrict(items, on.Keys) == on;
    HeldNone(items - on.Keys, k);
  }

  lemma HeldMonotone(small: HoldTable, large: HoldTable, k: StockKey)
    requires forall i | i in small :: i in large && large[i] == small[i]
    ensures Held(small, k) <= Held(large, k)
  {
    HeldSplit(large, small.Keys, k);
    assert Restrict(large, small.Keys) == small;
  }

  // ---- the rows one reserve call writes

  /** The rows for `lines`, in order, under reservation `rid`. */
  function NewRows(rid: Id, lines: seq<HoldItem>): HoldTable
  {
    map n: nat | n < |lines| :: HoldId(rid, n) := lines[n]
  }

  /** Units of `k` that `lines` ask for. */
  function Demand(lines: seq<HoldItem>, k: StockKey): nat
  {
    if lines == [] then 0
    else Demand(lines[..|lines| - 1], k) + QuantityOn(lines[|lines| - 1], k)
  }

  lemma NewRowsSnoc(rid: Id, lines: seq<HoldItem>)
    requires lines != []
    ensures var n := |lines| - 1;
            HoldId(rid, n) !in NewRows(rid, lines[..n])
            && NewRows(rid, lines) == NewRows(rid, lines[..n])[HoldId(rid, n) := lines[n]]
  {
    var n := |lines| - 1;
    var before := NewRows(rid, lines[..n]);
    var all := NewRows(rid, lines);
    forall i | i in all ensures i in before[HoldId(rid, n) := lines[n]] {
      if i.line != n { assert i == HoldId(rid, i.line); assert i.line < |lines[..n]|; }
    }
    forall i | i in before[HoldId(rid, n) := lines[n]]
      ensures i in all && all[i] == before[HoldId(rid, n) := lines[n]][i]
    {
      assert i == HoldId(rid, i.line) && i.line < |lines|;
    }
  }

  lemma {:induction false} NewRowsHold(rid: Id, lines: seq<HoldItem>, k: StockKey)
    ensures Held(NewRows(rid, lines), k) == Demand(lines, k)
  {
    if lines == [] {
      assert NewRows(rid, lines) == map[];
    } else {
      var n := |lines| - 1;
      NewRowsHold(rid, lines[..n], k);
      NewRowsSnoc(rid, lines);
      HeldInsert(NewRows(rid, lines[..n]), HoldId(rid, n), lines[n], k);
    }
  }

  lemma {:induction false} DemandMonotone(lines: seq<HoldItem>, n: nat, k: StockKey)
    requires n <= |lines|
    ensures Demand(lines[..n], k) <= Demand(lines, k)
  {
    if n < |lines| {
      var m := |lines| - 1;
      DemandMonotone(lines[..m], n, k);
      assert lines[..m][..n] == lines[..n];
    } else {
      assert lines[..n] == lines;
    }
  }

  lemma {:induction false} NoDemandElsewhere(lines: seq<HoldItem>, k: StockKey)
    requires forall n | 0 <= n < |lines| :: lines[n].key != k
    ensures Demand(lines, k) == 0
  {
    if lines != [] { NoDemandElsewhere(lines[..|lines| - 1], k); }
  }
}
