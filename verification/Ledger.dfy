/**
 * The checkout hold protocol as a state machine over committed database states: reserve,
 * cancel, the two transactions of confirm, stock movements, exchange holds, the stock that
 * order cancellations put back, and the clock.
 * `Step` is what each transaction does as a whole; the theorems are about every run of it.
 */
module Ledger {
  import opened Common
  import opened Holds

  /** One `branch_stock` row. */
  datatype Stock = Stock(quantity: int, reserved: int)

  datatype Reservation = Reservation(customer: Id, expiresAt: int)

  /** What one successful confirm turned into branch orders: the rows it bought. */
  datatype Order = Order(reservation: Id, customer: Id, lines: HoldTable)

  datatype Movement = Movement(key: StockKey, delta: int)

  /**
   * `exchange` is the reserved share kept by approved exchanges, which are not hold rows.
   * `accepted` is a history variable: the rows every successful reserve wrote. No operation
   * reads it, except that a new reservation id is one never used before. `restored` are the sold
   * rows whose order items have been cancelled since.
   */
  datatype Db = Db(
    now: int,
    stock: map<StockKey, Stock>,
    reservations: map<Id, Reservation>,
    items: HoldTable,
    exchange: map<StockKey, nat>,
    accepted: map<Id, HoldTable>,
    orders: seq<Order>,
    movements: seq<Movement>,
    restored: HoldTable)

  // ---- reading a state

  /** The sweep's comparison, `expiresAt < now`. */
  predicate Expired(db: Db, rid: Id)
  {
    rid in db.reservations && db.reservations[rid].expiresAt < db.now
  }

  function RowsOf(items: HoldTable, rid: Id): HoldTable
  {
    map i | i in items && i.reservation == rid :: items[i]
  }

  /** The rows a sweep of `keys` removes. */
  function ExpiredOn(db: Db, keys: set<StockKey>): set<HoldId>
  {
    set i | i in db.items && db.items[i].key in keys && Expired(db, i.reservation)
  }

  /** The rows of holds that have not expired. */
  function Live(db: Db): HoldTable
  {
    map i | i in db.items && !Expired(db, i.reservation) :: db.items[i]
  }

  function ExchangeHeld(db: Db, k: StockKey): nat
  {
    if k in db.exchange then db.exchange[k] else 0
  }

  function Quantity(db: Db, k: StockKey): int
  {
    if k in db.stock then db.stock[k].quantity else 0
  }

  /** What is free for a new hold if expired holds did not exist at all. */
  ghost function Available(db: Db, k: StockKey): int
  {
    Quantity(db, k) - Held(Live(db), k) - ExchangeHeld(db, k)
  }

  function KeysOf(lines: seq<HoldItem>): set<StockKey>
  {
    set n | 0 <= n < |lines| :: lines[n].key
  }

  ghost function Sold(orders: seq<Order>, k: StockKey): nat
  {
    if orders == [] then 0
    else Sold(orders[..|orders| - 1], k) + Held(orders[|orders| - 1].lines, k)
  }

  function Supplied(movements: seq<Movement>, k: StockKey): int
  {
    if movements == [] then 0
    else
      var m := movements[|movements| - 1];
      Supplied(movements[..|movements| - 1], k) + if m.key == k then m.delta else 0
  }

  // ---- the writes transactions are made of

  /** Delete the rows `ids` and lower each stock counter by what they held. */
  ghost function Release(db: Db, ids: set<HoldId>): Db
  {
    var gone := Restrict(db.items, ids);
    db.(items := db.items - ids,
        stock := map k | k in db.stock :: db.stock[k].(reserved := db.stock[k].reserved - Held(gone, k)))
  }

  /** Delete a reservation; its rows cascade away with it. */
  function Drop(db: Db, rid: Id): Db
  {
    db.(reservations := db.reservations - {rid}, items := db.items - RowsOf(db.items, rid).Keys)
  }

  /** Delete a reservation after releasing all its rows: what cancel and expiry do. */
  ghost function GiveBack(db: Db, rid: Id): Db
  {
    Drop(Release(db, RowsOf(db.items, rid).Keys), rid)
  }

  /** Write a reservation and its rows, raising the counters. */
  function Hold(db: Db, rid: Id, customer: Id, expiresAt: int, lines: seq<HoldItem>): Db
  {
    var rows := NewRows(rid, lines);
    db.(reservations := db.reservations[rid := Reservation(customer, expiresAt)],
        items := db.items + rows,
        stock := map k | k in db.stock :: db.stock[k].(reserved := db.stock[k].reserved + Demand(lines, k)),
        accepted := db.accepted[rid := rows])
  }

  /** Turn a reservation into an order: stock and counter both go down by every row. */
  ghost function Sell(db: Db, rid: Id): Db
    requires rid in db.reservations
  {
    var rows := RowsOf(db.items, rid);
    var sold := db.(
      stock := map k | k in db.stock ::
                 Stock(db.stock[k].quantity - Held(rows, k), db.stock[k].reserved - Held(rows, k)),
      orders := db.orders + [Order(rid, db.reservations[rid].customer, rows)]);
    Drop(sold, rid)
  }

  /** Create the row if there is none, add `delta` to it, and record the movement. */
  function Adjust(db: Db, k: StockKey, delta: int): Db
  {
    var row := if k in db.stock then db.stock[k] else Stock(0, 0);
    db.(stock := db.stock[k := row.(quantity := row.quantity + delta)],
        movements := db.movements + [Movement(k, delta)])
  }

  /** Put cancelled rows back on the shelf, creating a stock row where there is none. No movement is recorded. */
  ghost function PutBack(db: Db, rows: HoldTable): Db
  {
    db.(stock := map k | k in db.stock.Keys + KeysIn(rows) ::
                   if k in db.stock then db.stock[k].(quantity := db.stock[k].quantity + Held(rows, k))
                   else Stock(Held(rows, k), 0),
        restored := db.restored + rows)
  }

  /** Make approved exchanges hold exactly `held` units of `k`; the counter follows. */
  function SetExchange(db: Db, k: StockKey, held: nat): Db
    requires k in db.stock
  {
    db.(stock := db.stock[k := db.stock[k].(reserved := db.stock[k].reserved + held - ExchangeHeld(db, k))],
        exchange := db.exchange[k := held])
  }

  function Later(db: Db, elapsed: nat): Db
  {
    db.(now := db.now + elapsed)
  }

  // ---- the transactions

  datatype Op =
    | Reserve(rid: Id, customer: Id, expiresAt: int, lines: seq<HoldItem>)
    | Cancel(rid: Id, customer: Id)
    | ExpiryCheck(rid: Id, customer: Id)
    | Finalize(rid: Id, customer: Id, revalidated: bool)
    | Move(key: StockKey, delta: int)
    | ExchangeHold(key: StockKey, units: nat)
    | ExchangeRelease(key: StockKey, units: nat)
    | HandOver(key: StockKey, units: nat)
    | CancelItems(order: nat, ids: set<HoldId>)
    | Tick(elapsed: nat)

  /**
   * Row ids are never reused, an exchange gives back no more than it took, and an order item is
   * cancelled at most once.
   */
  predicate Enabled(db: Db, op: Op)
  {
    match op
    case Reserve(rid, _, _, _) => rid !in db.accepted
    case ExchangeRelease(k, units) => k in db.stock && units <= ExchangeHeld(db, k)
    case HandOver(k, units) => k in db.stock && units <= ExchangeHeld(db, k)
    case CancelItems(n, ids) => ActiveItems(db, n, ids)
    case _ => true
  }

  /** Items of one order, none of them cancelled yet. */
  predicate ActiveItems(db: Db, n: nat, ids: set<HoldId>)
  {
    n < |db.orders| && ids <= db.orders[n].lines.Keys && ids !! db.restored.Keys
  }

  /** Every line fits the counters after the lines before it have been added to them. */
  predicate Fits(db: Db, lines: seq<HoldItem>)
  {
    forall n | 0 <= n < |lines| ::
      lines[n].key in db.stock
      && lines[n].quantity <= db.stock[lines[n].key].quantity - db.stock[lines[n].key].reserved
                              - Demand(lines[..n], lines[n].key)
  }

  predicate Owned(db: Db, rid: Id, customer: Id)
  {
    rid in db.reservations && db.reservations[rid].customer == customer
  }

  ghost function ReserveStep(db: Db, rid: Id, customer: Id, expiresAt: int, lines: seq<HoldItem>): (Db, bool)
  {
    var swept := Release(db, ExpiredOn(db, KeysOf(lines)));
    if Fits(swept, lines) then (Hold(swept, rid, customer, expiresAt, lines), true) else (db, false)
  }

  ghost function CancelStep(db: Db, rid: Id, customer: Id): (Db, bool)
  {
    if Owned(db, rid, customer) then (GiveBack(db, rid), true)
    else (db, false)
  }

  /** Confirm's first transaction: an expired hold is released and committed before the error. */
  ghost function ExpiryCheckStep(db: Db, rid: Id, customer: Id): (Db, bool)
  {
    if !Owned(db, rid, customer) then (db, false)
    else if Expired(db, rid) then (GiveBack(db, rid), false)
    else (db, true)
  }

  /**
   * Confirm's second transaction. `revalidated` stands for eligibility, unchanged prices and a
   * successful charge. Every refusal throws, so it leaves the state alone, including the one
   * that releases an expired hold first.
   */
  ghost function FinalizeStep(db: Db, rid: Id, customer: Id, revalidated: bool): (Db, bool)
  {
    if !Owned(db, rid, customer) || Expired(db, rid) || RowsOf(db.items, rid) == map[] || !revalidated
    then (db, false)
    else if !CanSell(db, rid) then (db, false)
    else (Sell(db, rid), true)
  }

  /** The conditional decrement's guard, for all rows together. */
  ghost predicate CanSell(db: Db, rid: Id)
  {
    var rows := RowsOf(db.items, rid);
    forall i | i in rows :: rows[i].key in db.stock
      && Held(rows, rows[i].key) <= db.stock[rows[i].key].quantity
      && Held(rows, rows[i].key) <= db.stock[rows[i].key].reserved
  }

  ghost function MoveStep(db: Db, k: StockKey, delta: int): (Db, bool)
  {
    var after := Adjust(Release(db, ExpiredOn(db, {k})), k, delta);
    if delta > 0 || after.stock[k].quantity - after.stock[k].reserved >= 0 then (after, true) else (db, false)
  }

  ghost function ExchangeHoldStep(db: Db, k: StockKey, units: nat): (Db, bool)
  {
    var swept := Release(db, ExpiredOn(db, {k}));
    if k in db.stock && units <= swept.stock[k].quantity - swept.stock[k].reserved
    then (SetExchange(swept, k, ExchangeHeld(db, k) + units), true)
    else (db, false)
  }

  ghost function ExchangeReleaseStep(db: Db, k: StockKey, units: nat): (Db, bool)
    requires k in db.stock && units <= ExchangeHeld(db, k)
  {
    (SetExchange(Release(db, ExpiredOn(db, {k})), k, ExchangeHeld(db, k) - units), true)
  }

  /** The exchange's replacement leaves the branch: its hold and its stock go down together. */
  ghost function HandOverStep(db: Db, k: StockKey, units: nat): (Db, bool)
    requires k in db.stock && units <= ExchangeHeld(db, k)
  {
    (Adjust(ExchangeReleaseStep(db, k, units).0, k, -(units as int)), true)
  }

  /** An order cancellation restocks its items in one batch, which sweeps their rows first. */
  ghost function CancelItemsStep(db: Db, n: nat, ids: set<HoldId>): (Db, bool)
    requires ActiveItems(db, n, ids)
  {
    var rows := Restrict(db.orders[n].lines, ids);
    (PutBack(Release(db, ExpiredOn(db, KeysIn(rows))), rows), true)
  }

  ghost function Step(db: Db, op: Op): (r: (Db, bool))
    requires Enabled(db, op)
  {
    match op
    case Reserve(rid, customer, expiresAt, lines) => ReserveStep(db, rid, customer, expiresAt, lines)
    case Cancel(rid, customer) => CancelStep(db, rid, customer)
    case ExpiryCheck(rid, customer) => ExpiryCheckStep(db, rid, customer)
    case Finalize(rid, customer, revalidated) => FinalizeStep(db, rid, customer, revalidated)
    case Move(k, delta) => MoveStep(db, k, delta)
    case ExchangeHold(k, units) => ExchangeHoldStep(db, k, units)
    case ExchangeRelease(k, units) => ExchangeReleaseStep(db, k, units)
    case HandOver(k, units) => HandOverStep(db, k, units)
    case CancelItems(n, ids) => CancelItemsStep(db, n, ids)
    case Tick(elapsed) => (Later(db, elapsed), true)
  }

  // ---- what every reachable state satisfies

  /** The cached counter agrees with the rows, and never exceeds the stock. */
  ghost predicate CounterOk(db: Db)
  {
    && (forall k | k in db.stock :: db.stock[k].reserved == Held(db.items, k) + ExchangeHeld(db, k)
                                    && db.stock[k].reserved <= db.stock[k].quantity)
    && (forall i | i in db.items :: db.items[i].key in db.stock)
    && db.exchange.Keys <= db.stock.Keys
  }

  /** An unexpired reservation still has exactly the rows its reserve wrote. */
  ghost predicate HonourOk(db: Db)
  {
    && (forall rid | rid in db.reservations :: rid in db.accepted)
    && (forall i | i in db.items :: i.reservation in db.reservations && i in db.accepted[i.reservation]
                                    && db.items[i] == db.accepted[i.reservation][i])
    && (forall rid, i | rid in db.accepted && i in db.accepted[rid] :: i.reservation == rid)
    && (forall rid, i | rid in db.reservations && !Expired(db, rid) && i in db.accepted[rid] :: i in db.items)
  }

  /** Orders hold exactly what their reservation accepted, and no reservation is sold twice. */
  ghost predicate OrdersOk(db: Db)
  {
    && (forall n | 0 <= n < |db.orders| ::
          var o := db.orders[n];
          o.reservation in db.accepted && o.reservation !in db.reservations && o.lines == db.accepted[o.reservation])
    && (forall m, n | 0 <= m < n < |db.orders| :: db.orders[m].reservation != db.orders[n].reservation)
  }

  /** Stock on hand plus units sold and not cancelled is the sum of the recorded movements, key by key. */
  ghost predicate Conserved(db: Db)
  {
    forall k: StockKey :: Quantity(db, k) + Sold(db.orders, k) - Held(db.restored, k) == Supplied(db.movements, k)
  }

  /** `i` is a row of one of the orders. */
  predicate SoldRow(orders: seq<Order>, i: HoldId, item: HoldItem)
  {
    exists n :: 0 <= n < |orders| && i in orders[n].lines && orders[n].lines[i] == item
  }

  /** Only what was sold has been put back. */
  predicate RestoredOk(db: Db)
  {
    forall i | i in db.restored :: SoldRow(db.orders, i, db.restored[i])
  }

  ghost predicate Inv(db: Db)
  {
    CounterOk(db) && HonourOk(db) && OrdersOk(db) && Conserved(db) && RestoredOk(db)
  }

  // ---- each write keeps it

  /** Releasing any rows at all keeps the counters exact. */
  lemma ReleaseKeepsCounters(db: Db, ids: set<HoldId>)
    requires CounterOk(db)
    ensures CounterOk(Release(db, ids))
  {
    forall k | k in db.stock ensures Held(db.items, k) == Held(Restrict(db.items, ids), k) + Held(db.items - ids, k) {
      HeldSplit(db.items, ids, k);
    }
  }

  /** Releasing rows of expired holds keeps everything. */
  lemma ReleaseKeepsInv(db: Db, ids: set<HoldId>)
    requires Inv(db)
    requires forall i | i in ids && i in db.items :: Expired(db, i.reservation)
    ensures Inv(Release(db, ids))
  {
    ReleaseKeepsCounters(db, ids);
    var after := Release(db, ids);
    QuantitiesAloneKeepConserved(db, after);
    assert forall rid :: Expired(after, rid) == Expired(db, rid);
  }

  lemma GiveBackKeepsCounters(db: Db, rid: Id)
    requires CounterOk(db)
    ensures GiveBack(db, rid).items == db.items - RowsOf(db.items, rid).Keys
    ensures CounterOk(GiveBack(db, rid))
  {
    var mid := Release(db, RowsOf(db.items, rid).Keys);
    ReleaseKeepsCounters(db, RowsOf(db.items, rid).Keys);
    NothingLeftToCascade(db.items, rid);
    SameStockSameCounters(mid, GiveBack(db, rid));
  }

  lemma NothingLeftToCascade(items: HoldTable, rid: Id)
    ensures var rest := items - RowsOf(items, rid).Keys; rest - RowsOf(rest, rid).Keys == rest
  {
  }

  lemma SameStockSameCounters(db: Db, after: Db)
    requires CounterOk(db)
    requires after.stock == db.stock && after.items == db.items && after.exchange == db.exchange
    ensures CounterOk(after)
  {
    forall k | k in after.stock ensures after.stock[k].reserved == Held(after.items, k) + ExchangeHeld(after, k) {
      assert ExchangeHeld(after, k) == ExchangeHeld(db, k);
    }
  }

  /** Giving a whole reservation back keeps everything, expired or not. */
  lemma GiveBackKeepsInv(db: Db, rid: Id)
    requires Inv(db)
    ensures Inv(GiveBack(db, rid))
  {
    var after := GiveBack(db, rid);
    GiveBackKeepsCounters(db, rid);
    DropKeepsHonour(db, after, rid);
    assert OrdersOk(after);
    QuantitiesAloneKeepConserved(db, after);
  }

  lemma QuantitiesAloneKeepConserved(db: Db, after: Db)
    requires Conserved(db) && after.orders == db.orders && after.movements == db.movements && after.restored == db.restored
    requires after.stock.Keys == db.stock.Keys
    requires forall k | k in db.stock :: after.stock[k].quantity == db.stock[k].quantity
    ensures Conserved(after)
  {
    forall k: StockKey
      ensures Quantity(after, k) + Sold(after.orders, k) - Held(after.restored, k) == Supplied(after.movements, k)
    {
      assert Quantity(after, k) == Quantity(db, k);
    }
  }

  /** A state that differs by one reservation and its rows still honours every other hold. */
  lemma DropKeepsHonour(db: Db, after: Db, rid: Id)
    requires HonourOk(db)
    requires after.now == db.now && after.accepted == db.accepted
    requires after.reservations == db.reservations - {rid}
    requires after.items == db.items - RowsOf(db.items, rid).Keys
    ensures HonourOk(after)
  {
    assert forall other :: other != rid ==> Expired(after, other) == Expired(db, other);
  }

  lemma FitsWithoutLast(db: Db, lines: seq<HoldItem>)
    requires Fits(db, lines) && lines != []
    ensures Fits(db, lines[..|lines| - 1])
  {
    var m := |lines| - 1;
    assert forall n | 0 <= n < m :: lines[..m][n] == lines[n] && lines[..m][..n] == lines[..n];
  }

  lemma FitsMeansTotalDemand(db: Db, lines: seq<HoldItem>, k: StockKey)
    requires forall j | j in db.stock :: db.stock[j].reserved <= db.stock[j].quantity
    requires Fits(db, lines) && k in db.stock
    ensures Demand(lines, k) <= db.stock[k].quantity - db.stock[k].reserved
  {
    if lines != [] {
      var m := |lines| - 1;
      FitsWithoutLast(db, lines);
      FitsMeansTotalDemand(db, lines[..m], k);
    }
  }

  lemma HoldKeepsInv(db: Db, rid: Id, customer: Id, expiresAt: int, lines: seq<HoldItem>)
    requires Inv(db) && rid !in db.accepted && Fits(db, lines)
    ensures Inv(Hold(db, rid, customer, expiresAt, lines))
  {
    var after := Hold(db, rid, customer, expiresAt, lines);
    HoldKeepsCounters(db, rid, customer, expiresAt, lines);
    HoldKeepsHonour(db, rid, customer, expiresAt, lines);
    assert OrdersOk(after);
    QuantitiesAloneKeepConserved(db, after);
  }

  lemma HoldKeepsHonour(db: Db, rid: Id, customer: Id, expiresAt: int, lines: seq<HoldItem>)
    requires HonourOk(db) && rid !in db.accepted
    ensures HonourOk(Hold(db, rid, customer, expiresAt, lines))
  {
    var rows := NewRows(rid, lines);
    var after := Hold(db, rid, customer, expiresAt, lines);
    assert forall i | i in rows :: i.reservation == rid;
    assert forall other :: other != rid ==> Expired(after, other) == Expired(db, other);
  }

  lemma HoldRaisesHeld(db: Db, rid: Id, lines: seq<HoldItem>, k: StockKey)
    requires forall i | i in db.items :: i.reservation != rid
    ensures Held(db.items + NewRows(rid, lines), k) == Held(db.items, k) + Demand(lines, k)
  {
    assert forall i | i in NewRows(rid, lines) :: i.reservation == rid;
    HeldUnion(db.items, NewRows(rid, lines), k);
    NewRowsHold(rid, lines, k);
  }

  lemma HoldKeepsCounters(db: Db, rid: Id, customer: Id, expiresAt: int, lines: seq<HoldItem>)
    requires CounterOk(db) && HonourOk(db) && rid !in db.accepted && Fits(db, lines)
    ensures CounterOk(Hold(db, rid, customer, expiresAt, lines))
  {
    var after := Hold(db, rid, customer, expiresAt, lines);
    assert after.stock.Keys == db.stock.Keys;
    forall k | k in db.stock
      ensures after.stock[k].reserved == Held(after.items, k) + ExchangeHeld(after, k)
      ensures after.stock[k].reserved <= after.stock[k].quantity
    {
      HoldRaisesHeld(db, rid, lines, k);
      FitsMeansTotalDemand(db, lines, k);
      assert ExchangeHeld(after, k) == ExchangeHeld(db, k);
    }
    HeldKeysHaveStock(db, rid, lines);
  }

  lemma HeldKeysHaveStock(db: Db, rid: Id, lines: seq<HoldItem>)
    requires Fits(db, lines) && forall i | i in db.items :: db.items[i].key in db.stock
    ensures forall i | i in db.items + NewRows(rid, lines) :: (db.items + NewRows(rid, lines))[i].key in db.stock
  {
  }

  /** Under the invariant the conditional decrement of an unexpired hold cannot miss. */
  lemma HonouredHoldCanBeSold(db: Db, rid: Id)
    requires CounterOk(db)
    ensures CanSell(db, rid)
  {
    var rows := RowsOf(db.items, rid);
    forall i | i in rows ensures Held(rows, rows[i].key) <= db.stock[rows[i].key].reserved {
      HeldMonotone(rows, db.items, rows[i].key);
    }
  }

  lemma LiveRowsAreAccepted(db: Db, rid: Id)
    requires HonourOk(db) && rid in db.reservations && !Expired(db, rid)
    ensures RowsOf(db.items, rid) == db.accepted[rid]
  {
  }

  lemma SellKeepsCounters(db: Db, rid: Id)
    requires CounterOk(db) && rid in db.reservations
    ensures CounterOk(Sell(db, rid))
  {
    var rows := RowsOf(db.items, rid);
    forall k | k in db.stock ensures Held(db.items, k) == Held(rows, k) + Held(db.items - rows.Keys, k) {
      HeldSplit(db.items, rows.Keys, k);
      assert Restrict(db.items, rows.Keys) == rows;
    }
  }

  /** Selling a reservation whose rows are all there keeps everything. */
  lemma SellKeepsInv(db: Db, rid: Id)
    requires Inv(db) && rid in db.reservations && rid in db.accepted && RowsOf(db.items, rid) == db.accepted[rid]
    ensures Inv(Sell(db, rid))
  {
    SellKeepsCounters(db, rid);
    var after := Sell(db, rid);
    DropKeepsHonour(db, after, rid);
    SellKeepsConserved(db, rid);
    assert OrdersOk(after);
    MoreOrdersKeepRestored(db, after);
  }

  lemma MoreOrdersKeepRestored(db: Db, after: Db)
    requires RestoredOk(db) && after.restored == db.restored && db.orders <= after.orders
    ensures RestoredOk(after)
  {
    forall i | i in after.restored ensures SoldRow(after.orders, i, after.restored[i]) {
      var n :| 0 <= n < |db.orders| && i in db.orders[n].lines && db.orders[n].lines[i] == db.restored[i];
      assert after.orders[n] == db.orders[n];
    }
  }

  lemma SellKeepsConserved(db: Db, rid: Id)
    requires Conserved(db) && CounterOk(db) && rid in db.reservations
    ensures Conserved(Sell(db, rid))
  {
    var rows := RowsOf(db.items, rid);
    var after := Sell(db, rid);
    assert after.orders[..|db.orders|] == db.orders;
    forall k: StockKey
      ensures Quantity(after, k) + Sold(after.orders, k) - Held(after.restored, k) == Supplied(after.movements, k)
    {
      if k !in db.stock { HeldNone(rows, k); }
    }
  }

  lemma AdjustKeepsCounters(db: Db, k: StockKey, delta: int)
    requires CounterOk(db)
    requires k in db.stock ==> db.stock[k].reserved <= db.stock[k].quantity + delta
    requires k !in db.stock ==> 0 <= delta
    ensures CounterOk(Adjust(db, k, delta))
  {
    if k !in db.stock { HeldNone(db.items, k); }
    assert forall j :: ExchangeHeld(Adjust(db, k, delta), j) == ExchangeHeld(db, j);
  }

  lemma AdjustKeepsConserved(db: Db, k: StockKey, delta: int)
    requires Conserved(db)
    ensures Conserved(Adjust(db, k, delta))
  {
    var after := Adjust(db, k, delta);
    assert after.movements[..|db.movements|] == db.movements;
    forall j: StockKey
      ensures Quantity(after, j) + Sold(after.orders, j) - Held(after.restored, j) == Supplied(after.movements, j)
    {
      assert Quantity(after, j) == Quantity(db, j) + if j == k then delta else 0;
    }
  }

  lemma AdjustKeepsInv(db: Db, k: StockKey, delta: int)
    requires Inv(db)
    requires k in db.stock ==> db.stock[k].reserved <= db.stock[k].quantity + delta
    requires k !in db.stock ==> 0 <= delta
    ensures Inv(Adjust(db, k, delta))
  {
    AdjustKeepsCounters(db, k, delta);
    AdjustKeepsConserved(db, k, delta);
    hide CounterOk, Conserved;
    assert forall rid :: Expired(Adjust(db, k, delta), rid) == Expired(db, rid);
  }

  lemma SetExchangeKeepsInv(db: Db, k: StockKey, held: nat)
    requires Inv(db) && k in db.stock
    requires db.stock[k].reserved + held - ExchangeHeld(db, k) <= db.stock[k].quantity
    ensures Inv(SetExchange(db, k, held))
  {
    var after := SetExchange(db, k, held);
    assert forall j: StockKey :: Quantity(after, j) == Quantity(db, j);
    assert forall rid :: Expired(after, rid) == Expired(db, rid);
  }

  lemma PutBackKeepsCounters(db: Db, rows: HoldTable)
    requires CounterOk(db)
    ensures CounterOk(PutBack(db, rows))
  {
    var after := PutBack(db, rows);
    forall k | k in after.stock
      ensures after.stock[k].reserved == Held(after.items, k) + ExchangeHeld(after, k)
              && after.stock[k].reserved <= after.stock[k].quantity
    {
      assert ExchangeHeld(after, k) == ExchangeHeld(db, k);
      if k !in db.stock { HeldNone(db.items, k); }
    }
  }

  lemma PutBackKeepsConserved(db: Db, rows: HoldTable)
    requires Conserved(db) && rows.Keys !! db.restored.Keys
    ensures Conserved(PutBack(db, rows))
  {
    var after := PutBack(db, rows);
    forall k: StockKey
      ensures Quantity(after, k) + Sold(after.orders, k) - Held(after.restored, k) == Supplied(after.movements, k)
    {
      HeldUnion(db.restored, rows, k);
      if k !in KeysIn(rows) { HeldNone(rows, k); }
    }
  }

  /** Putting back sold rows that are not back yet keeps everything. */
  lemma PutBackKeepsInv(db: Db, rows: HoldTable)
    requires Inv(db) && rows.Keys !! db.restored.Keys
    requires forall i | i in rows :: SoldRow(db.orders, i, rows[i])
    ensures Inv(PutBack(db, rows))
  {
    hide CounterOk, Conserved, HonourOk, Held;
    PutBackKeepsCounters(db, rows);
    PutBackKeepsConserved(db, rows);
    PutBackKeepsHonour(db, rows);
  }

  lemma PutBackKeepsHonour(db: Db, rows: HoldTable)
    requires HonourOk(db)
    ensures HonourOk(PutBack(db, rows))
  {
    assert forall rid :: Expired(PutBack(db, rows), rid) == Expired(db, rid);
  }

  lemma TickKeepsInv(db: Db, elapsed: nat)
    requires Inv(db)
    ensures Inv(Later(db, elapsed))
  {
    var after := Later(db, elapsed);
    assert forall rid :: !Expired(after, rid) ==> !Expired(db, rid);
    assert forall k: StockKey :: Quantity(after, k) == Quantity(db, k);
  }

  // ---- every run

  lemma ReserveKeepsInv(db: Db, rid: Id, customer: Id, expiresAt: int, lines: seq<HoldItem>)
    requires Inv(db) && rid !in db.accepted
    ensures Inv(ReserveStep(db, rid, customer, expiresAt, lines).0)
  {
    hide Inv;
    var swept := Release(db, ExpiredOn(db, KeysOf(lines)));
    ReleaseKeepsInv(db, ExpiredOn(db, KeysOf(lines)));
    if Fits(swept, lines) { HoldKeepsInv(swept, rid, customer, expiresAt, lines); }
  }

  lemma MoveKeepsInv(db: Db, k: StockKey, delta: int)
    requires Inv(db)
    ensures Inv(MoveStep(db, k, delta).0)
  {
    ReleaseKeepsInv(db, ExpiredOn(db, {k}));
    if MoveStep(db, k, delta).1 { AdjustKeepsInv(Release(db, ExpiredOn(db, {k})), k, delta); }
  }

  lemma ExchangeHoldKeepsInv(db: Db, k: StockKey, units: nat)
    requires Inv(db)
    ensures Inv(ExchangeHoldStep(db, k, units).0)
  {
    hide Inv;
    var swept := Release(db, ExpiredOn(db, {k}));
    ReleaseKeepsInv(db, ExpiredOn(db, {k}));
    if ExchangeHoldStep(db, k, units).1 { SetExchangeKeepsInv(swept, k, ExchangeHeld(db, k) + units); }
  }

  lemma ExchangeReleaseKeepsInv(db: Db, k: StockKey, units: nat)
    requires Inv(db) && k in db.stock && units <= ExchangeHeld(db, k)
    ensures Inv(ExchangeReleaseStep(db, k, units).0)
  {
    hide Inv;
    var swept := Release(db, ExpiredOn(db, {k}));
    ReleaseKeepsInv(db, ExpiredOn(db, {k}));
    InvMeansExchangeIsPart(swept, k);
    SetExchangeKeepsInv(swept, k, ExchangeHeld(db, k) - units);
  }

  lemma CancelItemsKeepsInv(db: Db, n: nat, ids: set<HoldId>)
    requires Inv(db) && ActiveItems(db, n, ids)
    ensures Inv(CancelItemsStep(db, n, ids).0)
  {
    hide Inv;
    var rows := Restrict(db.orders[n].lines, ids);
    ReleaseKeepsInv(db, ExpiredOn(db, KeysIn(rows)));
    assert forall i | i in rows :: SoldRow(db.orders, i, rows[i]);
    PutBackKeepsInv(Release(db, ExpiredOn(db, KeysIn(rows))), rows);
  }

  lemma InvMeansLiveRowsAreAccepted(db: Db, rid: Id)
    requires Inv(db) && rid in db.reservations && !Expired(db, rid)
    ensures rid in db.accepted && RowsOf(db.items, rid) == db.accepted[rid]
  {
    LiveRowsAreAccepted(db, rid);
  }

  lemma InvMeansCountersOk(db: Db)
    requires Inv(db)
    ensures CounterOk(db)
  {
  }

  lemma InvMeansExchangeIsPart(db: Db, k: StockKey)
    requires Inv(db) && k in db.stock
    ensures ExchangeHeld(db, k) <= db.stock[k].reserved <= db.stock[k].quantity
  {
  }

  lemma HandOverKeepsInv(db: Db, k: StockKey, units: nat)
    requires Inv(db) && k in db.stock && units <= ExchangeHeld(db, k)
    ensures Inv(HandOverStep(db, k, units).0)
  {
    hide Inv;
    var swept := Release(db, ExpiredOn(db, {k}));
    ReleaseKeepsInv(db, ExpiredOn(db, {k}));
    InvMeansExchangeIsPart(swept, k);
    var given := ExchangeReleaseStep(db, k, units).0;
    ExchangeReleaseKeepsInv(db, k, units);
    AdjustKeepsInv(given, k, -(units as int));
  }

  lemma FinalizeKeepsInv(db: Db, rid: Id, customer: Id, revalidated: bool)
    requires Inv(db)
    ensures Inv(FinalizeStep(db, rid, customer, revalidated).0)
  {
    hide Inv;
    if rid in db.reservations && !Expired(db, rid) {
      InvMeansLiveRowsAreAccepted(db, rid);
      SellKeepsInv(db, rid);
    }
  }

  lemma StepKeepsInv(db: Db, op: Op)
    requires Inv(db) && Enabled(db, op)
    ensures Inv(Step(db, op).0)
  {
    hide Inv;
    match op
    case Reserve(rid, customer, expiresAt, lines) => ReserveKeepsInv(db, rid, customer, expiresAt, lines);
    case Cancel(rid, _) => GiveBackKeepsInv(db, rid);
    case ExpiryCheck(rid, _) => GiveBackKeepsInv(db, rid);
    case Finalize(rid, customer, revalidated) => FinalizeKeepsInv(db, rid, customer, revalidated);
    case Move(k, delta) => MoveKeepsInv(db, k, delta);
    case ExchangeHold(k, units) => ExchangeHoldKeepsInv(db, k, units);
    case ExchangeRelease(k, units) => ExchangeReleaseKeepsInv(db, k, units);
    case HandOver(k, units) => HandOverKeepsInv(db, k, units);
    case CancelItems(n, ids) => CancelItemsKeepsInv(db, n, ids);
    case Tick(elapsed) => TickKeepsInv(db, elapsed);
  }

  /** `ops` can be run from `db`, one after the other. */
  ghost predicate Runs(db: Db, ops: seq<Op>)
    decreases |ops|
  {
    ops == [] || (Enabled(db, ops[0]) && Runs(Step(db, ops[0]).0, ops[1..]))
  }

  ghost function After(db: Db, ops: seq<Op>): Db
    requires Runs(db, ops)
    decreases |ops|
  {
    if ops == [] then db else After(Step(db, ops[0]).0, ops[1..])
  }

  function Empty(now: int): Db
  {
    Db(now, map[], map[], map[], map[], map[], [], [], map[])
  }

  lemma {:induction false} RunKeepsInv(db: Db, ops: seq<Op>)
    requires Inv(db) && Runs(db, ops)
    ensures Inv(After(db, ops))
    decreases |ops|
  {
    if ops != [] {
      StepKeepsInv(db, ops[0]);
      RunKeepsInv(Step(db, ops[0]).0, ops[1..]);
    }
  }

  /** The ledger invariant: in every reachable state the counter is exact and covered by stock. */
  lemma LedgerInvariant(now: int, ops: seq<Op>, k: StockKey)
    requires Runs(Empty(now), ops)
    requires k in After(Empty(now), ops).stock
    ensures var db := After(Empty(now), ops);
            db.stock[k].reserved == Held(db.items, k) + ExchangeHeld(db, k)
            && 0 <= db.stock[k].reserved <= db.stock[k].quantity
  {
    assert Inv(Empty(now));
    RunKeepsInv(Empty(now), ops);
  }

  /** No more of a key was put back than was sold of it. */
  lemma {:induction false} RestoredWasSold(orders: seq<Order>, restored: HoldTable, k: StockKey)
    requires forall i | i in restored :: SoldRow(orders, i, restored[i])
    ensures Held(restored, k) <= Sold(orders, k)
  {
    if orders == [] {
      assert restored == map[];
    } else {
      var n := |orders| - 1;
      var lines := orders[n].lines;
      var here := set i | i in restored && i in lines && lines[i] == restored[i];
      HeldSplit(restored, here, k);
      HeldMonotone(Restrict(restored, here), lines, k);
      forall i | i in restored - here ensures SoldRow(orders[..n], i, restored[i]) {
        var m :| 0 <= m < |orders| && i in orders[m].lines && orders[m].lines[i] == restored[i];
        assert orders[..n][m] == orders[m];
      }
      RestoredWasSold(orders[..n], restored - here, k);
    }
  }

  /**
   * Confirmed sales never exceed supply: what is missing from supply is what was sold and not
   * cancelled, and no more was put back than was sold.
   */
  lemma StockIsConserved(now: int, ops: seq<Op>, k: StockKey)
    requires Runs(Empty(now), ops)
    ensures var db := After(Empty(now), ops);
            Quantity(db, k) + Sold(db.orders, k) - Held(db.restored, k) == Supplied(db.movements, k)
            && 0 <= Sold(db.orders, k) - Held(db.restored, k) <= Supplied(db.movements, k)
  {
    assert Inv(Empty(now));
    RunKeepsInv(Empty(now), ops);
    var db := After(Empty(now), ops);
    if k in db.stock { InvMeansExchangeIsPart(db, k); }
    RestoredWasSold(db.orders, db.restored, k);
  }

  /**
   * An accepted hold is honoured: in any reachable state, confirming an unexpired, non-empty
   * reservation whose re-validation passes succeeds, and buys exactly the rows its reserve wrote.
   */
  lemma AcceptedHoldIsHonoured(now: int, ops: seq<Op>, rid: Id, customer: Id)
    requires Runs(Empty(now), ops)
    requires var db := After(Empty(now), ops);
             Owned(db, rid, customer) && !Expired(db, rid) && rid in db.accepted && db.accepted[rid] != map[]
    ensures var db := After(Empty(now), ops);
            var (after, ok) := FinalizeStep(db, rid, customer, true);
            ok && after.orders == db.orders + [Order(rid, customer, db.accepted[rid])] && rid !in after.reservations
  {
    assert Inv(Empty(now));
    RunKeepsInv(Empty(now), ops);
    var db := After(Empty(now), ops);
    LiveRowsAreAccepted(db, rid);
    HonouredHoldCanBeSold(db, rid);
  }

  /** At most one order per reservation, and every order holds what was accepted for it. */
  lemma SoldAtMostOnce(now: int, ops: seq<Op>)
    requires Runs(Empty(now), ops)
    ensures var db := After(Empty(now), ops);
            && (forall m, n | 0 <= m < n < |db.orders| :: db.orders[m].reservation != db.orders[n].reservation)
            && (forall n | 0 <= n < |db.orders| :: db.orders[n].reservation in db.accepted
                  && db.orders[n].lines == db.accepted[db.orders[n].reservation])
  {
    assert Inv(Empty(now));
    RunKeepsInv(Empty(now), ops);
  }

  /** A sweep leaves exactly the live holds of the swept keys in the counter. */
  lemma SweptCounterIsLive(db: Db, keys: set<StockKey>, k: StockKey)
    requires CounterOk(db) && k in keys && k in db.stock
    ensures var swept := Release(db, ExpiredOn(db, keys));
            swept.stock[k].quantity - swept.stock[k].reserved == Available(db, k)
  {
    var ids := ExpiredOn(db, keys);
    ReleaseKeepsCounters(db, ids);
    assert OnKey(db.items - ids, k) == OnKey(Live(db), k);
    HeldDependsOnKeyOnly(db.items - ids, Live(db), k);
  }

  /** All lines fit one after the other exactly when each key's whole demand is available. */
  lemma FitsIffDemandAvailable(db: Db, lines: seq<HoldItem>)
    requires forall j | j in db.stock :: db.stock[j].reserved <= db.stock[j].quantity
    ensures Fits(db, lines) <==>
            forall n | 0 <= n < |lines| :: lines[n].key in db.stock
              && Demand(lines, lines[n].key) <= db.stock[lines[n].key].quantity - db.stock[lines[n].key].reserved
  {
    if Fits(db, lines) {
      forall n | 0 <= n < |lines|
        ensures Demand(lines, lines[n].key) <= db.stock[lines[n].key].quantity - db.stock[lines[n].key].reserved
      {
        FitsMeansTotalDemand(db, lines, lines[n].key);
      }
    }
    forall n | 0 <= n < |lines|
      ensures Demand(lines[..n], lines[n].key) + lines[n].quantity <= Demand(lines, lines[n].key)
    {
      assert lines[..n + 1][..n] == lines[..n];
      DemandMonotone(lines, n + 1, lines[n].key);
    }
  }

  /**
   * Lazy expiry decides like eager expiry: reserve is accepted exactly when, for every key asked
   * for, stock minus the holds with `expiresAt >= now` minus exchange holds covers the demand.
   */
  lemma ReserveSeesOnlyLiveHolds(db: Db, rid: Id, customer: Id, expiresAt: int, lines: seq<HoldItem>)
    requires CounterOk(db)
    ensures ReserveStep(db, rid, customer, expiresAt, lines).1 <==>
            forall n | 0 <= n < |lines| ::
              lines[n].key in db.stock && Demand(lines, lines[n].key) <= Available(db, lines[n].key)
  {
    var keys := KeysOf(lines);
    var swept := Release(db, ExpiredOn(db, keys));
    ReleaseKeepsCounters(db, ExpiredOn(db, keys));
    FitsIffDemandAvailable(swept, lines);
    forall n | 0 <= n < |lines| && lines[n].key in db.stock
      ensures swept.stock[lines[n].key].quantity - swept.stock[lines[n].key].reserved == Available(db, lines[n].key)
    {
      SweptCounterIsLive(db, keys, lines[n].key);
    }
  }

  /** The same for a stock decrease: a sale is refused only for stock really held. */
  lemma DecreaseSeesOnlyLiveHolds(db: Db, k: StockKey, delta: int)
    requires CounterOk(db) && delta <= 0
    ensures MoveStep(db, k, delta).1 <==> (if k in db.stock then -delta <= Available(db, k) else delta == 0)
  {
    if k in db.stock { SweptCounterIsLive(db, {k}, k); }
  }
}
