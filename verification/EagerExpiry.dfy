/**
 * Lazy expiry refines eager expiry. The service never releases a hold when its ten minutes run
 * out; some later transaction sweeps it. Here the service is compared, over whole runs, with a
 * system that never sweeps and instead drops every hold the moment it expires.
 */
module EagerExpiry {
  import opened Common
  import opened Holds
  import opened Ledger

  function LiveReservations(db: Db): map<Id, Reservation>
  {
    map rid | rid in db.reservations && !Expired(db, rid) :: db.reservations[rid]
  }

  function AllExpired(db: Db): set<HoldId>
  {
    set i | i in db.items && Expired(db, i.reservation)
  }

  /** Every expired hold is gone, rows, counter share and reservation. */
  ghost function DropExpired(db: Db): Db
  {
    Release(db, AllExpired(db)).(reservations := LiveReservations(db))
  }

  // ---- the same transactions with no sweep in them

  function PlainReserve(db: Db, rid: Id, customer: Id, expiresAt: int, lines: seq<HoldItem>): (Db, bool)
  {
    if Fits(db, lines) then (Hold(db, rid, customer, expiresAt, lines), true) else (db, false)
  }

  ghost function PlainFinalize(db: Db, rid: Id, customer: Id, revalidated: bool): (Db, bool)
  {
    if Owned(db, rid, customer) && RowsOf(db.items, rid) != map[] && revalidated && CanSell(db, rid)
    then (Sell(db, rid), true)
    else (db, false)
  }

  function PlainMove(db: Db, k: StockKey, delta: int): (Db, bool)
  {
    var after := Adjust(db, k, delta);
    if delta > 0 || after.stock[k].quantity - after.stock[k].reserved >= 0 then (after, true) else (db, false)
  }

  function PlainExchangeHold(db: Db, k: StockKey, units: nat): (Db, bool)
  {
    if k in db.stock && units <= db.stock[k].quantity - db.stock[k].reserved
    then (SetExchange(db, k, ExchangeHeld(db, k) + units), true)
    else (db, false)
  }

  function PlainExchangeRelease(db: Db, k: StockKey, units: nat): (Db, bool)
    requires k in db.stock && units <= ExchangeHeld(db, k)
  {
    (SetExchange(db, k, ExchangeHeld(db, k) - units), true)
  }

  function PlainHandOver(db: Db, k: StockKey, units: nat): (Db, bool)
    requires k in db.stock && units <= ExchangeHeld(db, k)
  {
    (Adjust(PlainExchangeRelease(db, k, units).0, k, -(units as int)), true)
  }

  ghost function PlainCancelItems(db: Db, n: nat, ids: set<HoldId>): (Db, bool)
    requires ActiveItems(db, n, ids)
  {
    (PutBack(db, Restrict(db.orders[n].lines, ids)), true)
  }

  ghost function Plain(db: Db, op: Op): (Db, bool)
    requires Enabled(db, op)
  {
    match op
    case Reserve(rid, customer, expiresAt, lines) => PlainReserve(db, rid, customer, expiresAt, lines)
    case Cancel(rid, customer) => CancelStep(db, rid, customer)
    case ExpiryCheck(rid, customer) => (db, Owned(db, rid, customer))
    case Finalize(rid, customer, revalidated) => PlainFinalize(db, rid, customer, revalidated)
    case Move(k, delta) => PlainMove(db, k, delta)
    case ExchangeHold(k, units) => PlainExchangeHold(db, k, units)
    case ExchangeRelease(k, units) => PlainExchangeRelease(db, k, units)
    case HandOver(k, units) => PlainHandOver(db, k, units)
    case CancelItems(n, ids) => PlainCancelItems(db, n, ids)
    case Tick(elapsed) => (Later(db, elapsed), true)
  }

  ghost function EagerStep(db: Db, op: Op): (Db, bool)
    requires Enabled(db, op)
  {
    var (after, ok) := Plain(db, op);
    (DropExpired(after), ok)
  }

  // ---- states that differ only in expired holds

  /** Everything about a state except its expired holds and the cached counters. */
  datatype LiveView = LiveView(
    now: int,
    items: HoldTable,
    reservations: map<Id, Reservation>,
    quantities: map<StockKey, int>,
    exchange: map<StockKey, nat>,
    accepted: map<Id, HoldTable>,
    orders: seq<Order>,
    movements: seq<Movement>,
    restored: HoldTable)

  function Quantities(db: Db): map<StockKey, int>
  {
    map k | k in db.stock :: db.stock[k].quantity
  }

  function View(db: Db): LiveView
  {
    LiveView(db.now, Live(db), LiveReservations(db), Quantities(db), db.exchange, db.accepted, db.orders, db.movements,
             db.restored)
  }

  predicate SameLive(a: Db, b: Db)
  {
    View(a) == View(b)
  }

  lemma SameQuantities(a: Db, b: Db)
    requires a.stock.Keys == b.stock.Keys
    requires forall k | k in a.stock :: a.stock[k].quantity == b.stock[k].quantity
    ensures Quantities(a) == Quantities(b)
  {
  }

  lemma SameQuantitiesMeans(a: Db, b: Db)
    requires SameLive(a, b)
    ensures a.stock.Keys == b.stock.Keys
    ensures forall k | k in a.stock :: a.stock[k].quantity == b.stock[k].quantity
  {
    assert Quantities(a).Keys == a.stock.Keys && Quantities(b).Keys == b.stock.Keys;
    assert forall k | k in a.stock :: Quantities(a)[k] == a.stock[k].quantity;
    assert forall k | k in b.stock :: Quantities(b)[k] == b.stock[k].quantity;
  }

  /** The stock table of an eager system, rebuilt from the live part of a state alone. */
  ghost function StockOf(v: LiveView): map<StockKey, Stock>
  {
    map k | k in v.quantities ::
      Stock(v.quantities[k], Held(v.items, k) + if k in v.exchange then v.exchange[k] else 0)
  }

  lemma DroppedStock(db: Db)
    requires CounterOk(db)
    ensures DropExpired(db).stock == StockOf(View(db))
  {
    forall k | k in db.stock ensures DropExpired(db).stock[k] == StockOf(View(db))[k] {
      DroppedCounter(db, k);
    }
  }

  /** With exact counters, what is left after dropping expired holds depends on the live part only. */
  lemma DroppingForgetsExpired(a: Db, b: Db)
    requires CounterOk(a) && CounterOk(b) && SameLive(a, b)
    ensures DropExpired(a) == DropExpired(b)
  {
    DroppedStock(a);
    DroppedStock(b);
    DroppedRows(a);
    DroppedRows(b);
  }

  lemma DroppedRows(db: Db)
    ensures db.items - AllExpired(db) == Live(db)
    ensures DropExpired(db).items == Live(db)
  {
  }

  lemma DroppedCounter(db: Db, k: StockKey)
    requires CounterOk(db) && k in db.stock
    ensures DropExpired(db).stock[k] == Stock(db.stock[k].quantity, Held(Live(db), k) + ExchangeHeld(db, k))
  {
    HeldSplit(db.items, AllExpired(db), k);
    DroppedRows(db);
  }

  lemma DroppedIsSameLive(db: Db)
    ensures SameLive(db, DropExpired(db))
    ensures forall rid :: !Expired(DropExpired(db), rid)
  {
    DroppedRows(db);
    var after := DropExpired(db);
    assert forall rid | rid in after.reservations :: !Expired(db, rid);
    assert forall i | i in after.items :: !Expired(db, i.reservation);
    assert Live(after) == Live(db);
  }

  lemma DroppingKeepsInv(db: Db)
    requires Inv(db)
    ensures Inv(DropExpired(db))
  {
    hide CounterOk, Conserved, HonourOk, Held, Restrict;
    var mid := Release(db, AllExpired(db));
    var after := DropExpired(db);
    ReleaseKeepsInv(db, AllExpired(db));
    SameStockSameCounters(mid, after);
    DroppingKeepsHonour(db);
    QuantitiesAloneKeepConserved(mid, after);
  }

  lemma DroppingKeepsHonour(db: Db)
    requires HonourOk(db)
    ensures HonourOk(DropExpired(db))
  {
    DroppedRows(db);
    DroppedIsSameLive(db);
  }

  /** Whichever expired rows are released, no live hold notices. */
  lemma SweepingIsInvisible(db: Db, ids: set<HoldId>)
    requires forall i | i in ids && i in db.items :: Expired(db, i.reservation)
    ensures SameLive(db, Release(db, ids))
  {
    var after := Release(db, ids);
    assert forall rid :: Expired(after, rid) == Expired(db, rid);
    assert Live(after) == Live(db);
  }

  // ---- every write acts on the live part alone

  lemma HoldCongruence(a: Db, b: Db, rid: Id, customer: Id, expiresAt: int, lines: seq<HoldItem>)
    requires SameLive(a, b) && HonourOk(a) && HonourOk(b) && rid !in a.accepted
    ensures SameLive(Hold(a, rid, customer, expiresAt, lines), Hold(b, rid, customer, expiresAt, lines))
  {
    HoldLive(a, rid, customer, expiresAt, lines);
    HoldLive(b, rid, customer, expiresAt, lines);
    HoldLiveReservations(a, rid, customer, expiresAt, lines);
    HoldLiveReservations(b, rid, customer, expiresAt, lines);
  }

  lemma HoldExpiry(db: Db, rid: Id, customer: Id, expiresAt: int, lines: seq<HoldItem>)
    ensures var after := Hold(db, rid, customer, expiresAt, lines);
            (Expired(after, rid) <==> expiresAt < db.now)
            && (forall other | other != rid :: Expired(after, other) == Expired(db, other))
  {
  }

  lemma HoldLive(db: Db, rid: Id, customer: Id, expiresAt: int, lines: seq<HoldItem>)
    requires HonourOk(db) && rid !in db.accepted
    ensures Live(Hold(db, rid, customer, expiresAt, lines)) ==
            Live(db) + (if expiresAt < db.now then map[] else NewRows(rid, lines))
  {
    HoldExpiry(db, rid, customer, expiresAt, lines);
    LiveOfUnion(db, Hold(db, rid, customer, expiresAt, lines), NewRows(rid, lines), rid);
  }

  lemma HoldLiveReservations(db: Db, rid: Id, customer: Id, expiresAt: int, lines: seq<HoldItem>)
    requires HonourOk(db) && rid !in db.accepted
    ensures LiveReservations(Hold(db, rid, customer, expiresAt, lines)) ==
            LiveReservations(db) + (if expiresAt < db.now then map[] else map[rid := Reservation(customer, expiresAt)])
  {
    hide Expired, NewRows;
    HoldExpiry(db, rid, customer, expiresAt, lines);
  }

  lemma LiveOfUnion(db: Db, after: Db, rows: HoldTable, rid: Id)
    requires after.items == db.items + rows
    requires forall i | i in db.items :: i.reservation != rid
    requires forall i | i in rows :: i.reservation == rid
    requires forall other | other != rid :: Expired(after, other) == Expired(db, other)
    ensures Live(after) == Live(db) + (if Expired(after, rid) then map[] else rows)
  {
  }

  lemma AdjustCongruence(a: Db, b: Db, k: StockKey, delta: int)
    requires SameLive(a, b)
    ensures SameLive(Adjust(a, k, delta), Adjust(b, k, delta))
  {
    SameQuantitiesMeans(a, b);
    AdjustLive(a, k, delta);
    AdjustLive(b, k, delta);
    SameQuantities(Adjust(a, k, delta), Adjust(b, k, delta));
  }

  lemma AdjustLive(db: Db, k: StockKey, delta: int)
    ensures Live(Adjust(db, k, delta)) == Live(db)
    ensures LiveReservations(Adjust(db, k, delta)) == LiveReservations(db)
  {
    assert forall rid :: Expired(Adjust(db, k, delta), rid) == Expired(db, rid);
  }

  lemma PutBackCongruence(a: Db, b: Db, rows: HoldTable)
    requires SameLive(a, b)
    ensures SameLive(PutBack(a, rows), PutBack(b, rows))
  {
    SameQuantitiesMeans(a, b);
    PutBackLive(a, rows);
    PutBackLive(b, rows);
    SameQuantities(PutBack(a, rows), PutBack(b, rows));
  }

  lemma PutBackLive(db: Db, rows: HoldTable)
    ensures Live(PutBack(db, rows)) == Live(db)
    ensures LiveReservations(PutBack(db, rows)) == LiveReservations(db)
  {
    assert forall rid :: Expired(PutBack(db, rows), rid) == Expired(db, rid);
  }

  lemma SetExchangeCongruence(a: Db, b: Db, k: StockKey, held: nat)
    requires SameLive(a, b) && k in a.stock && k in b.stock
    ensures SameLive(SetExchange(a, k, held), SetExchange(b, k, held))
  {
    SetExchangeLive(a, k, held);
    SetExchangeLive(b, k, held);
  }

  lemma SetExchangeLive(db: Db, k: StockKey, held: nat)
    requires k in db.stock
    ensures View(SetExchange(db, k, held)) == View(db).(exchange := db.exchange[k := held])
  {
    var after := SetExchange(db, k, held);
    assert forall rid :: Expired(after, rid) == Expired(db, rid);
    assert Live(after) == Live(db);
    SameQuantities(after, db);
  }

  /** Removing a reservation and its rows: the effect shared by cancel, expiry and confirm. */
  lemma RemovalLive(db: Db, after: Db, rid: Id)
    requires after.now == db.now && after.reservations == db.reservations - {rid}
    requires after.items == db.items - RowsOf(db.items, rid).Keys
    ensures Live(after) == map i | i in Live(db) && i.reservation != rid :: Live(db)[i]
    ensures LiveReservations(after) == LiveReservations(db) - {rid}
  {
    assert forall other :: other != rid ==> Expired(after, other) == Expired(db, other);
  }

  lemma GiveBackLive(db: Db, rid: Id)
    ensures GiveBack(db, rid).items == db.items - RowsOf(db.items, rid).Keys
    ensures Live(GiveBack(db, rid)) == map i | i in Live(db) && i.reservation != rid :: Live(db)[i]
    ensures LiveReservations(GiveBack(db, rid)) == LiveReservations(db) - {rid}
  {
    NothingLeftToCascade(db.items, rid);
    RemovalLive(db, GiveBack(db, rid), rid);
  }

  lemma GiveBackCongruence(a: Db, b: Db, rid: Id)
    requires SameLive(a, b)
    ensures SameLive(GiveBack(a, rid), GiveBack(b, rid))
  {
    GiveBackLive(a, rid);
    GiveBackLive(b, rid);
  }

  /** An expired reservation can be given back without any live hold noticing. */
  lemma GivingBackExpiredIsInvisible(db: Db, rid: Id)
    requires Expired(db, rid)
    ensures SameLive(GiveBack(db, rid), db)
  {
    assert forall i | i in Live(db) :: i.reservation != rid;
    assert rid !in LiveReservations(db);
    hide Live, LiveReservations;
    GiveBackLive(db, rid);
  }

  lemma SellCongruence(a: Db, b: Db, rid: Id)
    requires SameLive(a, b) && rid in a.reservations && !Expired(a, rid)
    requires rid in b.reservations && !Expired(b, rid)
    ensures SameLive(Sell(a, rid), Sell(b, rid))
  {
    LiveRowsAgree(a, b, rid);
    assert LiveReservations(a)[rid] == a.reservations[rid] && LiveReservations(b)[rid] == b.reservations[rid];
    RemovalLive(a, Sell(a, rid), rid);
    RemovalLive(b, Sell(b, rid), rid);
  }

  lemma LiveRowsAgree(a: Db, b: Db, rid: Id)
    requires SameLive(a, b) && !Expired(a, rid) && !Expired(b, rid)
    ensures RowsOf(a.items, rid) == RowsOf(b.items, rid)
  {
    LiveRowsOf(a, rid);
    LiveRowsOf(b, rid);
  }

  lemma LiveRowsOf(db: Db, rid: Id)
    requires !Expired(db, rid)
    ensures RowsOf(db.items, rid) == RowsOf(Live(db), rid)
  {
  }

  lemma TickCongruence(a: Db, b: Db, elapsed: nat)
    requires SameLive(a, b)
    ensures SameLive(Later(a, elapsed), Later(b, elapsed))
  {
    hide Live, LiveReservations;
    TickLive(a, elapsed);
    TickLive(b, elapsed);
    SameQuantitiesMeans(a, b);
    SameQuantities(Later(a, elapsed), Later(b, elapsed));
  }

  lemma TickLive(db: Db, elapsed: nat)
    ensures var after := Later(db, elapsed);
            LiveReservations(after) ==
              (map rid | rid in LiveReservations(db) && db.now + elapsed <= LiveReservations(db)[rid].expiresAt
                 :: LiveReservations(db)[rid])
            && Live(after) ==
              (map i | i in Live(db) &&
                 (i.reservation in LiveReservations(db) ==>
                    db.now + elapsed <= LiveReservations(db)[i.reservation].expiresAt) :: Live(db)[i])
  {
    var after := Later(db, elapsed);
    assert forall rid :: Expired(db, rid) ==> Expired(after, rid);
  }

  // ---- the guards read the live part alone

  lemma SameCountersFitAlike(a: Db, b: Db, lines: seq<HoldItem>)
    requires a.stock.Keys == b.stock.Keys
    requires forall k | k in KeysOf(lines) && k in a.stock :: a.stock[k] == b.stock[k]
    ensures Fits(a, lines) == Fits(b, lines)
  {
    assert forall n | 0 <= n < |lines| :: lines[n].key in KeysOf(lines);
  }

  /** A swept key and its eager counterpart show the same row. */
  lemma SweptMatchesEager(db: Db, keys: set<StockKey>, k: StockKey)
    requires CounterOk(db) && k in keys && k in db.stock
    ensures Release(db, ExpiredOn(db, keys)).stock[k] == DropExpired(db).stock[k]
  {
    SweptCounterIsLive(db, keys, k);
    DroppedCounter(db, k);
  }

  lemma OwnedLive(db: Db, rid: Id, customer: Id)
    ensures Owned(DropExpired(db), rid, customer) <==> (Owned(db, rid, customer) && !Expired(db, rid))
  {
  }

  lemma SweptIsSameLive(db: Db, keys: set<StockKey>)
    ensures SameLive(Release(db, ExpiredOn(db, keys)), DropExpired(db))
  {
    SweepingIsInvisible(db, ExpiredOn(db, keys));
    DroppedIsSameLive(db);
  }

  // ---- the simulation

  lemma ReserveSimulates(db: Db, rid: Id, customer: Id, expiresAt: int, lines: seq<HoldItem>)
    requires Inv(db) && rid !in db.accepted
    ensures var (lazy, ok) := ReserveStep(db, rid, customer, expiresAt, lines);
            var (eager, ok') := PlainReserve(DropExpired(db), rid, customer, expiresAt, lines);
            SameLive(lazy, eager) && ok == ok'
  {
    var keys := KeysOf(lines);
    var swept, eager := Release(db, ExpiredOn(db, keys)), DropExpired(db);
    forall k | k in keys && k in db.stock ensures swept.stock[k] == eager.stock[k] {
      SweptMatchesEager(db, keys, k);
    }
    SameCountersFitAlike(swept, eager, lines);
    hide SameLive;
    SweptIsSameLive(db, keys);
    DroppedIsSameLive(db);
    if Fits(swept, lines) {
      ReleaseKeepsInv(db, ExpiredOn(db, keys));
      DroppingKeepsInv(db);
      HoldCongruence(swept, eager, rid, customer, expiresAt, lines);
    }
  }

  lemma CancelSimulates(db: Db, rid: Id, customer: Id)
    ensures var (lazy, ok) := CancelStep(db, rid, customer);
            var (eager, ok') := CancelStep(DropExpired(db), rid, customer);
            SameLive(lazy, eager) && (!Expired(db, rid) ==> ok == ok')
  {
    DroppedIsSameLive(db);
    OwnedLive(db, rid, customer);
    if Expired(db, rid) { GivingBackExpiredIsInvisible(db, rid); }
    GiveBackCongruence(db, DropExpired(db), rid);
  }

  lemma ExpiryCheckSimulates(db: Db, rid: Id, customer: Id)
    ensures var (lazy, ok) := ExpiryCheckStep(db, rid, customer);
            SameLive(lazy, DropExpired(db)) && ok == Owned(DropExpired(db), rid, customer)
  {
    DroppedIsSameLive(db);
    OwnedLive(db, rid, customer);
    if Expired(db, rid) { GivingBackExpiredIsInvisible(db, rid); }
  }

  lemma FinalizeSimulates(db: Db, rid: Id, customer: Id, revalidated: bool)
    requires Inv(db)
    ensures var (lazy, ok) := FinalizeStep(db, rid, customer, revalidated);
            var (eager, ok') := PlainFinalize(DropExpired(db), rid, customer, revalidated);
            SameLive(lazy, eager) && ok == ok'
  {
    var eager := DropExpired(db);
    DroppedIsSameLive(db);
    OwnedLive(db, rid, customer);
    assert CanSell(eager, rid) by { DroppingKeepsInv(db); HonouredHoldCanBeSold(eager, rid); }
    assert CanSell(db, rid) by { HonouredHoldCanBeSold(db, rid); }
    if Owned(eager, rid, customer) {
      LiveRowsAgree(db, eager, rid);
      SellCongruence(db, eager, rid);
    }
  }

  lemma MoveSimulates(db: Db, k: StockKey, delta: int)
    requires CounterOk(db)
    ensures var (lazy, ok) := MoveStep(db, k, delta);
            var (eager, ok') := PlainMove(DropExpired(db), k, delta);
            SameLive(lazy, eager) && ok == ok'
  {
    var swept, eager := Release(db, ExpiredOn(db, {k})), DropExpired(db);
    hide SameLive;
    if k in db.stock { SweptMatchesEager(db, {k}, k); }
    SweptIsSameLive(db, {k});
    DroppedIsSameLive(db);
    AdjustCongruence(swept, eager, k, delta);
  }

  lemma ExchangeHoldSimulates(db: Db, k: StockKey, units: nat)
    requires CounterOk(db)
    ensures var (lazy, ok) := ExchangeHoldStep(db, k, units);
            var (eager, ok') := PlainExchangeHold(DropExpired(db), k, units);
            SameLive(lazy, eager) && ok == ok'
  {
    hide SameLive;
    var swept, eager := Release(db, ExpiredOn(db, {k})), DropExpired(db);
    SweptIsSameLive(db, {k});
    DroppedIsSameLive(db);
    if k in db.stock {
      SweptMatchesEager(db, {k}, k);
      SetExchangeCongruence(swept, eager, k, ExchangeHeld(db, k) + units);
    }
  }

  lemma ExchangeReleaseSimulates(db: Db, k: StockKey, units: nat)
    requires CounterOk(db) && k in db.stock && units <= ExchangeHeld(db, k)
    ensures SameLive(ExchangeReleaseStep(db, k, units).0, PlainExchangeRelease(DropExpired(db), k, units).0)
  {
    hide SameLive, CounterOk, AllExpired, LiveReservations, ExpiredOn, Restrict;
    SweptIsSameLive(db, {k});
    SetExchangeCongruence(Release(db, ExpiredOn(db, {k})), DropExpired(db), k, ExchangeHeld(db, k) - units);
  }

  lemma HandOverSimulates(db: Db, k: StockKey, units: nat)
    requires CounterOk(db) && k in db.stock && units <= ExchangeHeld(db, k)
    ensures SameLive(HandOverStep(db, k, units).0, PlainHandOver(DropExpired(db), k, units).0)
  {
    hide SameLive;
    ExchangeReleaseSimulates(db, k, units);
    AdjustCongruence(ExchangeReleaseStep(db, k, units).0, PlainExchangeRelease(DropExpired(db), k, units).0,
                     k, -(units as int));
  }

  lemma CancelItemsSimulates(db: Db, n: nat, ids: set<HoldId>)
    requires ActiveItems(db, n, ids)
    ensures SameLive(CancelItemsStep(db, n, ids).0, PlainCancelItems(DropExpired(db), n, ids).0)
  {
    hide SameLive;
    var rows := Restrict(db.orders[n].lines, ids);
    SweptIsSameLive(db, KeysIn(rows));
    PutBackCongruence(Release(db, ExpiredOn(db, KeysIn(rows))), DropExpired(db), rows);
  }

  lemma StepSimulates(db: Db, op: Op)
    requires Inv(db) && Enabled(db, op)
    ensures SameLive(Step(db, op).0, Plain(DropExpired(db), op).0)
    ensures !(op.Cancel? && Expired(db, op.rid)) ==> Step(db, op).1 == Plain(DropExpired(db), op).1
  {
    hide SameLive;
    InvMeansCountersOk(db);
    match op
    case Reserve(rid, customer, expiresAt, lines) => ReserveSimulates(db, rid, customer, expiresAt, lines);
    case Cancel(rid, customer) => CancelSimulates(db, rid, customer);
    case ExpiryCheck(rid, customer) => ExpiryCheckSimulates(db, rid, customer);
    case Finalize(rid, customer, revalidated) => FinalizeSimulates(db, rid, customer, revalidated);
    case Move(k, delta) => MoveSimulates(db, k, delta);
    case ExchangeHold(k, units) => ExchangeHoldSimulates(db, k, units);
    case ExchangeRelease(k, units) => ExchangeReleaseSimulates(db, k, units);
    case HandOver(k, units) => HandOverSimulates(db, k, units);
    case CancelItems(n, ids) => CancelItemsSimulates(db, n, ids);
    case Tick(elapsed) =>
      DroppedIsSameLive(db);
      TickCongruence(db, DropExpired(db), elapsed);
  }

  lemma PlainMoveKeepsCounters(db: Db, k: StockKey, delta: int)
    requires Inv(db)
    ensures CounterOk(PlainMove(db, k, delta).0)
  {
    if PlainMove(db, k, delta).1 {
      if delta > 0 && k in db.stock { InvMeansExchangeIsPart(db, k); }
      AdjustKeepsInv(db, k, delta);
    }
  }

  lemma PlainExchangeHoldKeepsCounters(db: Db, k: StockKey, units: nat)
    requires Inv(db)
    ensures CounterOk(PlainExchangeHold(db, k, units).0)
  {
    hide CounterOk, HonourOk, OrdersOk, Conserved, RestoredOk;
    if PlainExchangeHold(db, k, units).1 { SetExchangeKeepsInv(db, k, ExchangeHeld(db, k) + units); }
  }

  lemma PlainHandOverKeepsCounters(db: Db, k: StockKey, units: nat)
    requires Inv(db) && k in db.stock && units <= ExchangeHeld(db, k)
    ensures CounterOk(PlainExchangeRelease(db, k, units).0)
    ensures CounterOk(PlainHandOver(db, k, units).0)
  {
    hide Inv;
    InvMeansExchangeIsPart(db, k);
    var given := PlainExchangeRelease(db, k, units).0;
    SetExchangeKeepsInv(db, k, ExchangeHeld(db, k) - units);
    InvMeansCountersOk(given);
    AdjustKeepsInv(given, k, -(units as int));
    InvMeansCountersOk(PlainHandOver(db, k, units).0);
  }

  lemma PlainReserveKeepsCounters(db: Db, rid: Id, customer: Id, expiresAt: int, lines: seq<HoldItem>)
    requires Inv(db) && rid !in db.accepted
    ensures CounterOk(PlainReserve(db, rid, customer, expiresAt, lines).0)
  {
    if Fits(db, lines) { HoldKeepsCounters(db, rid, customer, expiresAt, lines); }
  }

  lemma PlainKeepsCounters(db: Db, op: Op)
    requires Inv(db) && Enabled(db, op)
    ensures CounterOk(Plain(db, op).0)
  {
    hide CounterOk;
    match op
    case Reserve(rid, customer, expiresAt, lines) => PlainReserveKeepsCounters(db, rid, customer, expiresAt, lines);
    case Cancel(rid, _) => GiveBackKeepsCounters(db, rid);
    case ExpiryCheck(_, _) =>
    case Finalize(rid, _, _) => if rid in db.reservations { SellKeepsCounters(db, rid); }
    case Move(k, delta) => PlainMoveKeepsCounters(db, k, delta);
    case ExchangeHold(k, units) => PlainExchangeHoldKeepsCounters(db, k, units);
    case ExchangeRelease(k, units) => PlainHandOverKeepsCounters(db, k, units);
    case HandOver(k, units) => PlainHandOverKeepsCounters(db, k, units);
    case CancelItems(n, ids) => PutBackKeepsCounters(db, Restrict(db.orders[n].lines, ids));
    case Tick(elapsed) => TickKeepsInv(db, elapsed);
  }

  /**
   * One transaction: the lazy service and the eager system give the same answer and go to states
   * with the same live holds. The one answer that can differ is a cancel of a reservation that
   * has expired but was not swept yet, which the service reports as released.
   */
  lemma LazyStepRefinesEager(db: Db, op: Op)
    requires Inv(db) && Enabled(db, op)
    ensures Enabled(DropExpired(db), op)
    ensures DropExpired(Step(db, op).0) == EagerStep(DropExpired(db), op).0
    ensures Step(db, op).1 == EagerStep(DropExpired(db), op).1
            <==> !(op.Cancel? && Owned(db, op.rid, op.customer) && Expired(db, op.rid))
  {
    var eager := DropExpired(db);
    assert Enabled(eager, op) by { DroppedIsSameLive(db); }
    StepSimulates(db, op);
    StepKeepsInv(db, op);
    DroppingKeepsInv(db);
    PlainKeepsCounters(eager, op);
    DroppingForgetsExpired(Step(db, op).0, Plain(eager, op).0);
    if op.Cancel? { OwnedLive(db, op.rid, op.customer); }
  }

  /** States with the same live part take every transaction to states with the same live part. */
  lemma SameLiveStep(a: Db, b: Db, op: Op)
    requires Inv(a) && Inv(b) && SameLive(a, b) && Enabled(a, op)
    ensures Enabled(b, op)
    ensures SameLive(Step(a, op).0, Step(b, op).0)
    ensures !op.Cancel? ==> Step(a, op).1 == Step(b, op).1
  {
    SameQuantitiesMeans(a, b);
    assert Enabled(b, op);
    hide SameLive, Step, Enabled, EagerStep;
    InvMeansCountersOk(a);
    InvMeansCountersOk(b);
    DroppingForgetsExpired(a, b);
    LazyStepRefinesEager(a, op);
    LazyStepRefinesEager(b, op);
    DroppedIsSameLive(Step(a, op).0);
    DroppedIsSameLive(Step(b, op).0);
    SameLiveThrough(Step(a, op).0, DropExpired(Step(a, op).0), Step(b, op).0);
  }

  lemma SameLiveThrough(a: Db, mid: Db, b: Db)
    requires SameLive(a, mid) && SameLive(b, mid)
    ensures SameLive(a, b)
  {
  }

  ghost predicate EagerRuns(db: Db, ops: seq<Op>)
    decreases |ops|
  {
    ops == [] || (Enabled(db, ops[0]) && EagerRuns(EagerStep(db, ops[0]).0, ops[1..]))
  }

  ghost function EagerAfter(db: Db, ops: seq<Op>): Db
    requires EagerRuns(db, ops)
    decreases |ops|
  {
    if ops == [] then db else EagerAfter(EagerStep(db, ops[0]).0, ops[1..])
  }

  /** The answers of the service, one per transaction. */
  ghost function Answers(db: Db, ops: seq<Op>): (r: seq<bool>)
    requires Runs(db, ops)
    ensures |r| == |ops|
    decreases |ops|
  {
    if ops == [] then [] else [Step(db, ops[0]).1] + Answers(Step(db, ops[0]).0, ops[1..])
  }

  ghost function EagerAnswers(db: Db, ops: seq<Op>): (r: seq<bool>)
    requires EagerRuns(db, ops)
    ensures |r| == |ops|
    decreases |ops|
  {
    if ops == [] then [] else [EagerStep(db, ops[0]).1] + EagerAnswers(EagerStep(db, ops[0]).0, ops[1..])
  }

  /** Whole runs: every reserve, confirm and stock movement is decided as if holds vanished on expiry. */
  lemma {:induction false} LazyRefinesEager(db: Db, ops: seq<Op>)
    requires Inv(db) && Runs(db, ops)
    ensures EagerRuns(DropExpired(db), ops)
    ensures DropExpired(After(db, ops)) == EagerAfter(DropExpired(db), ops)
    ensures forall n | 0 <= n < |ops| && !ops[n].Cancel? ::
              Answers(db, ops)[n] == EagerAnswers(DropExpired(db), ops)[n]
    decreases |ops|
  {
    if ops != [] {
      LazyStepRefinesEager(db, ops[0]);
      StepKeepsInv(db, ops[0]);
      var next := Step(db, ops[0]).0;
      LazyRefinesEager(next, ops[1..]);
      forall n | 0 <= n < |ops| && !ops[n].Cancel?
        ensures Answers(db, ops)[n] == EagerAnswers(DropExpired(db), ops)[n]
      {
        if n > 0 { assert ops[1..][n - 1] == ops[n]; }
      }
    }
  }
}
