/**
 * What each transaction of the ledger does, row by row, and who may end a hold. Everything here is
 * said on the rows themselves: whose reservation it is, when it ends, what the columns hold.
 */
module HoldLife {
  import opened Common
  import opened Holds
  import opened Ledger

  // ---- whose hold it is

  /** Cancel and both halves of confirm do nothing to a reservation that is missing or somebody else's. */
  lemma NotOnesOwn(db: Db, rid: Id, customer: Id, revalidated: bool)
    requires rid in db.reservations ==> db.reservations[rid].customer != customer
    ensures Step(db, Cancel(rid, customer)) == (db, false)
    ensures Step(db, ExpiryCheck(rid, customer)) == (db, false)
    ensures Step(db, Finalize(rid, customer, revalidated)) == (db, false)
  {
  }

  /**
   * May `op` take reservation `rid` out of the table? Its owner's cancel or confirm, or, once it has
   * expired, the owner's failed confirm.
   */
  predicate EndsHold(op: Op, rid: Id, row: Reservation, now: int)
  {
    || op == Cancel(rid, row.customer)
    || (op == Finalize(rid, row.customer, true) && now <= row.expiresAt)
    || (op == ExpiryCheck(rid, row.customer) && row.expiresAt < now)
  }

  lemma HoldStands(db: Db, op: Op, rid: Id)
    requires Enabled(db, op) && rid in db.reservations && rid in db.accepted
    requires !EndsHold(op, rid, db.reservations[rid], db.now)
    ensures var after := Step(db, op).0;
            rid in after.reservations && after.reservations[rid] == db.reservations[rid] && rid in after.accepted
  {
    hide Held, Fits, CanSell, NewRows, Demand;
  }

  /**
   * Over any run: a reservation that has left the table left it in a cancel or a confirm of its own
   * customer, or, when its time was over, in a confirm of its own customer that failed. Nobody
   * else's call ends it, and while it stays its row stays as it was written.
   */
  lemma {:induction false} OnlyItsOwnerEndsAHold(db: Db, ops: seq<Op>, rid: Id)
    requires Runs(db, ops) && rid in db.reservations && rid in db.accepted
    ensures || (rid in After(db, ops).reservations && After(db, ops).reservations[rid] == db.reservations[rid])
            || exists n | 0 <= n < |ops| ::
                 && Runs(db, ops[..n])
                 && var customer, expiresAt := db.reservations[rid].customer, db.reservations[rid].expiresAt;
                    || ops[n] == Cancel(rid, customer)
                    || (ops[n] == Finalize(rid, customer, true) && After(db, ops[..n]).now <= expiresAt)
                    || (ops[n] == ExpiryCheck(rid, customer) && expiresAt < After(db, ops[..n]).now)
    decreases |ops|
  {
    hide Step, Enabled;
    if ops == [] {
    } else if EndsHold(ops[0], rid, db.reservations[rid], db.now) {
      assert ops[..0] == [];
    } else {
      HoldStands(db, ops[0], rid);
      var next, rest := Step(db, ops[0]).0, ops[1..];
      OnlyItsOwnerEndsAHold(next, rest, rid);
      if n :| 0 <= n < |rest| && Runs(next, rest[..n])
              && EndsHold(rest[n], rid, db.reservations[rid], After(next, rest[..n]).now) {
        assert ops[..n + 1][0] == ops[0] && ops[..n + 1][1..] == rest[..n] && ops[n + 1] == rest[n];
      }
    }
  }

  // ---- the writes, column by column

  lemma ReleaseDoes(db: Db, ids: set<HoldId>)
    ensures var after := Release(db, ids);
            && after == db.(items := after.items, stock := after.stock)
            && after.items == (map i | i in db.items && i !in ids :: db.items[i])
            && after.stock.Keys == db.stock.Keys
            && (forall k | k in db.stock :: after.stock[k].quantity == db.stock[k].quantity)
            && forall k | k in db.stock ::
                 after.stock[k].reserved == db.stock[k].reserved - Held(db.items, k) + Held(after.items, k)
  {
    forall k | k in db.stock { HeldSplit(db.items, ids, k); }
    assert Release(db, ids).items == db.items - ids;
  }

  /** The rows left when those on `keys` whose reservation ended before now are gone. */
  function Staying(db: Db, keys: set<StockKey>): HoldTable
  {
    map i | i in db.items && !(db.items[i].key in keys && i.reservation in db.reservations
                               && db.reservations[i.reservation].expiresAt < db.now) :: db.items[i]
  }

  lemma SweepDoes(db: Db, keys: set<StockKey>)
    ensures Release(db, ExpiredOn(db, keys)).items == Staying(db, keys)
  {
    ReleaseDoes(db, ExpiredOn(db, keys));
  }

  /**
   * A cancel by the owner takes the reservation and exactly its rows, expired or not, and each
   * counter goes down by what those rows held.
   */
  lemma CancelDoes(db: Db, rid: Id, customer: Id)
    requires rid in db.reservations && db.reservations[rid].customer == customer
    ensures var (after, ok) := Step(db, Cancel(rid, customer));
            && ok
            && after == db.(reservations := db.reservations - {rid}, items := after.items, stock := after.stock)
            && RowsGivenBack(db, after, rid)
  {
    GivenBack(db, rid);
  }

  predicate OthersRows(before: HoldTable, after: HoldTable, rid: Id)
  {
    after == map i | i in before && i.reservation != rid :: before[i]
  }

  ghost predicate RowsGivenBack(db: Db, after: Db, rid: Id)
  {
    && OthersRows(db.items, after.items, rid)
    && after.stock.Keys == db.stock.Keys
    && forall k | k in db.stock ::
         after.stock[k] == Stock(db.stock[k].quantity, db.stock[k].reserved - Held(db.items, k) + Held(after.items, k))
  }

  lemma GivenBack(db: Db, rid: Id)
    ensures RowsGivenBack(db, GiveBack(db, rid), rid)
  {
    ReleaseDoes(db, RowsOf(db.items, rid).Keys);
    NothingLeftToCascade(db.items, rid);
  }

  /** Confirm's first transaction goes on with an unexpired hold and gives an expired one back for good. */
  lemma ExpiryCheckDoes(db: Db, rid: Id, customer: Id)
    requires rid in db.reservations && db.reservations[rid].customer == customer
    ensures db.now <= db.reservations[rid].expiresAt ==> Step(db, ExpiryCheck(rid, customer)) == (db, true)
    ensures db.reservations[rid].expiresAt < db.now ==>
              var (after, live) := Step(db, ExpiryCheck(rid, customer));
              && !live
              && after == db.(reservations := db.reservations - {rid}, items := after.items, stock := after.stock)
              && RowsGivenBack(db, after, rid)
  {
    GivenBack(db, rid);
  }

  /**
   * A confirm is accepted exactly for the owner's unexpired, non-empty, re-validated reservation, and
   * turns exactly its rows into an order: stock and counter of every key go down by what they held.
   */
  lemma FinalizeDoes(db: Db, rid: Id, customer: Id, revalidated: bool)
    requires Inv(db)
    ensures var (after, ok) := Step(db, Finalize(rid, customer, revalidated));
            && (ok <==> rid in db.reservations && db.reservations[rid].customer == customer
                        && db.now <= db.reservations[rid].expiresAt && revalidated
                        && exists i :: i in db.items && i.reservation == rid)
            && (!ok ==> after == db)
            && (ok ==>
                  var rows := map i | i in db.items && i.reservation == rid :: db.items[i];
                  && after == db.(reservations := db.reservations - {rid}, items := after.items, stock := after.stock,
                                  orders := db.orders + [Order(rid, customer, rows)])
                  && OthersRows(db.items, after.items, rid)
                  && after.stock.Keys == db.stock.Keys
                  && forall k | k in db.stock ::
                       after.stock[k] == Stock(db.stock[k].quantity - Held(rows, k), db.stock[k].reserved - Held(rows, k)))
  {
    hide Inv, CounterOk, Sell, CanSell, RowsOf, Held, OthersRows;
    InvMeansCountersOk(db);
    HonouredHoldCanBeSold(db, rid);
    RowsOfOne(db.items, rid);
    if rid in db.reservations { SellDoes(db, rid); }
  }

  lemma RowsOfOne(items: HoldTable, rid: Id)
    ensures RowsOf(items, rid) == map i | i in items && i.reservation == rid :: items[i]
    ensures RowsOf(items, rid) == map[] <==> !exists i :: i in items && i.reservation == rid
  {
    if i :| i in items && i.reservation == rid { assert i in RowsOf(items, rid); }
    if RowsOf(items, rid) != map[] { var i :| i in RowsOf(items, rid); }
  }

  lemma SellDoes(db: Db, rid: Id)
    requires rid in db.reservations
    ensures var after, rows := Sell(db, rid), RowsOf(db.items, rid);
            && after == db.(reservations := db.reservations - {rid}, items := after.items, stock := after.stock,
                            orders := db.orders + [Order(rid, db.reservations[rid].customer, rows)])
            && OthersRows(db.items, after.items, rid)
            && after.stock.Keys == db.stock.Keys
            && forall k | k in db.stock ::
                 after.stock[k] == Stock(db.stock[k].quantity - Held(rows, k), db.stock[k].reserved - Held(rows, k))
  {
  }

  // ---- what is free

  /** `live` holds exactly the rows whose reservation has not ended before now. */
  predicate AreLiveRows(db: Db, live: HoldTable)
  {
    live == map i | i in db.items
                    && !(i.reservation in db.reservations && db.reservations[i.reservation].expiresAt < db.now) :: db.items[i]
  }

  /**
   * A reserve is accepted exactly when every key it asks for has a row whose stock, less the units
   * of live rows and exchanges, covers all its lines on that key together.
   */
  lemma ReserveAcceptsIff(db: Db, live: HoldTable, rid: Id, customer: Id, expiresAt: int, lines: seq<HoldItem>)
    requires Inv(db) && AreLiveRows(db, live) && rid !in db.accepted
    ensures Step(db, Reserve(rid, customer, expiresAt, lines)).1 <==>
            forall n | 0 <= n < |lines| ::
              var k := lines[n].key;
              && k in db.stock
              && Held(NewRows(rid, lines), k) + Held(live, k) + (if k in db.exchange then db.exchange[k] else 0)
                 <= db.stock[k].quantity
  {
    assert live == Live(db);
    ReserveSeesOnlyLiveHolds(db, rid, customer, expiresAt, lines);
    forall n | 0 <= n < |lines|
      ensures Held(NewRows(rid, lines), lines[n].key) == Demand(lines, lines[n].key)
    {
      NewRowsHold(rid, lines, lines[n].key);
    }
  }

  /**
   * What an accepted reserve writes: the reservation with its customer and end, one row for each line,
   * and every counter right again; of the old rows it takes only expired ones on keys it asks for.
   */
  lemma ReserveDoes(db: Db, rid: Id, customer: Id, expiresAt: int, lines: seq<HoldItem>)
    requires Inv(db) && rid !in db.accepted
    ensures var (after, ok) := Step(db, Reserve(rid, customer, expiresAt, lines));
            && (!ok ==> after == db)
            && (ok ==>
                  && after == db.(reservations := db.reservations[rid := Reservation(customer, expiresAt)],
                                  items := after.items, stock := after.stock, accepted := after.accepted)
                  && after.items == Staying(db, set n | 0 <= n < |lines| :: lines[n].key)
                                    + (map n: nat | n < |lines| :: HoldId(rid, n) := lines[n])
                  && (forall i | i in db.items :: i.reservation != rid)
                  && after.stock.Keys == db.stock.Keys
                  && (forall k | k in db.stock :: after.stock[k].quantity == db.stock[k].quantity)
                  && CounterOk(after))
  {
    hide Inv, CounterOk, Held, Demand, Staying, ExpiredOn, Release, Hold, Fits;
    ReserveKeepsInv(db, rid, customer, expiresAt, lines);
    InvMeansCountersOk(Step(db, Reserve(rid, customer, expiresAt, lines)).0);
    SweepDoes(db, KeysOf(lines));
    ReleaseDoes(db, ExpiredOn(db, KeysOf(lines)));
    HoldWrites(Release(db, ExpiredOn(db, KeysOf(lines))), rid, customer, expiresAt, lines);
    NoRowYet(db, rid);
  }

  lemma HoldWrites(db: Db, rid: Id, customer: Id, expiresAt: int, lines: seq<HoldItem>)
    ensures var after := Hold(db, rid, customer, expiresAt, lines);
            && after == db.(reservations := db.reservations[rid := Reservation(customer, expiresAt)],
                            items := after.items, stock := after.stock, accepted := after.accepted)
            && after.items == db.items + (map n: nat | n < |lines| :: HoldId(rid, n) := lines[n])
            && after.stock.Keys == db.stock.Keys
            && (forall k | k in db.stock :: after.stock[k].quantity == db.stock[k].quantity)
  {
  }

  lemma NoRowYet(db: Db, rid: Id)
    requires Inv(db) && rid !in db.accepted
    ensures forall i | i in db.items :: i.reservation != rid
  {
  }

  // ---- stock from outside

  /**
   * A movement adds its delta to one row, made if missing, and records it. An increase is always
   * accepted; a decrease exactly when live rows and exchanges leave that much.
   */
  lemma MoveDoes(db: Db, live: HoldTable, k: StockKey, delta: int)
    requires Inv(db) && AreLiveRows(db, live)
    ensures var (after, ok) := Step(db, Move(k, delta));
            var was := if k in db.stock then db.stock[k].quantity else 0;
            && (ok <==> delta > 0 || 0 <= was + delta - Held(live, k) - (if k in db.exchange then db.exchange[k] else 0))
            && (!ok ==> after == db)
            && (ok ==>
                  && after == db.(items := Staying(db, {k}), stock := after.stock, movements := db.movements + [Movement(k, delta)])
                  && after.stock.Keys == db.stock.Keys + {k}
                  && after.stock[k].quantity == was + delta
                  && (forall j | j in db.stock && j != k :: after.stock[j].quantity == db.stock[j].quantity)
                  && CounterOk(after))
  {
    hide Inv, CounterOk, Release, ExpiredOn, Staying, Held;
    InvMeansCountersOk(db);
    LiveIsLive(db, live);
    MoveKeepsInv(db, k, delta);
    InvMeansCountersOk(Step(db, Move(k, delta)).0);
    ReleaseDoes(db, ExpiredOn(db, {k}));
    SweepDoes(db, {k});
    if k in db.stock { SweptCounterIsLive(db, {k}, k); } else { NothingHeldWithoutRow(db, live, k); }
  }

  lemma LiveIsLive(db: Db, live: HoldTable)
    requires AreLiveRows(db, live)
    ensures live == Live(db)
  {
  }

  lemma NothingHeldWithoutRow(db: Db, live: HoldTable, k: StockKey)
    requires CounterOk(db) && AreLiveRows(db, live) && k !in db.stock
    ensures Held(live, k) == 0 && k !in db.exchange
  {
    HeldNone(live, k);
  }

  /** An exchange takes units from what is free and gives them back; a hand-over takes them off the shelf. */
  lemma ExchangeDoes(db: Db, live: HoldTable, k: StockKey, units: nat)
    requires Inv(db) && AreLiveRows(db, live)
    ensures var held := if k in db.exchange then db.exchange[k] else 0;
            var (after, ok) := Step(db, ExchangeHold(k, units));
            && (ok <==> k in db.stock && units <= db.stock[k].quantity - Held(live, k) - held)
            && (!ok ==> after == db)
            && (ok ==> ExchangeSet(db, after, k, held + units, 0, []))
    ensures k in db.stock && units <= (if k in db.exchange then db.exchange[k] else 0) ==>
              var held := if k in db.exchange then db.exchange[k] else 0;
              var released, handed := Step(db, ExchangeRelease(k, units)), Step(db, HandOver(k, units));
              && released.1 && ExchangeSet(db, released.0, k, held - units, 0, [])
              && handed.1 && ExchangeSet(db, handed.0, k, held - units, units, [Movement(k, -(units as int))])
  {
    ExchangeHoldDoes(db, live, k, units);
    if k in db.stock && units <= ExchangeHeld(db, k) {
      ExchangeReleaseDoes(db, k, units);
      HandOverDoes(db, k, units);
    }
  }

  /** Only the exchange's share of `k` and the shelf quantity of `k` change, and the counters are right. */
  ghost predicate ExchangeSet(db: Db, after: Db, k: StockKey, held: int, taken: nat, moved: seq<Movement>)
  {
    && held >= 0 && k in db.stock
    && after == db.(items := Staying(db, {k}), stock := after.stock, exchange := db.exchange[k := held],
                    movements := db.movements + moved)
    && after.stock.Keys == db.stock.Keys
    && after.stock[k].quantity == db.stock[k].quantity - taken
    && (forall j | j in db.stock && j != k :: after.stock[j].quantity == db.stock[j].quantity)
    && CounterOk(after)
  }

  lemma ExchangeHoldDoes(db: Db, live: HoldTable, k: StockKey, units: nat)
    requires Inv(db) && AreLiveRows(db, live)
    ensures var held := if k in db.exchange then db.exchange[k] else 0;
            var (after, ok) := Step(db, ExchangeHold(k, units));
            && (ok <==> k in db.stock && units <= db.stock[k].quantity - Held(live, k) - held)
            && (!ok ==> after == db)
            && (ok ==> ExchangeSet(db, after, k, held + units, 0, []))
  {
    hide Inv, CounterOk, Release, ExpiredOn, Staying, Held, ExchangeSet, SetExchange, Live;
    InvMeansCountersOk(db);
    LiveIsLive(db, live);
    ExchangeHoldKeepsInv(db, k, units);
    InvMeansCountersOk(ExchangeHoldStep(db, k, units).0);
    ReleaseDoes(db, ExpiredOn(db, {k}));
    SweepDoes(db, {k});
    if k in db.stock {
      SweptCounterIsLive(db, {k}, k);
      if ExchangeHoldStep(db, k, units).1 {
        ShareSet(db, Release(db, ExpiredOn(db, {k})), k, ExchangeHeld(db, k) + units);
      }
    }
  }

  lemma ShareSet(db: Db, swept: Db, k: StockKey, held: nat)
    requires swept == db.(items := Staying(db, {k}), stock := swept.stock) && k in db.stock
    requires swept.stock.Keys == db.stock.Keys
    requires forall j | j in db.stock :: swept.stock[j].quantity == db.stock[j].quantity
    requires CounterOk(SetExchange(swept, k, held))
    ensures ExchangeSet(db, SetExchange(swept, k, held), k, held, 0, [])
  {
    hide CounterOk;
  }

  lemma ExchangeReleaseDoes(db: Db, k: StockKey, units: nat)
    requires Inv(db) && k in db.stock && units <= ExchangeHeld(db, k)
    ensures var (after, ok) := Step(db, ExchangeRelease(k, units));
            ok && ExchangeSet(db, after, k, (if k in db.exchange then db.exchange[k] else 0) - units, 0, [])
  {
    hide Inv, CounterOk, Release, ExpiredOn, Staying, Held;
    ExchangeReleaseKeepsInv(db, k, units);
    InvMeansCountersOk(ExchangeReleaseStep(db, k, units).0);
    ReleaseDoes(db, ExpiredOn(db, {k}));
    SweepDoes(db, {k});
  }

  lemma HandOverDoes(db: Db, k: StockKey, units: nat)
    requires Inv(db) && k in db.stock && units <= ExchangeHeld(db, k)
    ensures var (after, ok) := Step(db, HandOver(k, units));
            ok && ExchangeSet(db, after, k, (if k in db.exchange then db.exchange[k] else 0) - units, units,
                              [Movement(k, -(units as int))])
  {
    hide Inv, CounterOk, Release, ExpiredOn, Staying, Held;
    HandOverKeepsInv(db, k, units);
    InvMeansCountersOk(HandOverStep(db, k, units).0);
    ReleaseDoes(db, ExpiredOn(db, {k}));
    SweepDoes(db, {k});
  }

  /** Cancelling items of an order puts exactly their units back on the shelf and remembers them as restored. */
  lemma CancelItemsDoes(db: Db, n: nat, ids: set<HoldId>)
    requires Inv(db) && n < |db.orders| && ids <= db.orders[n].lines.Keys && ids !! db.restored.Keys
    ensures var (after, ok) := Step(db, CancelItems(n, ids));
            var rows := map i | i in db.orders[n].lines && i in ids :: db.orders[n].lines[i];
            && ok
            && after == db.(items := Staying(db, set i | i in rows :: rows[i].key), stock := after.stock,
                            restored := db.restored + rows)
            && (forall k | k in db.stock ::
                  k in after.stock && after.stock[k].quantity == db.stock[k].quantity + Held(rows, k))
            && (forall k | k in after.stock && k !in db.stock ::
                  after.stock[k].quantity == Held(rows, k) && exists i :: i in rows && rows[i].key == k)
            && (forall i | i in rows :: rows[i].key in after.stock)
            && CounterOk(after)
  {
    hide Inv, CounterOk, Release, ExpiredOn, Staying, Held;
    CancelItemsKeepsInv(db, n, ids);
    InvMeansCountersOk(CancelItemsStep(db, n, ids).0);
    ReleaseDoes(db, ExpiredOn(db, KeysIn(Restrict(db.orders[n].lines, ids))));
    SweepDoes(db, KeysIn(Restrict(db.orders[n].lines, ids)));
    assert Restrict(db.orders[n].lines, ids) == map i | i in db.orders[n].lines && i in ids :: db.orders[n].lines[i];
  }
}
