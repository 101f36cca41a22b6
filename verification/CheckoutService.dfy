/**
 * The transactions themselves, statement by statement over mutable tables, each proved to do
 * exactly what the corresponding step of the ledger says.
 */
module CheckoutService {
  import opened Common
  import opened Holds
  import opened Ledger

  datatype Reason = Sale | Damage | Loss | CountCorrection

  datatype MoveError = InvalidDirection | InsufficientStock

  // ---- how the writes compose

  /** Two releases in a row are one release of both sets of rows. */
  lemma ReleaseTwice(db: Db, a: set<HoldId>, b: set<HoldId>)
    ensures Release(Release(db, a), b) == Release(db, a + b)
  {
    var mid := db.items - a;
    assert mid - b == db.items - (a + b);
    forall k | k in db.stock
      ensures Held(Restrict(db.items, a), k) + Held(Restrict(mid, b), k) == Held(Restrict(db.items, a + b), k)
    {
      HeldUnion(Restrict(db.items, a), Restrict(mid, b), k);
      assert Restrict(db.items, a) + Restrict(mid, b) == Restrict(db.items, a + b);
    }
    assert Release(Release(db, a), b).stock == Release(db, a + b).stock;
  }

  /** Releasing rows that all sit on `k` touches the one counter of `k`. */
  lemma ReleaseOnOneKey(db: Db, ids: set<HoldId>, k: StockKey)
    requires k in db.stock && forall i | i in ids && i in db.items :: db.items[i].key == k
    ensures Release(db, ids).stock ==
            db.stock[k := db.stock[k].(reserved := db.stock[k].reserved - Held(Restrict(db.items, ids), k))]
  {
    forall j | j in db.stock && j != k ensures Held(Restrict(db.items, ids), j) == 0 {
      HeldNone(Restrict(db.items, ids), j);
    }
  }

  /** The expired rows on `k` that belong to a reservation the caller has locked. */
  function SweptWith(db: Db, k: StockKey, lockedReservations: set<Id>): set<HoldId>
  {
    set i | i in ExpiredOn(db, {k}) && i.reservation in lockedReservations
  }

  lemma SweptWithAllItsReservations(db: Db, k: StockKey, lockedReservations: set<Id>)
    requires lockedReservations == set i | i in ExpiredOn(db, {k}) :: i.reservation
    ensures SweptWith(db, k, lockedReservations) == ExpiredOn(db, {k})
  {
  }

  lemma ReleaseNothing(db: Db)
    ensures Release(db, {}) == db
  {
    assert Restrict(db.items, {}) == map[];
    assert Release(db, {}).stock == db.stock;
  }

  /** Releasing one row: delete it, then lower its key's counter if that row exists. */
  lemma ReleaseOne(db: Db, i: HoldId)
    requires i in db.items
    ensures var k := db.items[i].key;
            Release(db, {i}) == db.(
              items := db.items - {i},
              stock := if k in db.stock
                       then db.stock[k := db.stock[k].(reserved := db.stock[k].reserved - db.items[i].quantity)]
                       else db.stock)
  {
    var one := Restrict(db.items, {i});
    forall k ensures Held(one, k) == QuantityOn(db.items[i], k) {
      HeldRemove(one, i, k);
      assert one - {i} == map[];
    }
    var k := db.items[i].key;
    if k in db.stock {
      assert Release(db, {i}).stock == db.stock[k := db.stock[k].(reserved := db.stock[k].reserved - db.items[i].quantity)];
    } else {
      assert Release(db, {i}).stock == db.stock;
    }
  }

  lemma HoldNothing(db: Db, rid: Id, customer: Id, expiresAt: int)
    ensures Hold(db, rid, customer, expiresAt, []) ==
            db.(reservations := db.reservations[rid := Reservation(customer, expiresAt)],
                accepted := db.accepted[rid := map[]])
  {
    assert NewRows(rid, []) == map[];
    assert Hold(db, rid, customer, expiresAt, []).stock == db.stock;
  }

  function Raised(stock: map<StockKey, Stock>, item: HoldItem): map<StockKey, Stock>
    requires item.key in stock
  {
    stock[item.key := stock[item.key].(reserved := stock[item.key].reserved + item.quantity)]
  }

  /** One more held line: raise its counter, add its row. */
  function WithLine(db: Db, rid: Id, n: nat, item: HoldItem): Db
    requires item.key in db.stock && rid in db.accepted
  {
    var row := HoldId(rid, n);
    db.(items := db.items[row := item],
        stock := Raised(db.stock, item),
        accepted := db.accepted[rid := db.accepted[rid][row := item]])
  }

  lemma HoldOneMoreStock(stock: map<StockKey, Stock>, lines: seq<HoldItem>, n: nat)
    requires n < |lines| && lines[n].key in stock
    ensures var before := map k | k in stock :: stock[k].(reserved := stock[k].reserved + Demand(lines[..n], k));
            var k := lines[n].key;
            (map k | k in stock :: stock[k].(reserved := stock[k].reserved + Demand(lines[..n + 1], k)))
            == before[k := before[k].(reserved := before[k].reserved + lines[n].quantity)]
  {
    assert lines[..n + 1][..n] == lines[..n];
  }

  lemma NewRowsOneMore(items: HoldTable, rid: Id, lines: seq<HoldItem>, n: nat)
    requires n < |lines|
    ensures NewRows(rid, lines[..n + 1]) == NewRows(rid, lines[..n])[HoldId(rid, n) := lines[n]]
    ensures items + NewRows(rid, lines[..n + 1]) == (items + NewRows(rid, lines[..n]))[HoldId(rid, n) := lines[n]]
  {
    assert lines[..n + 1][..n] == lines[..n] && lines[..n + 1][n] == lines[n];
    NewRowsSnoc(rid, lines[..n + 1]);
  }

  lemma HoldOneMoreAccepted(accepted: map<Id, HoldTable>, rid: Id, lines: seq<HoldItem>, n: nat)
    requires n < |lines|
    ensures var rows := NewRows(rid, lines[..n]);
            accepted[rid := NewRows(rid, lines[..n + 1])]
            == accepted[rid := rows][rid := rows[HoldId(rid, n) := lines[n]]]
  {
    NewRowsOneMore(map[], rid, lines, n);
  }

  lemma HoldOneMore(db: Db, rid: Id, customer: Id, expiresAt: int, lines: seq<HoldItem>, n: nat)
    requires n < |lines| && lines[n].key in db.stock
    ensures var before := Hold(db, rid, customer, expiresAt, lines[..n]);
            lines[n].key in before.stock && rid in before.accepted
            && Hold(db, rid, customer, expiresAt, lines[..n + 1]) == WithLine(before, rid, n, lines[n])
  {
    hide NewRows, Demand;
    HoldOneMoreStock(db.stock, lines, n);
    NewRowsOneMore(db.items, rid, lines, n);
    HoldOneMoreAccepted(db.accepted, rid, lines, n);
  }

  lemma FitsOneMore(db: Db, lines: seq<HoldItem>, n: nat)
    requires n < |lines|
    ensures Fits(db, lines[..n + 1]) <==>
            Fits(db, lines[..n]) && lines[n].key in db.stock
            && lines[n].quantity <= db.stock[lines[n].key].quantity - db.stock[lines[n].key].reserved
                                    - Demand(lines[..n], lines[n].key)
  {
    var more := lines[..n + 1];
    assert forall m | 0 <= m <= n :: more[m] == lines[m] && more[..m] == lines[..m];
    assert forall m | 0 <= m < n :: lines[..n][m] == lines[m] && lines[..n][..m] == lines[..m];
  }

  lemma FitsPrefix(db: Db, lines: seq<HoldItem>, n: nat)
    requires n <= |lines| && Fits(db, lines)
    ensures Fits(db, lines[..n])
  {
    assert forall m | 0 <= m < n :: lines[..n][m] == lines[m] && lines[..n][..m] == lines[..m];
  }

  lemma MissingRowCannotFit(db: Db, lines: seq<HoldItem>)
    requires !(KeysOf(lines) <= db.stock.Keys)
    ensures !Fits(Release(db, ExpiredOn(db, KeysOf(lines))), lines)
  {
    ReleaseKeepsRows(db, ExpiredOn(db, KeysOf(lines)));
  }

  /** The database a transaction works on. `accepted` only records history. */
  class Store {
    var now: int
    var stock: map<StockKey, Stock>
    var reservations: map<Id, Reservation>
    var items: HoldTable
    var exchange: map<StockKey, nat>
    ghost var accepted: map<Id, HoldTable>
    var orders: seq<Order>
    var movements: seq<Movement>
    var restored: HoldTable

    ghost function State(): Db
      reads this
    {
      Db(now, stock, reservations, items, exchange, accepted, orders, movements, restored)
    }

    constructor (now: int)
      ensures State() == Empty(now)
    {
      this.now := now;
      stock, reservations, items, exchange := map[], map[], map[], map[];
      accepted, orders, movements, restored := map[], [], [], map[];
    }

    /** The reservations with an expired row on any of `keys`, read without locking. */
    method FindExpiredReservationIds(keys: set<StockKey>) returns (ids: set<Id>)
      ensures ids == set i | i in ExpiredOn(State(), keys) :: i.reservation
    {
      ids := set i | i in items && items[i].key in keys
                     && i.reservation in reservations && reservations[i.reservation].expiresAt < now :: i.reservation;
    }

    /** Add up the quantities of rows that are all on `k`. */
    method SumQuantities(rows: HoldTable, ghost k: StockKey) returns (total: nat)
      requires forall i | i in rows :: rows[i].key == k
      ensures total == Held(rows, k)
    {
      total := 0;
      var rest := rows;
      while rest != map[]
        invariant forall i | i in rest :: rest[i].key == k
        invariant total + Held(rest, k) == Held(rows, k)
        decreases |rest|
      {
        var i :| i in rest;
        HeldRemove(rest, i, k);
        total := total + rest[i].quantity;
        rest := rest - {i};
      }
    }

    /**
     * Lock one stock row and release the expired rows on it, but only rows of reservations the
     * caller has locked. Returns the row as it now is, or nothing when there is none.
     */
    method LockAndSweepStockRow(k: StockKey, lockedReservations: set<Id>) returns (row: Option<Stock>)
      modifies this`items, this`stock
      ensures k !in old(stock) ==> row == None && State() == old(State())
      ensures k in old(stock) ==>
                State() == Release(old(State()), SweptWith(old(State()), k, lockedReservations))
                && k in stock && row == Some(stock[k])
    {
      if k !in stock {
        return None;
      }
      var expired := set i | i in items && items[i].key == k && i.reservation in lockedReservations
                             && i.reservation in reservations && reservations[i.reservation].expiresAt < now;
      assert expired == SweptWith(State(), k, lockedReservations);
      if expired == {} {
        ReleaseNothing(State());
        return Some(stock[k]);
      }
      var released := SumQuantities(Restrict(items, expired), k);
      ReleaseOnOneKey(State(), expired, k);
      items := items - expired;
      stock := stock[k := stock[k].(reserved := stock[k].reserved - released)];
      return Some(stock[k]);
    }

    /** Delete one row, and lower its counter only if this call is the one that deleted it. */
    method ReleaseItem(i: HoldId, item: HoldItem)
      requires i in items ==> items[i] == item
      modifies this`items, this`stock
      ensures State() == Release(old(State()), {i}) && items == old(items) - {i}
    {
      if i in items {
        ReleaseOne(State(), i);
        items := items - {i};
        if item.key in stock {
          stock := stock[item.key := stock[item.key].(reserved := stock[item.key].reserved - item.quantity)];
        }
      } else {
        ReleaseMissing(State(), i);
      }
    }

    /** Give rows back one at a time; the order of the rows makes no difference to the result. */
    method ReleaseReservationHolds(rows: HoldTable)
      requires forall i | i in rows && i in items :: items[i] == rows[i]
      modifies this`items, this`stock
      ensures State() == Release(old(State()), rows.Keys)
    {
      ghost var before, done := State(), {};
      var rest := rows;
      ReleaseNothing(State());
      hide Release;
      while rest != map[]
        invariant done !! rest.Keys && done + rest.Keys == rows.Keys
        invariant forall i | i in rest :: rest[i] == rows[i]
        invariant forall i | i in rest && i in items :: items[i] == rest[i]
        invariant State() == Release(before, done)
        decreases |rest|
      {
        var i :| i in rest;
        ReleaseItem(i, rest[i]);
        ReleaseTwice(before, done, {i});
        assert done + {i} == done + {i};
        done, rest := done + {i}, rest - {i};
      }
      assert done == rows.Keys;
    }

    /** Lock and sweep the stock rows of `keys`; nothing is returned when one does not exist. */
    method LockAndSweepStockRows(keys: set<StockKey>, lockedReservations: set<Id>)
      returns (locked: Option<map<StockKey, Stock>>)
      requires lockedReservations == set i | i in ExpiredOn(State(), keys) :: i.reservation
      modifies this`items, this`stock
      ensures locked.None? <==> !(keys <= old(stock).Keys)
      ensures locked.Some? ==> State() == Release(old(State()), ExpiredOn(old(State()), keys))
      ensures locked.Some? ==> Mirrors(locked.value, stock, keys)
    {
      ghost var before := State();
      var rows: map<StockKey, Stock> := map[];
      var rest := keys;
      ghost var done: set<StockKey> := {};
      NothingSwept(before);
      hide Release, ExpiredOn, SweptWith;
      while rest != {}
        invariant done !! rest && done + rest == keys && done <= stock.Keys && stock.Keys == before.stock.Keys
        invariant State() == Release(before, ExpiredOn(before, done))
        invariant rows.Keys == done && forall k | k in done :: rows[k] == stock[k]
        decreases rest
      {
        var k :| k in rest;
        ghost var mid := State();
        var row := LockAndSweepStockRow(k, lockedReservations);
        if row.None? {
          return None;
        }
        SweepOneMoreKey(before, done, k, lockedReservations, keys);
        assert State() == Release(before, ExpiredOn(before, done + {k}));
        OtherRowsUntouched(mid, k, lockedReservations);
        rows := rows[k := row.value];
        rest, done := rest - {k}, done + {k};
      }
      assert done == keys;
      locked := Some(rows);
    }

    /** Write one hold row and raise its counter. */
    method WriteLine(rid: Id, n: nat, item: HoldItem)
      requires item.key in stock && rid in accepted
      modifies this`stock, this`items, this`accepted
      ensures State() == WithLine(old(State()), rid, n, item)
    {
      stock := stock[item.key := stock[item.key].(reserved := stock[item.key].reserved + item.quantity)];
      items := items[HoldId(rid, n) := item];
      accepted := accepted[rid := accepted[rid][HoldId(rid, n) := item]];
    }

    /** Write the reservation and its rows, checking each line against the locked rows as they fill up. */
    method WriteHold(rid: Id, customer: Id, expiresAt: int, lines: seq<HoldItem>, lockedRows: map<StockKey, Stock>)
      returns (ok: bool)
      requires Mirrors(lockedRows, stock, KeysOf(lines))
      modifies this`reservations, this`accepted, this`stock, this`items
      ensures ok == Fits(old(State()), lines)
      ensures ok ==> State() == Hold(old(State()), rid, customer, expiresAt, lines)
    {
      ghost var swept := State();
      var locked := lockedRows;
      reservations := reservations[rid := Reservation(customer, expiresAt)];
      accepted := accepted[rid := map[]];
      HoldStart(swept, rid, customer, expiresAt, lines);
      hide PartlyHeld, Raised, Hold, Fits, KeysOf, Mirrors, Demand, NewRows;
      for n := 0 to |lines|
        invariant PartlyHeld(swept, State(), rid, customer, expiresAt, lines[..n])
        invariant Mirrors(locked, stock, KeysOf(lines))
      {
        var item := lines[n];
        ghost var soFar := State();
        LineStep(swept, soFar, locked, rid, customer, expiresAt, lines, n);
        var row := locked[item.key];
        if row.quantity - row.reserved < item.quantity {
          return false;
        }
        WriteLine(rid, n, item);
        locked := Raised(locked, item);
      }
      HoldDone(swept, State(), rid, customer, expiresAt, lines);
      ok := true;
    }

    /** The reserve transaction's statements, from the lock phase on. */
    method LockAndHold(rid: Id, customer: Id, expiresAt: int, lines: seq<HoldItem>) returns (ok: bool)
      modifies this`stock, this`items, this`reservations, this`accepted
      ensures ok == Fits(Release(old(State()), ExpiredOn(old(State()), KeysOf(lines))), lines)
      ensures ok ==> State() == Hold(Release(old(State()), ExpiredOn(old(State()), KeysOf(lines))), rid, customer, expiresAt, lines)
    {
      hide Release, ExpiredOn, Hold, Fits, KeysOf, Mirrors;
      ghost var before := State();
      var keys := KeysOf(lines);
      var lockedReservations := FindExpiredReservationIds(keys);
      var locked := LockAndSweepStockRows(keys, lockedReservations);
      if locked.None? {
        MissingRowCannotFit(before, lines);
        return false;
      }
      ok := WriteHold(rid, customer, expiresAt, lines, locked.value);
    }

    /** The transaction as a whole: any refusal rolls everything back. */
    method Reserve(rid: Id, customer: Id, expiresAt: int, lines: seq<HoldItem>) returns (ok: bool)
      modifies this`stock, this`items, this`reservations, this`accepted
      ensures (State(), ok) == ReserveStep(old(State()), rid, customer, expiresAt, lines)
    {
      hide Release, ExpiredOn, Hold, Fits, KeysOf;
      var stock0, items0, reservations0 := stock, items, reservations;
      ghost var accepted0 := accepted;
      ok := LockAndHold(rid, customer, expiresAt, lines);
      if !ok {
        stock, items, reservations := stock0, items0, reservations0;
        accepted := accepted0;
      }
    }

    method CancelReservation(rid: Id, customer: Id) returns (released: bool)
      modifies this
      ensures (State(), released) == CancelStep(old(State()), rid, customer)
      ensures released <==> rid in old(reservations) && old(reservations)[rid].customer == customer
      ensures reservations == if released then old(reservations) - {rid} else old(reservations)
    {
      if rid !in reservations || reservations[rid].customer != customer {
        return false;
      }
      DeleteReleased(rid);
      released := true;
    }

    /** Release every row of `rid`, then delete the reservation. */
    method DeleteReleased(rid: Id)
      modifies this
      ensures State() == GiveBack(old(State()), rid)
    {
      ReleaseReservationHolds(map i | i in items && i.reservation == rid :: items[i]);
      NothingLeftToCascade(old(items), rid);
      reservations := reservations - {rid};
    }

    /** Confirm's first transaction. */
    method ReleaseIfExpired(rid: Id, customer: Id) returns (live: bool)
      modifies this
      ensures (State(), live) == ExpiryCheckStep(old(State()), rid, customer)
      ensures live <==> rid in old(reservations) && old(reservations)[rid].customer == customer
                        && now <= old(reservations)[rid].expiresAt
      ensures rid in old(reservations) && rid !in reservations ==>
                old(reservations)[rid].customer == customer && old(reservations)[rid].expiresAt < now
    {
      if rid !in reservations || reservations[rid].customer != customer {
        return false;
      }
      if reservations[rid].expiresAt < now {
        DeleteReleased(rid);
        return false;
      }
      live := true;
    }

    /**
     * Confirm's second transaction: re-check, decrement stock and counter row by row under the
     * guard that neither goes below zero, write the order, delete the reservation.
     */
    method Finalize(rid: Id, customer: Id, revalidated: bool) returns (ok: bool)
      modifies this
      ensures (State(), ok) == FinalizeStep(old(State()), rid, customer, revalidated)
      ensures ok ==> rid in old(reservations) && old(reservations)[rid].customer == customer
                     && now <= old(reservations)[rid].expiresAt && revalidated
    {
      if rid !in reservations || reservations[rid].customer != customer {
        return false;
      }
      var rows := map i | i in items && i.reservation == rid :: items[i];
      assert rows == RowsOf(items, rid);
      if reservations[rid].expiresAt < now || rows == map[] || !revalidated {
        return false;
      }
      ghost var before := State();
      var stock0 := stock;
      var enough := DecrementAll(rows);
      if !enough {
        stock := stock0;
        return false;
      }
      orders := orders + [Order(rid, reservations[rid].customer, rows)];
      reservations := reservations - {rid};
      items := items - rows.Keys;
      ok := true;
    }

    /** The conditional UPDATE for one row: it matches nothing when either column would go below zero. */
    method DecrementRow(item: HoldItem) returns (matched: bool)
      modifies this`stock
      ensures matched <==> CanTake(old(stock), item)
      ensures stock == if matched then LessItem(old(stock), item) else old(stock)
    {
      if item.key !in stock || stock[item.key].quantity - item.quantity < 0
         || stock[item.key].reserved - item.quantity < 0 {
        return false;
      }
      stock := stock[item.key := Stock(stock[item.key].quantity - item.quantity,
                                       stock[item.key].reserved - item.quantity)];
      matched := true;
    }

    /** The guarded decrement of every row in turn; it stops at the first row that would go below zero. */
    method DecrementAll(rows: HoldTable) returns (enough: bool)
      modifies this`stock
      ensures enough <==> Covered(old(stock), rows)
      ensures enough ==> Decremented(old(stock), stock, rows)
    {
      var rest := rows;
      ghost var was, done := stock, map[];
      DecrementStart(was, rows);
      hide PartlyDecremented, Decremented, Covered, LessItem, CanTake;
      while rest != map[]
        invariant PartlyDecremented(was, stock, rows, done, rest)
        decreases |rest|
      {
        var i :| i in rest;
        DecrementStep(was, stock, rows, done, rest, i);
        var matched := DecrementRow(rest[i]);
        if !matched {
          return false;
        }
        done, rest := done[i := rest[i]], rest - {i};
      }
      DecrementDone(was, stock, rows, done);
      enough := true;
    }

    /** One stock movement: restock, or a decrease that respects live holds. */
    method CreateMovement(k: StockKey, delta: int, reason: Reason) returns (r: Result<int, MoveError>)
      requires CounterOk(State())
      modifies this
      ensures reason != CountCorrection && delta > 0 ==> r == Err(InvalidDirection) && State() == old(State())
      ensures !(reason != CountCorrection && delta > 0) ==>
                (State(), r.Ok?) == MoveStep(old(State()), k, delta)
                && r == (if r.Ok? then Ok(stock[k].quantity) else Err(InsufficientStock))
                && (r.Ok? ==> k in stock)
    {
      if reason != CountCorrection && delta > 0 {
        return Err(InvalidDirection);
      }
      ghost var before := State();
      var stock0, items0 := stock, items;
      if k !in stock {
        stock := stock[k := Stock(0, 0)];
      }
      ghost var withRow := State();
      assert ExpiredOn(withRow, {k}) == ExpiredOn(before, {k});
      hide CounterOk, ExpiredOn, Release;
      var lockedReservations := FindExpiredReservationIds({k});
      var row := LockAndSweepStockRow(k, lockedReservations);
      SweptWithAllItsReservations(withRow, k, lockedReservations);
      RowFirstOrLater(before, withRow, k, delta);
      if delta <= 0 && stock[k].quantity + delta - stock[k].reserved < 0 {
        stock, items := stock0, items0;
        return Err(InsufficientStock);
      }
      stock := stock[k := stock[k].(quantity := stock[k].quantity + delta)];
      movements := movements + [Movement(k, delta)];
      r := Ok(stock[k].quantity);
    }
  }

  lemma ReleaseMissing(db: Db, i: HoldId)
    requires i !in db.items
    ensures Release(db, {i}) == db
  {
    assert Restrict(db.items, {i}) == map[];
    assert Release(db, {i}).stock == db.stock && Release(db, {i}).items == db.items;
  }

  lemma ReleaseKeepsRows(db: Db, ids: set<HoldId>)
    ensures Release(db, ids).stock.Keys == db.stock.Keys
  {
  }

  lemma NothingSwept(db: Db)
    ensures Release(db, ExpiredOn(db, {})) == db
  {
    assert ExpiredOn(db, {}) == {};
    ReleaseNothing(db);
  }

  lemma UnfitPrefix(db: Db, lines: seq<HoldItem>, n: nat)
    requires n <= |lines|
    ensures !Fits(db, lines[..n]) ==> !Fits(db, lines)
  {
    if Fits(db, lines) { FitsPrefix(db, lines, n); }
  }

  lemma OtherRowsUntouched(db: Db, k: StockKey, lockedReservations: set<Id>)
    requires k in db.stock
    ensures var after := Release(db, SweptWith(db, k, lockedReservations));
            after.stock.Keys == db.stock.Keys && forall j | j in db.stock && j != k :: after.stock[j] == db.stock[j]
  {
    ReleaseOnOneKey(db, SweptWith(db, k, lockedReservations), k);
  }

  /** Sweeping key after key is sweeping them all at once. */
  lemma SweepOneMoreKey(before: Db, done: set<StockKey>, k: StockKey, lockedReservations: set<Id>, keys: set<StockKey>)
    requires k in keys && k !in done
    requires lockedReservations == set i | i in ExpiredOn(before, keys) :: i.reservation
    ensures var mid := Release(before, ExpiredOn(before, done));
            Release(mid, SweptWith(mid, k, lockedReservations))
            == Release(before, ExpiredOn(before, done + {k}))
  {
    var mid := Release(before, ExpiredOn(before, done));
    var more := SweptWith(mid, k, lockedReservations);
    forall i | i in ExpiredOn(before, {k}) ensures i in more {
      assert i in ExpiredOn(before, keys);
    }
    assert ExpiredOn(before, done) + more == ExpiredOn(before, done + {k});
    ReleaseTwice(before, ExpiredOn(before, done), more);
  }

  // ---- the conditional decrement, row after row

  predicate CanTake(stock: map<StockKey, Stock>, item: HoldItem)
  {
    item.key in stock && item.quantity <= stock[item.key].quantity && item.quantity <= stock[item.key].reserved
  }

  function LessItem(stock: map<StockKey, Stock>, item: HoldItem): map<StockKey, Stock>
    requires item.key in stock
  {
    stock[item.key := Stock(stock[item.key].quantity - item.quantity, stock[item.key].reserved - item.quantity)]
  }

  ghost predicate Decremented(was: map<StockKey, Stock>, now: map<StockKey, Stock>, rows: HoldTable)
  {
    now == map k | k in was :: Stock(was[k].quantity - Held(rows, k), was[k].reserved - Held(rows, k))
  }

  ghost predicate Covered(was: map<StockKey, Stock>, rows: HoldTable)
  {
    forall i | i in rows :: rows[i].key in was
      && Held(rows, rows[i].key) <= was[rows[i].key].quantity
      && Held(rows, rows[i].key) <= was[rows[i].key].reserved
  }

  lemma DecrementOneMore(was: map<StockKey, Stock>, now: map<StockKey, Stock>, done: HoldTable, i: HoldId, item: HoldItem)
    requires i !in done && item.key in was
    requires Decremented(was, now, done) && Covered(was, done)
    requires item.quantity <= now[item.key].quantity && item.quantity <= now[item.key].reserved
    ensures Decremented(was, LessItem(now, item), done[i := item])
    ensures Covered(was, done[i := item])
  {
    forall k ensures Held(done[i := item], k) == Held(done, k) + QuantityOn(item, k) {
      HeldInsert(done, i, item, k);
    }
  }

  lemma HeldSoFar(db: Db, rid: Id, customer: Id, expiresAt: int, lines: seq<HoldItem>, k: StockKey)
    requires k in Hold(db, rid, customer, expiresAt, lines).stock
    ensures k in db.stock
            && Hold(db, rid, customer, expiresAt, lines).stock[k]
               == Stock(db.stock[k].quantity, db.stock[k].reserved + Demand(lines, k))
  {
  }

  ghost predicate PartlyHeld(swept: Db, now: Db, rid: Id, customer: Id, expiresAt: int, lines: seq<HoldItem>)
  {
    now == Hold(swept, rid, customer, expiresAt, lines) && Fits(swept, lines)
  }

  /** The in-memory copies of the locked rows agree with the table. */
  predicate Mirrors(locked: map<StockKey, Stock>, stock: map<StockKey, Stock>, keys: set<StockKey>)
  {
    locked.Keys == keys <= stock.Keys && forall k | k in keys :: locked[k] == stock[k]
  }

  lemma MirroredLine(locked: map<StockKey, Stock>, stock: map<StockKey, Stock>, lines: seq<HoldItem>, n: nat)
    requires n < |lines| && Mirrors(locked, stock, KeysOf(lines))
    ensures var k := lines[n].key;
            k in locked && k in stock && locked[k] == stock[k]
            && Mirrors(Raised(locked, lines[n]), Raised(stock, lines[n]), KeysOf(lines))
  {
    assert lines[n].key in KeysOf(lines);
    assert Raised(locked, lines[n]).Keys == locked.Keys && Raised(stock, lines[n]).Keys == stock.Keys;
  }

  lemma HoldStart(db: Db, rid: Id, customer: Id, expiresAt: int, lines: seq<HoldItem>)
    ensures PartlyHeld(db, db.(reservations := db.reservations[rid := Reservation(customer, expiresAt)],
                               accepted := db.accepted[rid := map[]]), rid, customer, expiresAt, lines[..0])
  {
    assert lines[..0] == [];
    HoldNothing(db, rid, customer, expiresAt);
  }

  /** The check of one line against the counter so far decides whether the lines up to it fit. */
  lemma HoldStep(swept: Db, now: Db, rid: Id, customer: Id, expiresAt: int, lines: seq<HoldItem>, n: nat)
    requires n < |lines| && lines[n].key in now.stock
    requires PartlyHeld(swept, now, rid, customer, expiresAt, lines[..n])
    ensures rid in now.accepted
    ensures var row := now.stock[lines[n].key];
            if row.quantity - row.reserved < lines[n].quantity then !Fits(swept, lines)
            else PartlyHeld(swept, WithLine(now, rid, n, lines[n]), rid, customer, expiresAt, lines[..n + 1])
  {
    hide Fits, WithLine;
    HeldSoFar(swept, rid, customer, expiresAt, lines[..n], lines[n].key);
    FitsOneMore(swept, lines, n);
    HoldOneMore(swept, rid, customer, expiresAt, lines, n);
    UnfitPrefix(swept, lines, n + 1);
  }

  /** One turn of the write loop: the copy and the table move together. */
  lemma LineStep(swept: Db, now: Db, locked: map<StockKey, Stock>, rid: Id, customer: Id, expiresAt: int,
                 lines: seq<HoldItem>, n: nat)
    requires n < |lines| && Mirrors(locked, now.stock, KeysOf(lines))
    requires PartlyHeld(swept, now, rid, customer, expiresAt, lines[..n])
    ensures var k := lines[n].key;
            k in locked && k in now.stock && rid in now.accepted
            && if locked[k].quantity - locked[k].reserved < lines[n].quantity then !Fits(swept, lines)
               else PartlyHeld(swept, WithLine(now, rid, n, lines[n]), rid, customer, expiresAt, lines[..n + 1])
                    && Mirrors(Raised(locked, lines[n]), Raised(now.stock, lines[n]), KeysOf(lines))
  {
    MirroredLine(locked, now.stock, lines, n);
    hide PartlyHeld, Fits, Mirrors;
    HoldStep(swept, now, rid, customer, expiresAt, lines, n);
  }

  lemma HoldDone(swept: Db, now: Db, rid: Id, customer: Id, expiresAt: int, lines: seq<HoldItem>)
    requires PartlyHeld(swept, now, rid, customer, expiresAt, lines[..|lines|])
    ensures now == Hold(swept, rid, customer, expiresAt, lines) && Fits(swept, lines)
  {
    assert lines[..|lines|] == lines;
  }

  lemma DecrementedAt(was: map<StockKey, Stock>, now: map<StockKey, Stock>, rows: HoldTable, k: StockKey)
    requires Decremented(was, now, rows)
    ensures k in now <==> k in was
    ensures k in was ==> now[k] == Stock(was[k].quantity - Held(rows, k), was[k].reserved - Held(rows, k))
  {
  }

  lemma MoveRow(done: HoldTable, rest: HoldTable, i: HoldId)
    requires i in rest && done.Keys !! rest.Keys
    ensures done[i := rest[i]] + (rest - {i}) == done + rest
    ensures done[i := rest[i]].Keys !! (rest - {i}).Keys
  {
  }

  lemma OverdrawnIsNotCovered(was: map<StockKey, Stock>, done: HoldTable, rest: HoldTable, i: HoldId)
    requires i in rest && done.Keys !! rest.Keys
    requires rest[i].key in was ==>
               was[rest[i].key].quantity < Held(done, rest[i].key) + rest[i].quantity
               || was[rest[i].key].reserved < Held(done, rest[i].key) + rest[i].quantity
    ensures !Covered(was, done + rest)
  {
    var rows := done + rest;
    assert rows[i] == rest[i];
    HeldInsert(done, i, rows[i], rows[i].key);
    HeldMonotone(done[i := rows[i]], rows, rows[i].key);
  }

  ghost predicate PartlyDecremented(was: map<StockKey, Stock>, now: map<StockKey, Stock>,
                                    rows: HoldTable, done: HoldTable, rest: HoldTable)
  {
    && done.Keys !! rest.Keys && done + rest == rows
    && Decremented(was, now, done) && Covered(was, done)
  }

  lemma DecrementStart(was: map<StockKey, Stock>, rows: HoldTable)
    ensures PartlyDecremented(was, was, rows, map[], rows)
  {
    assert map[] + rows == rows;
  }

  /** One guarded decrement either keeps the partial sums or shows that the whole cannot be covered. */
  lemma DecrementStep(was: map<StockKey, Stock>, now: map<StockKey, Stock>,
                      rows: HoldTable, done: HoldTable, rest: HoldTable, i: HoldId)
    requires i in rest && PartlyDecremented(was, now, rows, done, rest)
    ensures if CanTake(now, rest[i])
            then PartlyDecremented(was, LessItem(now, rest[i]), rows, done[i := rest[i]], rest - {i})
            else !Covered(was, rows)
  {
    hide Decremented, Covered;
    MoveRow(done, rest, i);
    DecrementedAt(was, now, done, rest[i].key);
    if CanTake(now, rest[i]) {
      DecrementOneMore(was, now, done, i, rest[i]);
    } else {
      OverdrawnIsNotCovered(was, done, rest, i);
    }
  }

  lemma DecrementDone(was: map<StockKey, Stock>, now: map<StockKey, Stock>, rows: HoldTable, done: HoldTable)
    requires PartlyDecremented(was, now, rows, done, map[])
    ensures Decremented(was, now, rows) && Covered(was, rows)
  {
    assert done + map[] == done;
  }

  /** Creating the empty row before sweeping, as the decrease path does, changes nothing. */
  lemma RowFirstOrLater(before: Db, withRow: Db, k: StockKey, delta: int)
    requires withRow == if k in before.stock then before else before.(stock := before.stock[k := Stock(0, 0)])
    requires k !in before.stock ==> forall i | i in before.items :: before.items[i].key != k
    ensures Adjust(Release(withRow, ExpiredOn(before, {k})), k, delta)
            == Adjust(Release(before, ExpiredOn(before, {k})), k, delta)
  {
    if k !in before.stock {
      assert ExpiredOn(before, {k}) == {};
      ReleaseNothing(before);
      ReleaseNothing(withRow);
    }
  }
}
