/**
 * The rules of a restock on the rows: what one mutation and what a batch accept and write, with the
 * units really held (live hold rows and exchanges) in place of the counters.
 */
module RestockRules {
  import opened Common
  import opened Holds
  import opened Ledger
  import opened HoldLife
  import opened Restock

  /** Units of `k` that live rows and exchanges keep back. */
  ghost function KeptBack(db: Db, live: HoldTable, k: StockKey): int
  {
    Held(live, k) + if k in db.exchange then db.exchange[k] else 0
  }

  lemma SweptRowIs(db: Db, live: HoldTable, k: StockKey)
    requires Inv(db) && AreLiveRows(db, live) && k in db.stock
    ensures SweptRow(db, k) == Stock(db.stock[k].quantity, KeptBack(db, live, k))
  {
    hide Inv, CounterOk, Release, ExpiredOn, Held;
    InvMeansCountersOk(db);
    LiveIsLive(db, live);
    SweptCounterIsLive(db, {k}, k);
    SweepState(db, k);
    SweptKeepsQuantity(db, k);
  }

  /**
   * One mutation: a missing row is made, unless units are to be taken from it; an existing one is
   * swept and gets both deltas, if what is kept back stays between nothing and the quantity.
   */
  lemma OneMutationDoes(db: Db, live: HoldTable, m: Mutation)
    requires Inv(db) && AreLiveRows(db, live)
    ensures var r := ApplyOne(db, m);
            var k := m.key;
            if k in db.stock then
              var row := Stock(db.stock[k].quantity + m.delta, KeptBack(db, live, k) + m.reservedDelta);
              if 0 <= row.reserved && row.reserved <= row.quantity
              then r == Ok(db.(items := map i | i in db.items && (db.items[i].key != k || i in live) :: db.items[i],
                               stock := db.stock[k := row]))
              else r == Err(CheckViolated)
            else if m.delta < 0 then r == Err(NoRowToDecrement)
            else r == Ok(db.(stock := db.stock[k := Stock(m.delta, 0)]))
  {
    hide Inv, Held, KeptBack, SweptRow;
    if m.key in db.stock {
      SweptRowIs(db, live, m.key);
      assert db.items - ExpiredOn(db, {m.key})
             == map i | i in db.items && (db.items[i].key != m.key || i in live) :: db.items[i];
    }
  }

  /** What one more mutation adds to the sums of its target, and to no other. */
  lemma SumsOneMore(ms: seq<Mutation>, m: Mutation, k: StockKey)
    ensures var before, after := TallyOf(ms, k), TallyOf(ms + [m], k);
            if m.key != k then after == before
            else
              && after.delta == before.delta + m.delta && after.reserved == before.reserved + m.reservedDelta
              && (after.alert <==> before.alert || m.siblings != None)
              && forall b :: b in after.siblings <==> b in before.siblings || (m.siblings != None && b in m.siblings.value)
    ensures TallyOf([], k) == Tally(0, 0, false, {})
  {
    RestocksOneMore(ms, m, k);
  }

  /**
   * A batch is accepted exactly when no row is named with two vendors and, target by target, the sums of
   * its deltas leave what is kept back between nothing and the quantity; a missing row only takes units in.
   */
  lemma BatchAcceptsIff(db: Db, live: HoldTable, ms: seq<Mutation>)
    requires Inv(db) && AreLiveRows(db, live)
    ensures Accepted(db, ms) <==>
            && (forall m, n | 0 <= m < |ms| && 0 <= n < |ms| && ms[m].key == ms[n].key :: ms[m].vendor == ms[n].vendor)
            && (forall n | 0 <= n < |ms| ::
                  var k, sums := ms[n].key, TallyOf(ms, ms[n].key);
                  if k in db.stock
                  then 0 <= KeptBack(db, live, k) + sums.reserved <= db.stock[k].quantity + sums.delta
                  else 0 <= sums.delta)
  {
    hide Inv, Held, KeptBack, SweptRow, TallyOf, AreLiveRows;
    forall k | k in db.stock ensures SweptRow(db, k) == Stock(db.stock[k].quantity, KeptBack(db, live, k)) {
      SweptRowIs(db, live, k);
    }
    TargetsLegalIff(db, ms);
    forall n | 0 <= n < |ms|
      ensures Legal(BatchRow(db, ms, ms[n].key)) <==>
              (var k, sums := ms[n].key, TallyOf(ms, ms[n].key);
               if k in db.stock
               then 0 <= KeptBack(db, live, k) + sums.reserved <= db.stock[k].quantity + sums.delta
               else 0 <= sums.delta)
    {
    }
    assert Conflict(ms) <==>
      !(forall m, n | 0 <= m < |ms| && 0 <= n < |ms| && ms[m].key == ms[n].key :: ms[m].vendor == ms[n].vendor);
  }

  lemma TargetsLegalIff(db: Db, ms: seq<Mutation>)
    ensures (forall k | k in Targets(ms) :: Legal(BatchRow(db, ms, k)))
            <==> forall n | 0 <= n < |ms| :: Legal(BatchRow(db, ms, ms[n].key))
  {
    hide BatchRow, Legal;
  }

  /** An accepted batch sweeps its targets, gives each both its sums, and leaves every other row and hold alone. */
  lemma BatchWrites(db: Db, live: HoldTable, ms: seq<Mutation>)
    requires Inv(db) && AreLiveRows(db, live)
    ensures var after := Batch(db, ms);
            && after == db.(items := after.items, stock := after.stock)
            && (forall i :: i in after.items <==>
                  i in db.items && (i in live || forall n | 0 <= n < |ms| :: ms[n].key != db.items[i].key))
            && (forall i | i in after.items :: after.items[i] == db.items[i])
            && (forall n | 0 <= n < |ms| ::
                  var k, sums := ms[n].key, TallyOf(ms, ms[n].key);
                  && k in after.stock
                  && after.stock[k] == if k in db.stock
                                       then Stock(db.stock[k].quantity + sums.delta, KeptBack(db, live, k) + sums.reserved)
                                       else Stock(sums.delta, 0))
            && (forall k | k !in Targets(ms) ::
                  (k in after.stock <==> k in db.stock) && (k in db.stock ==> after.stock[k] == db.stock[k]))
  {
    hide Inv, Held, KeptBack, SweptRow, TallyOf;
    forall k | k in db.stock ensures SweptRow(db, k) == Stock(db.stock[k].quantity, KeptBack(db, live, k)) {
      SweptRowIs(db, live, k);
    }
    var after := Batch(db, ms);
    forall i ensures i in after.items <==>
      i in db.items && (i in live || forall n | 0 <= n < |ms| :: ms[n].key != db.items[i].key)
    {
      if i in db.items {
        assert db.items[i].key in Targets(ms) <==> !(forall n | 0 <= n < |ms| :: ms[n].key != db.items[i].key);
      }
    }
    forall n | 0 <= n < |ms| ensures ms[n].key in Targets(ms) {
    }
  }
}
