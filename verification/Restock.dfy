/**
 * Batched restock. One call changes many stock rows from a single snapshot: mutations with the
 * same target are merged first, sweeps and deltas are folded into one write per row, and
 * offer-wide totals before and after are reported. It is proved against a row-by-row
 * description and compared with applying the mutations one at a time.
 */
module Restock {
  import opened Common
  import opened Holds
  import opened Ledger
  import CheckoutService

  /** `siblings` marks a mutation whose offer-wide totals are wanted. */
  datatype Mutation = Mutation(vendor: Id, key: StockKey, delta: int, reservedDelta: int, siblings: Option<seq<Id>>)

  datatype RestockError = ConflictingVendor | NoRowToDecrement | CheckViolated

  datatype Outcome = Outcome(row: Stock, before: Option<int>, after: Option<int>)

  // ---- what a list of mutations adds up to, key by key

  datatype Tally = Tally(delta: int, reserved: int, alert: bool, siblings: set<Id>)

  function SetOf(s: seq<Id>): set<Id>
  {
    set n | 0 <= n < |s| :: s[n]
  }

  function Add(t: Tally, m: Mutation): Tally
  {
    Tally(t.delta + m.delta, t.reserved + m.reservedDelta, t.alert || m.siblings.Some?,
          t.siblings + if m.siblings.Some? then SetOf(m.siblings.value) else {})
  }

  function TallyOf(ms: seq<Mutation>, k: StockKey): Tally
  {
    if ms == [] then Tally(0, 0, false, {})
    else
      var last := ms[|ms| - 1];
      var rest := TallyOf(ms[..|ms| - 1], k);
      if last.key == k then Add(rest, last) else rest
  }

  function Targets(ms: seq<Mutation>): set<StockKey>
  {
    set n | 0 <= n < |ms| :: ms[n].key
  }

  predicate Conflict(ms: seq<Mutation>)
  {
    exists m, n | 0 <= m < n < |ms| :: ms[m].key == ms[n].key && ms[m].vendor != ms[n].vendor
  }

  // ---- one mutation on its own

  /** The table's CHECK constraints. */
  predicate Legal(row: Stock)
  {
    0 <= row.reserved <= row.quantity
  }

  /** The row of `k` after sweeping its expired holds. */
  ghost function SweptRow(db: Db, k: StockKey): Stock
    requires k in db.stock
  {
    db.stock[k].(reserved := db.stock[k].reserved - Held(Restrict(db.items, ExpiredOn(db, {k})), k))
  }

  ghost function ApplyOne(db: Db, m: Mutation): Result<Db, RestockError>
  {
    if m.key in db.stock then
      var swept := SweptRow(db, m.key);
      var row := Stock(swept.quantity + m.delta, swept.reserved + m.reservedDelta);
      if Legal(row) then Ok(db.(items := db.items - ExpiredOn(db, {m.key}), stock := db.stock[m.key := row]))
      else Err(CheckViolated)
    else if m.delta < 0 then Err(NoRowToDecrement)
    else Ok(db.(stock := db.stock[m.key := Stock(m.delta, 0)]))
  }

  ghost function OneAtATime(db: Db, ms: seq<Mutation>): Result<Db, RestockError>
  {
    if ms == [] then Ok(db)
    else
      match OneAtATime(db, ms[..|ms| - 1])
      case Err(e) => Err(e)
      case Ok(mid) => ApplyOne(mid, ms[|ms| - 1])
  }

  // ---- the whole batch, described row by row from the state before it

  ghost function BatchRow(db: Db, ms: seq<Mutation>, k: StockKey): Stock
  {
    var t := TallyOf(ms, k);
    if k in db.stock
    then Stock(db.stock[k].quantity + t.delta, SweptRow(db, k).reserved + t.reserved)
    else Stock(t.delta, 0)
  }

  ghost predicate Accepted(db: Db, ms: seq<Mutation>)
  {
    !Conflict(ms) && forall k | k in Targets(ms) :: Legal(BatchRow(db, ms, k))
  }

  function SweptBy(db: Db, ms: seq<Mutation>): set<HoldId>
  {
    ExpiredOn(db, Targets(ms))
  }

  /** Stock rows are never deleted, so every hold row sits on one. */
  predicate HoldsHaveRows(db: Db)
  {
    forall i | i in db.items :: db.items[i].key in db.stock
  }

  ghost function Batch(db: Db, ms: seq<Mutation>): Db
  {
    db.(items := db.items - SweptBy(db, ms),
        stock := map k | k in db.stock.Keys + Targets(ms) ::
                   if k in Targets(ms) then BatchRow(db, ms, k) else db.stock[k])
  }

  // ---- one at a time, described the same way

  /** The reserved deltas after the first mutation on `k`: all that counts when the row is new. */
  function LateReserved(ms: seq<Mutation>, k: StockKey): int
  {
    if ms == [] then 0
    else
      var last := ms[|ms| - 1];
      var rest := LateReserved(ms[..|ms| - 1], k);
      if last.key == k && k in Targets(ms[..|ms| - 1]) then rest + last.reservedDelta else rest
  }

  ghost function SerialRow(db: Db, ms: seq<Mutation>, k: StockKey): Stock
  {
    if k in db.stock then BatchRow(db, ms, k) else Stock(TallyOf(ms, k).delta, LateReserved(ms, k))
  }

  ghost function Serial(db: Db, ms: seq<Mutation>): Db
  {
    db.(items := db.items - SweptBy(db, ms),
        stock := map k | k in db.stock.Keys + Targets(ms) ::
                   if k in Targets(ms) then SerialRow(db, ms, k) else db.stock[k])
  }

  lemma {:induction false} Untargeted(ms: seq<Mutation>, k: StockKey)
    requires k !in Targets(ms)
    ensures TallyOf(ms, k) == Tally(0, 0, false, {}) && LateReserved(ms, k) == 0
  {
    if ms != [] { Untargeted(ms[..|ms| - 1], k); }
  }

  lemma TargetsSnoc(ms: seq<Mutation>)
    requires ms != []
    ensures Targets(ms) == Targets(ms[..|ms| - 1]) + {ms[|ms| - 1].key}
  {
  }

  /** A key swept already, or created by the batch, has nothing left to sweep. */
  lemma SweptOnce(db: Db, ms: seq<Mutation>, k: StockKey)
    requires HoldsHaveRows(db) && k in Targets(ms)
    ensures ExpiredOn(Serial(db, ms), {k}) == {}
    ensures Held(Restrict(Serial(db, ms).items, ExpiredOn(Serial(db, ms), {k})), k) == 0
  {
    var mid := Serial(db, ms);
    forall i | i in mid.items && mid.items[i].key == k ensures !Expired(mid, i.reservation) {
      assert i !in SweptBy(db, ms);
    }
    assert Restrict(mid.items, ExpiredOn(mid, {k})) == map[];
  }

  /** A key not swept yet has the same rows to sweep as at the start. */
  lemma NotSweptYet(db: Db, ms: seq<Mutation>, k: StockKey)
    requires k !in Targets(ms)
    ensures ExpiredOn(Serial(db, ms), {k}) == ExpiredOn(db, {k})
    ensures Restrict(Serial(db, ms).items, ExpiredOn(db, {k})) == Restrict(db.items, ExpiredOn(db, {k}))
  {
    var mid := Serial(db, ms);
    forall i | i in db.items && db.items[i].key == k ensures i in mid.items && mid.items[i] == db.items[i] {
    }
    assert forall rid :: Expired(mid, rid) == Expired(db, rid);
  }

  lemma SerialStepItems(db: Db, ms: seq<Mutation>, m: Mutation)
    requires HoldsHaveRows(db)
    ensures Serial(db, ms).items - ExpiredOn(Serial(db, ms), {m.key}) == Serial(db, ms + [m]).items
  {
    var mid, all, k := Serial(db, ms), ms + [m], m.key;
    assert all[..|all| - 1] == ms;
    TargetsSnoc(all);
    assert SweptBy(db, all) == SweptBy(db, ms) + ExpiredOn(db, {k});
    if k in Targets(ms) {
      SweptOnce(db, ms, k);
      assert Targets(all) == Targets(ms);
    } else {
      NotSweptYet(db, ms, k);
    }
  }

  lemma NoHoldsOnANewRow(db: Db, ms: seq<Mutation>, k: StockKey)
    requires HoldsHaveRows(db) && k !in db.stock
    ensures ExpiredOn(Serial(db, ms), {k}) == {}
  {
  }

  /** The row a serial step writes to `m.key`. */
  ghost function StepRow(mid: Db, m: Mutation): Stock
  {
    if m.key in mid.stock
    then Stock(SweptRow(mid, m.key).quantity + m.delta, SweptRow(mid, m.key).reserved + m.reservedDelta)
    else Stock(m.delta, 0)
  }

  lemma SerialStepRow(db: Db, ms: seq<Mutation>, m: Mutation)
    requires HoldsHaveRows(db)
    ensures SerialRow(db, ms + [m], m.key) == StepRow(Serial(db, ms), m)
  {
    var mid, all, k := Serial(db, ms), ms + [m], m.key;
    assert all[..|all| - 1] == ms;
    if k !in Targets(ms) {
      Untargeted(ms, k);
      NotSweptYet(db, ms, k);
    } else {
      SweptOnce(db, ms, k);
    }
  }

  lemma SerialStepStock(db: Db, ms: seq<Mutation>, m: Mutation)
    requires HoldsHaveRows(db)
    ensures Serial(db, ms + [m]).stock == Serial(db, ms).stock[m.key := StepRow(Serial(db, ms), m)]
  {
    var all := ms + [m];
    assert all[..|all| - 1] == ms;
    TargetsSnoc(all);
    SerialStepRow(db, ms, m);
    hide StepRow, SweptRow;
    forall j | j != m.key ensures SerialRow(db, all, j) == SerialRow(db, ms, j) {
    }
  }

  lemma ApplyOneWrites(mid: Db, m: Mutation)
    requires ApplyOne(mid, m).Ok? && (m.key !in mid.stock ==> ExpiredOn(mid, {m.key}) == {})
    ensures ApplyOne(mid, m).value ==
            mid.(items := mid.items - ExpiredOn(mid, {m.key}), stock := mid.stock[m.key := StepRow(mid, m)])
  {
    if m.key !in mid.stock { assert mid.items - {} == mid.items; }
  }

  /** Applying mutations one at a time leaves every row as the row-by-row description says. */
  lemma {:induction false} OneAtATimeIsSerial(db: Db, ms: seq<Mutation>)
    requires HoldsHaveRows(db) && OneAtATime(db, ms).Ok?
    ensures OneAtATime(db, ms).value == Serial(db, ms)
  {
    if ms == [] {
      assert SweptBy(db, ms) == {} && db.items - {} == db.items;
      assert Serial(db, ms).stock == db.stock;
    } else {
      var n := |ms| - 1;
      var first, m := ms[..n], ms[n];
      OneAtATimeIsSerial(db, first);
      assert first + [m] == ms;
      var mid := Serial(db, first);
      if m.key !in mid.stock { NoHoldsOnANewRow(db, first, m.key); }
      ApplyOneWrites(mid, m);
      SerialStepItems(db, first, m);
      SerialStepStock(db, first, m);
    }
  }

  lemma ApplyOneLegal(mid: Db, m: Mutation)
    ensures ApplyOne(mid, m).Ok? <==> Legal(StepRow(mid, m))
  {
  }

  lemma {:induction false} SerialRowsLegal(db: Db, ms: seq<Mutation>, k: StockKey)
    requires HoldsHaveRows(db) && OneAtATime(db, ms).Ok? && k in Targets(ms)
    ensures Legal(SerialRow(db, ms, k))
  {
    var n := |ms| - 1;
    var first, m := ms[..n], ms[n];
    assert first + [m] == ms;
    OneAtATimeIsSerial(db, first);
    if k == m.key {
      SerialStepRow(db, first, m);
      ApplyOneLegal(Serial(db, first), m);
    } else {
      SerialRowsLegal(db, first, k);
    }
  }

  /**
   * Merging and one-pass writing against one-at-a-time application: whenever every single step
   * would be accepted the batch is too, and the final state is the same exactly when, on every
   * row that did not exist yet, the reserved deltas after the first mutation add up to nothing.
   */
  lemma BatchMatchesOneAtATime(db: Db, ms: seq<Mutation>)
    requires HoldsHaveRows(db) && OneAtATime(db, ms).Ok? && !Conflict(ms)
    ensures Accepted(db, ms)
    ensures Batch(db, ms) == OneAtATime(db, ms).value
            <==> forall k | k in Targets(ms) && k !in db.stock :: LateReserved(ms, k) == 0
  {
    OneAtATimeIsSerial(db, ms);
    forall k | k in Targets(ms) ensures Legal(BatchRow(db, ms, k)) {
      SerialRowsLegal(db, ms, k);
    }
    BatchIsSerialIff(db, ms);
  }

  lemma BatchIsSerialIff(db: Db, ms: seq<Mutation>)
    ensures Batch(db, ms) == Serial(db, ms) <==> forall k | k in Targets(ms) && k !in db.stock :: LateReserved(ms, k) == 0
  {
    hide SweptRow, SweptBy;
    var b, o := Batch(db, ms), Serial(db, ms);
    if forall k | k in Targets(ms) && k !in db.stock :: LateReserved(ms, k) == 0 {
      assert b.stock == o.stock;
    } else {
      var k :| k in Targets(ms) && k !in db.stock && LateReserved(ms, k) != 0;
      assert b.stock[k] != o.stock[k];
    }
  }

  // ---- order does not matter to a batch

  lemma {:induction false} TallyRemove(ms: seq<Mutation>, n: nat, k: StockKey)
    requires n < |ms|
    ensures TallyOf(ms, k) == (if ms[n].key == k then Add(TallyOf(ms[..n] + ms[n + 1..], k), ms[n])
                               else TallyOf(ms[..n] + ms[n + 1..], k))
  {
    var last := |ms| - 1;
    if n == last {
      assert ms[..n] + ms[n + 1..] == ms[..last];
    } else {
      var rest := ms[..n] + ms[n + 1..];
      assert rest[..|rest| - 1] == ms[..last][..n] + ms[..last][n + 1..] && rest[|rest| - 1] == ms[last];
      TallyRemove(ms[..last], n, k);
    }
  }

  lemma {:induction false} TallyIgnoresOrder(ms: seq<Mutation>, ps: seq<Mutation>, k: StockKey)
    requires multiset(ms) == multiset(ps)
    ensures TallyOf(ms, k) == TallyOf(ps, k)
    decreases |ms|
  {
    if ms == [] {
      assert |multiset(ps)| == 0;
    } else {
      var last := |ms| - 1;
      assert ms == ms[..last] + [ms[last]];
      assert ms[last] in multiset(ps);
      var n :| 0 <= n < |ps| && ps[n] == ms[last];
      var rest := ps[..n] + ps[n + 1..];
      assert ps == ps[..n] + [ps[n]] + ps[n + 1..];
      assert multiset(ps) == multiset(rest) + multiset{ps[n]};
      assert multiset(ms) == multiset(ms[..last]) + multiset{ms[last]};
      assert multiset(rest) == multiset(ps) - multiset{ps[n]};
      assert multiset(ms[..last]) == multiset(ms) - multiset{ms[last]};
      TallyIgnoresOrder(ms[..last], rest, k);
      TallyRemove(ps, n, k);
    }
  }

  lemma SameTargets(ms: seq<Mutation>, ps: seq<Mutation>)
    requires multiset(ms) == multiset(ps)
    ensures Targets(ms) == Targets(ps) && (Conflict(ms) <==> Conflict(ps))
  {
    SameTargetsOneWay(ms, ps);
    SameTargetsOneWay(ps, ms);
  }

  lemma SameTargetsOneWay(ms: seq<Mutation>, ps: seq<Mutation>)
    requires multiset(ms) == multiset(ps)
    ensures Targets(ms) <= Targets(ps) && (Conflict(ms) ==> Conflict(ps))
  {
    forall n | 0 <= n < |ms| ensures exists p :: 0 <= p < |ps| && ps[p] == ms[n] {
      assert ms[n] in multiset(ps);
    }
    forall k | k in Targets(ms) ensures k in Targets(ps) {
      var n :| 0 <= n < |ms| && ms[n].key == k;
      var p :| 0 <= p < |ps| && ps[p] == ms[n];
    }
    if Conflict(ms) {
      var m, n :| 0 <= m < n < |ms| && ms[m].key == ms[n].key && ms[m].vendor != ms[n].vendor;
      var p :| 0 <= p < |ps| && ps[p] == ms[m];
      var q :| 0 <= q < |ps| && ps[q] == ms[n];
      assert p < q || q < p;
    }
  }

  /** Listing the same mutations in another order gives the same verdict and the same final state. */
  lemma BatchIgnoresOrder(db: Db, ms: seq<Mutation>, ps: seq<Mutation>)
    requires multiset(ms) == multiset(ps)
    ensures (Accepted(db, ms) <==> Accepted(db, ps)) && Batch(db, ms) == Batch(db, ps)
  {
    SameTargets(ms, ps);
    forall k ensures TallyOf(ms, k) == TallyOf(ps, k) {
      TallyIgnoresOrder(ms, ps, k);
    }
    assert forall k :: BatchRow(db, ms, k) == BatchRow(db, ps, k);
    assert Batch(db, ms).stock == Batch(db, ps).stock;
  }

  // ---- merged lists: one mutation per target

  predicate OnePerTarget(ms: seq<Mutation>)
  {
    forall m, n | 0 <= m < n < |ms| :: ms[m].key != ms[n].key
  }

  lemma {:induction false} NothingLate(ms: seq<Mutation>, k: StockKey)
    requires OnePerTarget(ms)
    ensures LateReserved(ms, k) == 0
  {
    if ms != [] { NothingLate(ms[..|ms| - 1], k); }
  }

  lemma {:induction false} MergedListIsBatch(db: Db, ms: seq<Mutation>)
    requires HoldsHaveRows(db) && OnePerTarget(ms)
    ensures OneAtATime(db, ms).Ok? <==> Accepted(db, ms)
    ensures OneAtATime(db, ms).Ok? ==> OneAtATime(db, ms).value == Batch(db, ms)
  {
    if ms == [] {
      BatchMatchesOneAtATime(db, ms);
    } else {
      var n := |ms| - 1;
      var first, m := ms[..n], ms[n];
      assert first + [m] == ms;
      MergedListIsBatch(db, first);
      TargetsSnoc(ms);
      forall k ensures LateReserved(ms, k) == 0 { NothingLate(ms, k); }
      assert forall k | k in Targets(first) :: BatchRow(db, first, k) == BatchRow(db, ms, k);
      if OneAtATime(db, first).Ok? {
        OneAtATimeIsSerial(db, first);
        ApplyOneLegal(Serial(db, first), m);
        SerialStepRow(db, first, m);
        assert SerialRow(db, ms, m.key) == BatchRow(db, ms, m.key);
        if OneAtATime(db, ms).Ok? { BatchMatchesOneAtATime(db, ms); }
      }
    }
  }

  /** Two lists with the same targets and sums are the same batch. */
  lemma SameSumsSameBatch(db: Db, ms: seq<Mutation>, ps: seq<Mutation>)
    requires Targets(ms) == Targets(ps) && !Conflict(ms) && !Conflict(ps)
    requires forall k | k in Targets(ms) :: TallyOf(ms, k) == TallyOf(ps, k)
    ensures (Accepted(db, ms) <==> Accepted(db, ps)) && Batch(db, ms) == Batch(db, ps)
  {
    assert forall k | k in Targets(ms) :: BatchRow(db, ms, k) == BatchRow(db, ps, k);
    assert Batch(db, ms).stock == Batch(db, ps).stock;
  }

  // ---- merging

  function Dedup(s: seq<Id>): seq<Id>
  {
    if s == [] then []
    else
      var rest, last := Dedup(s[..|s| - 1]), s[|s| - 1];
      if last in s[..|s| - 1] then rest else rest + [last]
  }

  predicate NoRepeats(s: seq<Id>)
  {
    forall m, n | 0 <= m < n < |s| :: s[m] != s[n]
  }

  lemma {:induction false} DedupKeepsElements(s: seq<Id>)
    ensures SetOf(Dedup(s)) == SetOf(s) && NoRepeats(Dedup(s))
  {
    if s != [] {
      var n := |s| - 1;
      DedupKeepsElements(s[..n]);
      assert forall x :: x in Dedup(s[..n]) <==> x in SetOf(Dedup(s[..n]));
      assert forall x :: x in s[..n] <==> x in SetOf(s[..n]);
      assert s == s[..n] + [s[n]];
      SetOfConcat(s[..n], [s[n]]);
      SetOfConcat(Dedup(s[..n]), [s[n]]);
      assert [s[n]][0] == s[n];
    }
  }

  /** Two mutations of one target as one. */
  function Combine(a: Mutation, b: Mutation): Mutation
  {
    a.(delta := a.delta + b.delta, reservedDelta := a.reservedDelta + b.reservedDelta,
       siblings := if b.siblings.None? then a.siblings
                   else Some(Dedup((if a.siblings.Some? then a.siblings.value else []) + b.siblings.value)))
  }

  /** `m` carries everything the mutations on `k` add up to. */
  predicate StandsFor(m: Mutation, k: StockKey, t: Tally)
  {
    && m.key == k && m.delta == t.delta && m.reservedDelta == t.reserved && m.siblings.Some? == t.alert
    && t.siblings == if m.siblings.Some? then SetOf(m.siblings.value) else {}
  }

  predicate Tidy(m: Mutation)
  {
    m.siblings.Some? ==> NoRepeats(m.siblings.value)
  }

  lemma CombineStands(a: Mutation, b: Mutation, t: Tally)
    requires StandsFor(a, b.key, t)
    ensures StandsFor(Combine(a, b), b.key, Add(t, b)) && (Tidy(a) ==> Tidy(Combine(a, b)))
  {
    if b.siblings.Some? {
      var had := if a.siblings.Some? then a.siblings.value else [];
      DedupKeepsElements(had + b.siblings.value);
      SetOfConcat(had, b.siblings.value);
    }
  }

  lemma SetOfConcat(a: seq<Id>, b: seq<Id>)
    ensures SetOf(a + b) == SetOf(a) + SetOf(b)
  {
    forall x | x in SetOf(b) ensures x in SetOf(a + b) {
      var n :| 0 <= n < |b| && b[n] == x;
      assert (a + b)[|a| + n] == x;
    }
    forall x | x in SetOf(a) ensures x in SetOf(a + b) {
      var n :| 0 <= n < |a| && a[n] == x;
      assert (a + b)[n] == x;
    }
  }

  predicate InOrder(order: seq<StockKey>, keys: set<StockKey>)
  {
    (forall m, n | 0 <= m < n < |order| :: order[m] != order[n]) && keys == set n | 0 <= n < |order| :: order[n]
  }

  ghost predicate AllStand(ms: seq<Mutation>, merged: map<StockKey, Mutation>)
  {
    forall k | k in merged :: StandsFor(merged[k], k, TallyOf(ms, k))
  }

  predicate VendorsAgree(ms: seq<Mutation>, merged: map<StockKey, Mutation>)
  {
    forall n | 0 <= n < |ms| :: ms[n].key in merged && merged[ms[n].key].vendor == ms[n].vendor
  }

  predicate AllTidy(ms: seq<Mutation>)
  {
    forall n | 0 <= n < |ms| :: Tidy(ms[n])
  }

  predicate TidyKept(ms: seq<Mutation>, merged: map<StockKey, Mutation>)
  {
    AllTidy(ms) ==> forall k | k in merged :: Tidy(merged[k])
  }

  ghost predicate Merged(ms: seq<Mutation>, order: seq<StockKey>, merged: map<StockKey, Mutation>)
  {
    && InOrder(order, merged.Keys) && merged.Keys == Targets(ms) && !Conflict(ms)
    && AllStand(ms, merged) && VendorsAgree(ms, merged) && TidyKept(ms, merged)
  }

  lemma MergedNothing()
    ensures Merged([], [], map[])
  {
  }

  lemma NoConflictSnoc(ms: seq<Mutation>, m: Mutation)
    ensures Conflict(ms + [m]) <==> Conflict(ms) || exists n :: 0 <= n < |ms| && ms[n].key == m.key && ms[n].vendor != m.vendor
  {
    var all := ms + [m];
    if n :| 0 <= n < |ms| && ms[n].key == m.key && ms[n].vendor != m.vendor {
      assert all[n].key == all[|ms|].key && all[n].vendor != all[|ms|].vendor;
    }
    if Conflict(ms) {
      var i, j :| 0 <= i < j < |ms| && ms[i].key == ms[j].key && ms[i].vendor != ms[j].vendor;
      assert all[i].key == all[j].key && all[i].vendor != all[j].vendor;
    }
  }

  /** What the merge step stores for `m.key`. */
  function Put(merged: map<StockKey, Mutation>, m: Mutation): Mutation
  {
    if m.key in merged then Combine(merged[m.key], m) else m
  }

  lemma PutStands(ms: seq<Mutation>, merged: map<StockKey, Mutation>, m: Mutation)
    requires AllStand(ms, merged) && merged.Keys == Targets(ms)
    ensures AllStand(ms + [m], merged[m.key := Put(merged, m)])
  {
    var all := ms + [m];
    assert all[..|all| - 1] == ms;
    if m.key in merged { CombineStands(merged[m.key], m, TallyOf(ms, m.key)); } else { Untargeted(ms, m.key); }
  }

  lemma PutKeepsVendors(ms: seq<Mutation>, merged: map<StockKey, Mutation>, m: Mutation)
    requires VendorsAgree(ms, merged) && (m.key in merged ==> merged[m.key].vendor == m.vendor)
    ensures VendorsAgree(ms + [m], merged[m.key := Put(merged, m)])
  {
  }

  lemma PutKeepsTidy(ms: seq<Mutation>, merged: map<StockKey, Mutation>, m: Mutation)
    requires TidyKept(ms, merged) && AllStand(ms, merged)
    ensures TidyKept(ms + [m], merged[m.key := Put(merged, m)])
  {
    var all := ms + [m];
    if AllTidy(all) {
      assert all[|ms|] == m && forall n | 0 <= n < |ms| :: all[n] == ms[n];
      if m.key in merged { CombineStands(merged[m.key], m, TallyOf(ms, m.key)); }
    }
  }

  lemma MergeStep(ms: seq<Mutation>, order: seq<StockKey>, merged: map<StockKey, Mutation>, m: Mutation)
    requires Merged(ms, order, merged)
    requires m.key in merged ==> merged[m.key].vendor == m.vendor
    ensures Merged(ms + [m], if m.key in merged then order else order + [m.key], merged[m.key := Put(merged, m)])
  {
    PutStands(ms, merged, m);
    PutKeepsVendors(ms, merged, m);
    PutKeepsTidy(ms, merged, m);
    NoConflictSnoc(ms, m);
    hide AllStand, TidyKept, InOrder, Conflict;
    var all := ms + [m];
    assert all[..|all| - 1] == ms;
    TargetsSnoc(all);
    if m.key in merged {
      assert merged[m.key := Put(merged, m)].Keys == merged.Keys;
    } else {
      OrderGrows(order, merged.Keys, m.key);
      assert merged[m.key := Put(merged, m)].Keys == merged.Keys + {m.key};
    }
  }

  lemma ConflictFound(ms: seq<Mutation>, n: nat, order: seq<StockKey>, merged: map<StockKey, Mutation>)
    requires n < |ms| && Merged(ms[..n], order, merged)
    requires ms[n].key in merged && merged[ms[n].key].vendor != ms[n].vendor
    ensures Conflict(ms)
  {
    assert ms[n].key in Targets(ms[..n]);
    var j :| 0 <= j < n && ms[..n][j].key == ms[n].key;
    assert ms[j].key == ms[n].key && ms[j].vendor != ms[n].vendor;
  }

  lemma OrderGrows(order: seq<StockKey>, keys: set<StockKey>, k: StockKey)
    requires InOrder(order, keys) && k !in keys
    ensures InOrder(order + [k], keys + {k})
  {
    var all := order + [k];
    forall j | j in keys ensures exists n :: 0 <= n < |all| && all[n] == j {
      var n :| 0 <= n < |order| && order[n] == j;
      assert all[n] == j;
    }
    assert all[|order|] == k;
  }

  lemma MergedIsConflictFree(ms: seq<Mutation>, order: seq<StockKey>, merged: map<StockKey, Mutation>)
    requires Merged(ms, order, merged)
    ensures !Conflict(ms)
  {
  }

  function Listed(order: seq<StockKey>, merged: map<StockKey, Mutation>): seq<Mutation>
    requires forall n | 0 <= n < |order| :: order[n] in merged
  {
    seq(|order|, n requires 0 <= n < |order| => merged[order[n]])
  }

  lemma {:induction false} TallyOfOne(list: seq<Mutation>, n: nat)
    requires OnePerTarget(list) && n < |list|
    ensures TallyOf(list, list[n].key) == Add(Tally(0, 0, false, {}), list[n])
  {
    var last := |list| - 1;
    if n < last {
      TallyOfOne(list[..last], n);
    } else {
      Untargeted(list[..last], list[n].key);
    }
  }

  /** A list is the merge of `ms`: one mutation per target, with the same sums. */
  ghost predicate IsMergeOf(list: seq<Mutation>, ms: seq<Mutation>)
  {
    && OnePerTarget(list) && Targets(list) == Targets(ms)
    && (forall n | 0 <= n < |list| :: StandsFor(list[n], list[n].key, TallyOf(ms, list[n].key)))
    && (AllTidy(ms) ==> AllTidy(list))
  }

  lemma ListedIsMerge(ms: seq<Mutation>, order: seq<StockKey>, merged: map<StockKey, Mutation>)
    requires Merged(ms, order, merged)
    ensures forall n | 0 <= n < |order| :: order[n] in merged
    ensures IsMergeOf(Listed(order, merged), ms)
  {
    hide Merged, AllTidy, TallyOf, IsMergeOf, Conflict;
    MergedParts(ms, order, merged);
    assert forall n | 0 <= n < |order| :: order[n] in merged.Keys;
    ListedHas(ms, order, merged);
    ListedTargets(order, merged);
    IsMergeFrom(Listed(order, merged), ms);
  }

  lemma MergedParts(ms: seq<Mutation>, order: seq<StockKey>, merged: map<StockKey, Mutation>)
    requires Merged(ms, order, merged)
    ensures InOrder(order, merged.Keys) && merged.Keys == Targets(ms) && AllStand(ms, merged) && TidyKept(ms, merged)
  {
  }

  lemma IsMergeFrom(list: seq<Mutation>, ms: seq<Mutation>)
    requires OnePerTarget(list) && Targets(list) == Targets(ms)
    requires forall n | 0 <= n < |list| :: StandsFor(list[n], list[n].key, TallyOf(ms, list[n].key))
    requires AllTidy(ms) ==> AllTidy(list)
    ensures IsMergeOf(list, ms)
  {
  }

  lemma ListedHas(ms: seq<Mutation>, order: seq<StockKey>, merged: map<StockKey, Mutation>)
    requires InOrder(order, merged.Keys) && AllStand(ms, merged) && TidyKept(ms, merged)
    ensures forall n | 0 <= n < |order| :: order[n] in merged
    ensures var list := Listed(order, merged);
            && OnePerTarget(list)
            && (forall n | 0 <= n < |list| :: StandsFor(list[n], list[n].key, TallyOf(ms, list[n].key)))
            && (AllTidy(ms) ==> AllTidy(list))
  {
    hide TallyOf;
    assert forall n | 0 <= n < |order| :: order[n] in merged.Keys;
  }

  lemma ListedTargets(order: seq<StockKey>, merged: map<StockKey, Mutation>)
    requires InOrder(order, merged.Keys) && forall k | k in merged :: merged[k].key == k
    ensures forall n | 0 <= n < |order| :: order[n] in merged
    ensures Targets(Listed(order, merged)) == merged.Keys
  {
    assert forall n | 0 <= n < |order| :: order[n] in merged.Keys;
    var list := Listed(order, merged);
    forall k | k in merged.Keys ensures k in Targets(list) {
      var n :| 0 <= n < |order| && order[n] == k;
      assert list[n].key == k;
    }
  }

  lemma MergeIsSameBatch(db: Db, ms: seq<Mutation>, list: seq<Mutation>)
    requires IsMergeOf(list, ms) && !Conflict(ms)
    ensures (Accepted(db, list) <==> Accepted(db, ms)) && Batch(db, list) == Batch(db, ms)
  {
    forall k | k in Targets(list) ensures TallyOf(list, k) == TallyOf(ms, k) {
      var n :| 0 <= n < |list| && list[n].key == k;
      TallyOfOne(list, n);
    }
    SameSumsSameBatch(db, ms, list);
  }

  /** Merge mutations by target, keeping the order of first appearance. */
  method Normalize(ms: seq<Mutation>) returns (r: Result<seq<Mutation>, RestockError>)
    ensures r.Err? <==> Conflict(ms)
    ensures r.Err? ==> r.error == ConflictingVendor
    ensures r.Ok? ==> IsMergeOf(r.value, ms)
  {
    var merged: map<StockKey, Mutation> := map[];
    var order: seq<StockKey> := [];
    MergedNothing();
    hide Merged, Conflict, Combine, IsMergeOf, Listed;
    for n := 0 to |ms|
      invariant Merged(ms[..n], order, merged)
    {
      var m := ms[n];
      assert ms[..n + 1] == ms[..n] + [m];
      if m.key in merged && merged[m.key].vendor != m.vendor {
        ConflictFound(ms, n, order, merged);
        return Err(ConflictingVendor);
      }
      MergeStep(ms[..n], order, merged, m);
      if m.key !in merged {
        merged, order := merged[m.key := m], order + [m.key];
      } else {
        merged := merged[m.key := Combine(merged[m.key], m)];
      }
    }
    assert ms[..|ms|] == ms;
    MergedIsConflictFree(ms, order, merged);
    ListedIsMerge(ms, order, merged);
    r := Ok(Listed(order, merged));
  }

  // ---- offer-wide totals

  function QuantityIn(rows: map<StockKey, Stock>, k: StockKey): int
  {
    if k in rows then rows[k].quantity else 0
  }

  ghost function PickBranch(branches: set<Id>): (b: Id)
    requires branches != {}
    ensures b in branches
  {
    var b :| b in branches;
    b
  }

  /** Units of `variant` over `branches`, each branch once. */
  ghost function TotalOver(rows: map<StockKey, Stock>, variant: Id, branches: set<Id>): int
    decreases |branches|
  {
    if branches == {} then 0
    else
      var b := PickBranch(branches);
      QuantityIn(rows, StockKey(b, variant)) + TotalOver(rows, variant, branches - {b})
  }

  lemma {:induction false} TotalRemove(rows: map<StockKey, Stock>, variant: Id, branches: set<Id>, b: Id)
    requires b in branches
    ensures TotalOver(rows, variant, branches)
            == QuantityIn(rows, StockKey(b, variant)) + TotalOver(rows, variant, branches - {b})
    decreases |branches|
  {
    var c := PickBranch(branches);
    if b != c {
      TotalRemove(rows, variant, branches - {c}, b);
      TotalRemove(rows, variant, branches - {b}, c);
      assert (branches - {c}) - {b} == (branches - {b}) - {c};
    }
  }

  lemma {:induction false} SameRowsSameTotal(rows: map<StockKey, Stock>, other: map<StockKey, Stock>, variant: Id,
                                             branches: set<Id>)
    requires forall b | b in branches :: QuantityIn(rows, StockKey(b, variant)) == QuantityIn(other, StockKey(b, variant))
    ensures TotalOver(rows, variant, branches) == TotalOver(other, variant, branches)
    decreases |branches|
  {
    if branches != {} { SameRowsSameTotal(rows, other, variant, branches - {PickBranch(branches)}); }
  }

  /** What the code adds up: the list, branch by branch, whatever it contains. */
  function ListTotal(rows: map<StockKey, Stock>, variant: Id, branches: seq<Id>): int
  {
    if branches == [] then 0
    else
      var last := |branches| - 1;
      ListTotal(rows, variant, branches[..last]) + QuantityIn(rows, StockKey(branches[last], variant))
  }

  lemma {:induction false} ListTotalIsTotal(rows: map<StockKey, Stock>, variant: Id, branches: seq<Id>)
    requires NoRepeats(branches)
    ensures ListTotal(rows, variant, branches) == TotalOver(rows, variant, SetOf(branches))
  {
    if branches == [] {
      assert SetOf(branches) == {};
    } else {
      var n := |branches| - 1;
      ListTotalIsTotal(rows, variant, branches[..n]);
      assert branches == branches[..n] + [branches[n]];
      SetOfConcat(branches[..n], [branches[n]]);
      assert [branches[n]][0] == branches[n];
      assert SetOf(branches) - {branches[n]} == SetOf(branches[..n]);
      TotalRemove(rows, variant, SetOf(branches), branches[n]);
    }
  }

  /** `before`, and `after` once the target holds `row`, as computed from the snapshot. */
  function BeforeOf(rows: map<StockKey, Stock>, m: Mutation): Option<int>
  {
    if m.siblings.None? then None
    else Some(QuantityIn(rows, m.key) + ListTotal(rows, m.key.variant, m.siblings.value))
  }

  function AfterOf(rows: map<StockKey, Stock>, m: Mutation, row: Stock): Option<int>
  {
    if m.siblings.None? then None
    else Some(BeforeOf(rows, m).value - QuantityIn(rows, m.key) + row.quantity)
  }

  /**
   * With each sibling listed once, the target not among them, and no sibling written by the same
   * batch, the reported totals are the true offer-wide totals on both sides of the write.
   */
  lemma TotalsAreTrue(db: Db, ms: seq<Mutation>, m: Mutation)
    requires m.key in Targets(ms) && m.siblings.Some? && NoRepeats(m.siblings.value)
    requires m.key.branch !in m.siblings.value
    requires forall b | b in m.siblings.value :: StockKey(b, m.key.variant) !in Targets(ms)
    ensures var branches := SetOf(m.siblings.value) + {m.key.branch};
            BeforeOf(db.stock, m) == Some(TotalOver(db.stock, m.key.variant, branches))
            && AfterOf(db.stock, m, Batch(db, ms).stock[m.key])
               == Some(TotalOver(Batch(db, ms).stock, m.key.variant, branches))
  {
    var v, b, sibs := m.key.variant, m.key.branch, SetOf(m.siblings.value);
    var after := Batch(db, ms).stock;
    ListTotalIsTotal(db.stock, v, m.siblings.value);
    assert m.key == StockKey(b, v) && sibs + {b} - {b} == sibs;
    TotalRemove(db.stock, v, sibs + {b}, b);
    TotalRemove(after, v, sibs + {b}, b);
    SameRowsSameTotal(db.stock, after, v, sibs);
  }

  // ---- the pass over the rows

  function KeysOfOne(m: Mutation): set<StockKey>
  {
    {m.key} + if m.siblings.Some? then set n | 0 <= n < |m.siblings.value| :: StockKey(m.siblings.value[n], m.key.variant)
              else {}
  }

  lemma OneKeys(m: Mutation, k: StockKey)
    ensures k in KeysOfOne(m) <==>
            k.variant == m.key.variant && (k.branch == m.key.branch || (m.siblings.Some? && k.branch in m.siblings.value))
  {
    if m.siblings.Some? && k.branch in m.siblings.value {
      var n :| 0 <= n < |m.siblings.value| && m.siblings.value[n] == k.branch;
    }
  }

  /** Every row the batch locks: targets to write, siblings to read. */
  method CollectKeys(ms: seq<Mutation>) returns (keys: set<StockKey>)
    ensures forall k :: k in keys <==> exists n :: 0 <= n < |ms| && k in KeysOfOne(ms[n])
    ensures forall k :: k in keys <==>
              exists n | 0 <= n < |ms| ::
                && k.variant == ms[n].key.variant
                && (k.branch == ms[n].key.branch || (ms[n].siblings.Some? && k.branch in ms[n].siblings.value))
  {
    forall k, m: Mutation
      ensures k in KeysOfOne(m) <==>
              k.variant == m.key.variant && (k.branch == m.key.branch || (m.siblings.Some? && k.branch in m.siblings.value))
    {
      OneKeys(m, k);
    }
    keys := {};
    for n := 0 to |ms|
      invariant forall k :: k in keys <==> exists j :: 0 <= j < n && k in KeysOfOne(ms[j])
    {
      keys := keys + {ms[n].key};
      if ms[n].siblings.Some? {
        var sibs := ms[n].siblings.value;
        for j := 0 to |sibs|
          invariant forall k :: k in keys <==> (exists j :: 0 <= j < n && k in KeysOfOne(ms[j])) || k == ms[n].key
                                               || exists i :: 0 <= i < j && k == StockKey(sibs[i], ms[n].key.variant)
        {
          keys := keys + {StockKey(sibs[j], ms[n].key.variant)};
        }
      }
    }
  }

  /** The total over the target and its siblings, read off the snapshot. */
  method CountBefore(rows: map<StockKey, Stock>, m: Mutation) returns (before: Option<int>)
    ensures before == BeforeOf(rows, m)
  {
    if m.siblings.None? {
      return None;
    }
    var total := QuantityIn(rows, m.key);
    var sibs := m.siblings.value;
    for n := 0 to |sibs|
      invariant total == QuantityIn(rows, m.key) + ListTotal(rows, m.key.variant, sibs[..n])
    {
      assert sibs[..n + 1][..n] == sibs[..n];
      total := total + QuantityIn(rows, StockKey(sibs[n], m.key.variant));
    }
    assert sibs[..|sibs|] == sibs;
    before := Some(total);
  }

  lemma BeforeReadsOnlyItsKeys(rows: map<StockKey, Stock>, all: map<StockKey, Stock>, m: Mutation)
    requires forall k | k in KeysOfOne(m) :: QuantityIn(rows, k) == QuantityIn(all, k)
    ensures BeforeOf(rows, m) == BeforeOf(all, m)
  {
    if m.siblings.Some? {
      var sibs := m.siblings.value;
      assert forall n | 0 <= n < |sibs| :: StockKey(sibs[n], m.key.variant) in KeysOfOne(m);
      ListReadsOnlyItsKeys(rows, all, m.key.variant, sibs);
    }
  }

  lemma {:induction false} ListReadsOnlyItsKeys(rows: map<StockKey, Stock>, all: map<StockKey, Stock>, v: Id, bs: seq<Id>)
    requires forall n | 0 <= n < |bs| :: QuantityIn(rows, StockKey(bs[n], v)) == QuantityIn(all, StockKey(bs[n], v))
    ensures ListTotal(rows, v, bs) == ListTotal(all, v, bs)
  {
    if bs != [] { ListReadsOnlyItsKeys(rows, all, v, bs[..|bs| - 1]); }
  }

  /**
   * Sweep the target and write both columns at once, or create the row. `seen` is the target's
   * row in the snapshot; the caller holds the reservations of every expired row on the target.
   */
  method WriteTarget(store: CheckoutService.Store, m: Mutation, seen: Option<Stock>, lockedReservations: set<Id>)
    returns (r: Result<Stock, RestockError>)
    requires seen == if m.key in store.stock then Some(store.stock[m.key]) else None
    requires forall i | i in ExpiredOn(store.State(), {m.key}) :: i.reservation in lockedReservations
    modifies store`items, store`stock
    ensures r.Ok? <==> ApplyOne(old(store.State()), m).Ok?
    ensures r.Ok? ==> Ok(store.State()) == ApplyOne(old(store.State()), m)
                      && m.key in store.stock && store.stock[m.key] == r.value
    ensures r.Err? ==> Err(r.error) == ApplyOne(old(store.State()), m) && store.State() == old(store.State())
    ensures r.Err? ==> r.error != ConflictingVendor
  {
    if seen.Some? {
      var expired := set i | i in store.items && store.items[i].key == m.key && i.reservation in lockedReservations
                             && i.reservation in store.reservations
                             && store.reservations[i.reservation].expiresAt < store.now;
      assert expired == ExpiredOn(store.State(), {m.key});
      var reserved := seen.value.reserved;
      var released := store.SumQuantities(Restrict(store.items, expired), m.key);
      reserved := reserved - released + m.reservedDelta;
      var row := Stock(seen.value.quantity + m.delta, reserved);
      if !Legal(row) {
        return Err(CheckViolated);
      }
      store.items := store.items - expired;
      store.stock := store.stock[m.key := row];
      return Ok(row);
    }
    if m.delta < 0 {
      return Err(NoRowToDecrement);
    }
    store.stock := store.stock[m.key := Stock(m.delta, 0)];
    r := Ok(Stock(m.delta, 0));
  }

  /** The outcome of mutation `m`, given the rows before and after the whole batch. */
  function OutcomeOf(before: map<StockKey, Stock>, m: Mutation, row: Stock): Outcome
  {
    Outcome(row, BeforeOf(before, m), AfterOf(before, m, row))
  }

  /** Outcomes of the merged mutations handled so far. */
  predicate Reported(before: map<StockKey, Stock>, now: map<StockKey, Stock>, done: seq<Mutation>,
                     results: map<StockKey, Outcome>)
  {
    && results.Keys == Targets(done)
    && (forall n | 0 <= n < |done| :: done[n].key in now
          && results[done[n].key] == OutcomeOf(before, done[n], now[done[n].key]))
  }

  lemma ReportedNothing(before: map<StockKey, Stock>)
    ensures Reported(before, before, [], map[])
  {
  }

  lemma ReportOneMore(before: map<StockKey, Stock>, mid: map<StockKey, Stock>, now: map<StockKey, Stock>,
                      done: seq<Mutation>, m: Mutation, results: map<StockKey, Outcome>)
    requires Reported(before, mid, done, results) && m.key !in Targets(done)
    requires m.key in now && now == mid[m.key := now[m.key]]
    ensures Reported(before, now, done + [m], results[m.key := OutcomeOf(before, m, now[m.key])])
  {
    var all := done + [m];
    assert all[..|all| - 1] == done;
    TargetsSnoc(all);
    forall n | 0 <= n < |done| ensures done[n].key != m.key {
      assert done[n].key in Targets(done);
    }
  }

  /** The rows `keys` as read under lock before anything is written. */
  predicate SnapshotOf(rows: map<StockKey, Stock>, stock: map<StockKey, Stock>, list: seq<Mutation>)
  {
    forall n, k | 0 <= n < |list| && k in KeysOfOne(list[n]) ::
      QuantityIn(rows, k) == QuantityIn(stock, k) && (k in rows <==> k in stock) && (k in rows ==> rows[k] == stock[k])
  }

  lemma OneAtATimeSnoc(db: Db, list: seq<Mutation>, n: nat, mid: Db)
    requires n < |list| && OneAtATime(db, list[..n]) == Ok(mid)
    ensures OneAtATime(db, list[..n + 1]) == ApplyOne(mid, list[n])
  {
    assert list[..n + 1][..n] == list[..n];
  }

  lemma {:induction false} RefusedStaysRefused(db: Db, list: seq<Mutation>, n: nat)
    requires n <= |list| && OneAtATime(db, list[..n]).Err?
    ensures OneAtATime(db, list).Err?
    decreases |list| - n
  {
    if n < |list| {
      assert list[..n + 1][..n] == list[..n];
      RefusedStaysRefused(db, list, n + 1);
    } else {
      assert list[..n] == list;
    }
  }

  /** Before its turn a target is as it was at the start, and its expired rows are still there. */
  lemma BeforeItsTurn(db: Db, list: seq<Mutation>, n: nat, mid: Db)
    requires HoldsHaveRows(db) && OnePerTarget(list) && n < |list| && OneAtATime(db, list[..n]) == Ok(mid)
    ensures var k := list[n].key;
            k !in Targets(list[..n]) && (k in mid.stock <==> k in db.stock) && (k in db.stock ==> mid.stock[k] == db.stock[k])
            && ExpiredOn(mid, {k}) == ExpiredOn(db, {k}) && ExpiredOn(db, {k}) <= ExpiredOn(db, Targets(list))
  {
    OneAtATimeIsSerial(db, list[..n]);
    assert forall j | 0 <= j < n :: list[..n][j].key != list[n].key;
    NotSweptYet(db, list[..n], list[n].key);
  }

  lemma ApplyOneTouchesOneRow(mid: Db, m: Mutation)
    requires ApplyOne(mid, m).Ok?
    ensures var after := ApplyOne(mid, m).value;
            m.key in after.stock && after.stock == mid.stock[m.key := after.stock[m.key]]
            && after.(stock := mid.stock, items := mid.items) == mid
  {
  }

  /** Sweep, write and report target number `n`. */
  method WriteNext(store: CheckoutService.Store, list: seq<Mutation>, n: nat, rows: map<StockKey, Stock>,
                   lockedReservations: set<Id>, results: map<StockKey, Outcome>, ghost before: Db)
    returns (r: Result<map<StockKey, Outcome>, RestockError>)
    requires HoldsHaveRows(before) && OnePerTarget(list) && SnapshotOf(rows, before.stock, list) && n < |list|
    requires forall i | i in ExpiredOn(before, Targets(list)) :: i.reservation in lockedReservations
    requires OneAtATime(before, list[..n]) == Ok(store.State())
    requires Reported(before.stock, store.stock, list[..n], results)
    modifies store`items, store`stock
    ensures r.Ok? ==> OneAtATime(before, list[..n + 1]) == Ok(store.State())
    ensures r.Ok? ==> Reported(before.stock, store.stock, list[..n + 1], r.value)
    ensures r.Err? ==> OneAtATime(before, list).Err? && r.error != ConflictingVendor
  {
    hide ApplyOne, Reported, SnapshotOf, ExpiredOn, HoldsHaveRows, Targets, OneAtATime, OutcomeOf, OnePerTarget, BeforeOf;
    var m := list[n];
    ghost var mid := store.State();
    assert list[..n + 1] == list[..n] + [m];
    BeforeItsTurn(before, list, n, mid);
    OneAtATimeSnoc(before, list, n, mid);
    SnapshotAt(rows, before.stock, list, n);
    var total := CountBefore(rows, m);
    var seen := if m.key in rows then Some(rows[m.key]) else None;
    var written := WriteTarget(store, m, seen, lockedReservations);
    if written.Err? {
      RefusedStaysRefused(before, list, n + 1);
      return Err(written.error);
    }
    ApplyOneTouchesOneRow(mid, m);
    var after := if total.Some? then Some(total.value - QuantityIn(rows, m.key) + written.value.quantity) else None;
    OutcomeIs(before.stock, rows, m, written.value, total, after);
    ReportOneMore(before.stock, mid.stock, store.stock, list[..n], m, results);
    r := Ok(results[m.key := Outcome(written.value, total, after)]);
  }

  /** Sweep and write each target in turn, from the snapshot `rows`; a refusal stops the pass. */
  method WriteAll(store: CheckoutService.Store, list: seq<Mutation>, rows: map<StockKey, Stock>, lockedReservations: set<Id>)
    returns (r: Result<map<StockKey, Outcome>, RestockError>)
    requires HoldsHaveRows(store.State()) && OnePerTarget(list) && SnapshotOf(rows, store.stock, list)
    requires forall i | i in ExpiredOn(store.State(), Targets(list)) :: i.reservation in lockedReservations
    modifies store`items, store`stock
    ensures r.Ok? ==> OneAtATime(old(store.State()), list) == Ok(store.State())
    ensures r.Ok? ==> Reported(old(store.stock), store.stock, list, r.value)
    ensures r.Err? ==> OneAtATime(old(store.State()), list).Err? && r.error != ConflictingVendor
  {
    ghost var before := store.State();
    var results: map<StockKey, Outcome> := map[];
    ReportedNothing(before.stock);
    assert list[..0] == [];
    hide *;
    for n := 0 to |list|
      invariant OneAtATime(before, list[..n]) == Ok(store.State())
      invariant Reported(before.stock, store.stock, list[..n], results)
    {
      var more := WriteNext(store, list, n, rows, lockedReservations, results, before);
      if more.Err? {
        return Err(more.error);
      }
      results := more.value;
    }
    assert list[..|list|] == list;
    r := Ok(results);
  }

  /**
   * The batch: merge, lock every row involved, read them once, sweep and write each target.
   * It is accepted exactly when no target has two vendors and every resulting row is legal; it then
   * leaves the state the row-by-row description gives. A refused batch changes nothing.
   */
  method LockOffersWideForRestock(store: CheckoutService.Store, ms: seq<Mutation>)
    returns (r: Result<map<StockKey, Outcome>, RestockError>, ghost list: seq<Mutation>)
    requires HoldsHaveRows(store.State())
    modifies store`items, store`stock
    ensures r.Ok? <==> Accepted(old(store.State()), ms)
    ensures r.Err? ==> store.State() == old(store.State())
    ensures r.Err? && r.error == ConflictingVendor <==> Conflict(ms)
    ensures r.Ok? ==> store.State() == Batch(old(store.State()), ms) && IsMergeOf(list, ms)
    ensures r.Ok? ==> Reported(old(store.stock), store.stock, list, r.value)
  {
    hide ApplyOne, Batch, Reported, SnapshotOf, ExpiredOn, HoldsHaveRows, OneAtATime, OutcomeOf, Conflict;
    ghost var before := store.State();
    list := [];
    var normalized := Normalize(ms);
    if normalized.Err? {
      return Err(ConflictingVendor), [];
    }
    list := normalized.value;
    MergeIsSameBatch(before, ms, list);
    MergedListIsBatch(before, list);
    var keys := CollectKeys(normalized.value);
    var lockedReservations := store.FindExpiredReservationIds(Targets(normalized.value));
    SnapshotHolds(store.stock, keys, list);
    var stock0, items0 := store.stock, store.items;
    r := WriteAll(store, normalized.value, Restrict(store.stock, keys), lockedReservations);
    if r.Err? {
      store.stock, store.items := stock0, items0;
    }
  }

  lemma SnapshotHolds(stock: map<StockKey, Stock>, keys: set<StockKey>, list: seq<Mutation>)
    requires forall k :: k in keys <==> exists n :: 0 <= n < |list| && k in KeysOfOne(list[n])
    ensures SnapshotOf(Restrict(stock, keys), stock, list)
  {
  }

  lemma SnapshotAt(rows: map<StockKey, Stock>, stock: map<StockKey, Stock>, list: seq<Mutation>, n: nat)
    requires SnapshotOf(rows, stock, list) && n < |list|
    ensures BeforeOf(rows, list[n]) == BeforeOf(stock, list[n])
    ensures var k := list[n].key; QuantityIn(rows, k) == QuantityIn(stock, k)
                                  && (k in rows <==> k in stock) && (k in rows ==> rows[k] == stock[k])
  {
    BeforeReadsOnlyItsKeys(rows, stock, list[n]);
    assert list[n].key in KeysOfOne(list[n]);
  }

  lemma OutcomeIs(stock: map<StockKey, Stock>, rows: map<StockKey, Stock>, m: Mutation, row: Stock, total: Option<int>,
                  after: Option<int>)
    requires total == BeforeOf(stock, m) && QuantityIn(rows, m.key) == QuantityIn(stock, m.key)
    requires after == if total.Some? then Some(total.value - QuantityIn(rows, m.key) + row.quantity) else None
    ensures Outcome(row, total, after) == OutcomeOf(stock, m, row)
  {
  }

  // ---- where the batch and one-at-a-time differ

  /** On a row that does not exist yet the batch drops every reserved delta, one at a time only the first. */
  lemma NewRowLosesReservedDelta(db: Db, k: StockKey)
    requires HoldsHaveRows(db) && k !in db.stock
    ensures var first, second := Mutation(0, k, 1, 0, None), Mutation(0, k, 1, 1, None);
            OneAtATime(db, [first, second]).Ok? && Accepted(db, [first, second])
            && OneAtATime(db, [first, second]).value.stock[k] == Stock(2, 1)
            && Batch(db, [first, second]).stock[k] == Stock(2, 0)
  {
    var first, second := Mutation(0, k, 1, 0, None), Mutation(0, k, 1, 1, None);
    var ms := [first, second];
    assert ms[..1] == [first] && [first][..0] == [];
    assert OneAtATime(db, []) == Ok(db);
    assert OneAtATime(db, [first]) == ApplyOne(db, first);
    var mid := ApplyOne(db, first).value;
    assert Restrict(mid.items, ExpiredOn(mid, {k})) == map[] by {
      assert forall i | i in mid.items :: mid.items[i].key != k;
    }
    assert TallyOf([first], k) == Tally(1, 0, false, {}) by { assert TallyOf([], k) == Tally(0, 0, false, {}); }
    assert TallyOf(ms, k) == Tally(2, 1, false, {});
    assert ms[0].key == k && k in Targets(ms);
  }

  /** Every single step is accepted exactly when each leaves its row legal, in the order given. */
  lemma {:induction false} OneAtATimeAcceptsIff(db: Db, ms: seq<Mutation>)
    requires HoldsHaveRows(db)
    ensures OneAtATime(db, ms).Ok? <==> EveryStepLegal(db, ms)
  {
    if ms != [] {
      var n := |ms| - 1;
      OneAtATimeAcceptsIff(db, ms[..n]);
      StepsBefore(db, ms);
      if OneAtATime(db, ms[..n]).Ok? {
        OneAtATimeIsSerial(db, ms[..n]);
        assert ms[..n] + [ms[n]] == ms;
        SerialStepRow(db, ms[..n], ms[n]);
        ApplyOneLegal(Serial(db, ms[..n]), ms[n]);
      }
    }
  }

  /** The row each mutation would leave, had all before it been applied, is legal. */
  ghost predicate EveryStepLegal(db: Db, ms: seq<Mutation>)
  {
    forall n | 0 <= n < |ms| :: Legal(SerialRow(db, ms[..n + 1], ms[n].key))
  }

  lemma StepsBefore(db: Db, ms: seq<Mutation>)
    requires ms != []
    ensures EveryStepLegal(db, ms) <==>
            EveryStepLegal(db, ms[..|ms| - 1]) && Legal(SerialRow(db, ms, ms[|ms| - 1].key))
  {
    var m := |ms| - 1;
    assert ms[..m + 1] == ms;
    forall n | 0 <= n < m ensures ms[..m][..n + 1] == ms[..n + 1] && ms[..m][n] == ms[n] {
    }
  }

  /**
   * Where the two verdicts part: the batch alone is accepted exactly when some mutation on the way
   * would leave an illegal row while every final row is legal, and one at a time alone exactly when
   * every step is legal but two vendors are named for one row.
   */
  lemma VerdictsDifferIff(db: Db, ms: seq<Mutation>)
    requires HoldsHaveRows(db)
    ensures Accepted(db, ms) && OneAtATime(db, ms).Err? <==>
            !Conflict(ms) && !EveryStepLegal(db, ms) && forall k | k in Targets(ms) :: Legal(BatchRow(db, ms, k))
    ensures !Accepted(db, ms) && OneAtATime(db, ms).Ok? <==> Conflict(ms) && EveryStepLegal(db, ms)
  {
    OneAtATimeAcceptsIff(db, ms);
    if OneAtATime(db, ms).Ok? && !Conflict(ms) { BatchMatchesOneAtATime(db, ms); }
  }

  /** Such a batch: five down and five up on a row of three. */
  lemma MergingAcceptsMore(db: Db, k: StockKey)
    requires k in db.stock && SweptRow(db, k) == Stock(3, 0) && db.stock[k].quantity == 3
    ensures var down, up := Mutation(0, k, -5, 0, None), Mutation(0, k, 5, 0, None);
            OneAtATime(db, [down, up]).Err? && Accepted(db, [down, up])
  {
    var down, up := Mutation(0, k, -5, 0, None), Mutation(0, k, 5, 0, None);
    var ms := [down, up];
    assert ms[..1] == [down] && [down][..0] == [];
    assert OneAtATime(db, []) == Ok(db);
    assert OneAtATime(db, [down]) == ApplyOne(db, down);
    assert TallyOf([down], k) == Tally(-5, 0, false, {}) by { assert TallyOf([], k) == Tally(0, 0, false, {}); }
    assert TallyOf(ms, k) == Tally(0, 0, false, {});
  }

  // ---- the callers' batches are steps of the ledger

  lemma SingleBatch(db: Db, m: Mutation)
    ensures TallyOf([m], m.key) == Add(Tally(0, 0, false, {}), m) && Targets([m]) == {m.key} && !Conflict([m])
  {
    assert [m][..0] == [];
    assert TallyOf([], m.key) == Tally(0, 0, false, {});
    assert [m][0] == m;
  }

  lemma SingleBatchState(db: Db, m: Mutation)
    ensures Batch(db, [m]) ==
            db.(items := db.items - ExpiredOn(db, {m.key}), stock := db.stock[m.key := BatchRow(db, [m], m.key)])
  {
    SingleBatch(db, m);
    assert Batch(db, [m]).stock == db.stock[m.key := BatchRow(db, [m], m.key)];
  }

  lemma SweepState(db: Db, k: StockKey)
    requires k in db.stock
    ensures Release(db, ExpiredOn(db, {k})) ==
            db.(items := db.items - ExpiredOn(db, {k}), stock := db.stock[k := SweptRow(db, k)])
  {
    CheckoutService.ReleaseOnOneKey(db, ExpiredOn(db, {k}), k);
  }

  lemma InvNoRowNoHolds(db: Db, k: StockKey)
    requires Inv(db) && k !in db.stock
    ensures ExpiredOn(db, {k}) == {}
  {
    InvMeansCountersOk(db);
  }

  /** What a sweep leaves on a row is legal, and still covers the exchange holds. */
  lemma InvSweptRow(db: Db, k: StockKey)
    requires Inv(db)
    ensures k in db.stock ==> Legal(SweptRow(db, k)) && ExchangeHeld(db, k) <= SweptRow(db, k).reserved
  {
    hide Inv;
    if k in db.stock {
      ReleaseKeepsInv(db, ExpiredOn(db, {k}));
      CheckoutService.ReleaseOnOneKey(db, ExpiredOn(db, {k}), k);
      InvMeansExchangeIsPart(Release(db, ExpiredOn(db, {k})), k);
    }
  }

  /** A restock through the stock screen is the ledger's movement step, apart from its log entry. */
  lemma RestockIsMovement(db: Db, m: Mutation)
    requires Inv(db) && m.delta > 0 && m.reservedDelta == 0
    ensures Accepted(db, [m])
    ensures MoveStep(db, m.key, m.delta) == (Batch(db, [m]).(movements := db.movements + [Movement(m.key, m.delta)]), true)
  {
    hide Inv, Release, ExpiredOn, Batch, SweptRow, Targets, TallyOf, Conflict;
    var k := m.key;
    SingleBatch(db, m);
    SingleBatchState(db, m);
    InvSweptRow(db, k);
    if k !in db.stock {
      InvNoRowNoHolds(db, k);
      CheckoutService.ReleaseNothing(db);
      assert db.items - {} == db.items;
    } else {
      SweepState(db, k);
      SweptKeepsQuantity(db, k);
    }
    assert MoveStep(db, k, m.delta).0.stock == db.stock[k := BatchRow(db, [m], k)];
  }

  lemma SweptKeepsQuantity(db: Db, k: StockKey)
    requires k in db.stock
    ensures SweptRow(db, k).quantity == db.stock[k].quantity
  {
  }

  /** The replacement leg of an exchange is the ledger's hand-over step, apart from the exchange's own record. */
  lemma ReplacementLegIsHandOver(db: Db, m: Mutation, units: nat)
    requires Inv(db) && m.key in db.stock && units <= ExchangeHeld(db, m.key)
    requires m.delta == -(units as int) && m.reservedDelta == m.delta
    ensures Accepted(db, [m])
    ensures HandOverStep(db, m.key, units) ==
            (Batch(db, [m]).(movements := db.movements + [Movement(m.key, m.delta)],
                             exchange := db.exchange[m.key := ExchangeHeld(db, m.key) - units]), true)
  {
    hide Inv, Release, ExpiredOn, Batch, SweptRow, Targets, TallyOf, Conflict;
    SingleBatch(db, m);
    SingleBatchState(db, m);
    InvSweptRow(db, m.key);
    SweepState(db, m.key);
    SweptKeepsQuantity(db, m.key);
    assert HandOverStep(db, m.key, units).0.stock == db.stock[m.key := BatchRow(db, [m], m.key)];
  }

  // ---- an order cancellation is such a batch

  /** The mutations together add exactly what `rows` hold, and touch no reserved counter. */
  ghost predicate Restocks(ms: seq<Mutation>, rows: HoldTable)
  {
    && !Conflict(ms) && Targets(ms) == KeysIn(rows)
    && forall k: StockKey :: TallyOf(ms, k).delta == Held(rows, k) && TallyOf(ms, k).reserved == 0
  }

  /** A sweep of several keys takes from each what a sweep of that key alone takes. */
  lemma SweepKeyByKey(db: Db, keys: set<StockKey>, k: StockKey)
    requires k in db.stock
    ensures Release(db, ExpiredOn(db, keys)).stock[k] == if k in keys then SweptRow(db, k) else db.stock[k]
  {
    var gone := Restrict(db.items, ExpiredOn(db, keys));
    if k in keys {
      var here := Restrict(db.items, ExpiredOn(db, {k}));
      assert OnKey(gone, k) == OnKey(here, k);
      HeldDependsOnKeyOnly(gone, here, k);
    } else {
      HeldNone(gone, k);
    }
  }

  /** The batch of a cancellation is the ledger's step, apart from the note on the cancelled items. */
  lemma CancellationIsBatch(db: Db, ms: seq<Mutation>, n: nat, ids: set<HoldId>)
    requires Inv(db) && ActiveItems(db, n, ids) && Restocks(ms, Restrict(db.orders[n].lines, ids))
    ensures Accepted(db, ms)
    ensures CancelItemsStep(db, n, ids)
            == (Batch(db, ms).(restored := db.restored + Restrict(db.orders[n].lines, ids)), true)
  {
    hide Inv, Release, ExpiredOn, SweptRow, TallyOf, Conflict, Held;
    var rows := Restrict(db.orders[n].lines, ids);
    var keys := KeysIn(rows);
    var swept := Release(db, ExpiredOn(db, keys));
    ReleaseShape(db, ExpiredOn(db, keys));
    forall k | k in db.stock ensures swept.stock[k] == if k in keys then SweptRow(db, k) else db.stock[k] {
      SweepKeyByKey(db, keys, k);
    }
    forall k | k in keys ensures Legal(BatchRow(db, ms, k)) {
      InvSweptRow(db, k);
      if k in db.stock { SweptKeepsQuantity(db, k); }
    }
    forall k | k in db.stock && k !in keys ensures Held(rows, k) == 0 {
      HeldNone(rows, k);
    }
    forall k | k in db.stock && k in keys ensures SweptRow(db, k).quantity == db.stock[k].quantity {
      SweptKeepsQuantity(db, k);
    }
    assert PutBack(swept, rows).stock == Batch(db, ms).stock;
  }

  lemma ReleaseShape(db: Db, ids: set<HoldId>)
    ensures Release(db, ids) == db.(items := db.items - ids, stock := Release(db, ids).stock)
    ensures Release(db, ids).stock.Keys == db.stock.Keys
  {
  }

  lemma RestocksOneMore(ms: seq<Mutation>, m: Mutation, k: StockKey)
    ensures TallyOf(ms + [m], k) == if m.key == k then Add(TallyOf(ms, k), m) else TallyOf(ms, k)
    ensures Targets(ms + [m]) == Targets(ms) + {m.key}
  {
    assert (ms + [m])[..|ms|] == ms;
    TargetsSnoc(ms + [m]);
  }

  /** `quantities` adds up, key by key, the rows of `rows` that are not in `rest`. */
  ghost predicate AddedUp(quantities: map<StockKey, nat>, rows: HoldTable, rest: HoldTable)
  {
    && rest.Keys <= rows.Keys && (forall i | i in rest :: rest[i] == rows[i])
    && (forall k :: k in quantities <==> exists i :: i in rows && i !in rest && rows[i].key == k)
    && forall k: StockKey :: (if k in quantities then quantities[k] else 0) + Held(rest, k) == Held(rows, k)
  }

  function Raised(quantities: map<StockKey, nat>, item: HoldItem): map<StockKey, nat>
  {
    quantities[item.key := (if item.key in quantities then quantities[item.key] else 0) + item.quantity]
  }

  lemma AddOneRow(quantities: map<StockKey, nat>, rows: HoldTable, rest: HoldTable, i: HoldId)
    requires AddedUp(quantities, rows, rest) && i in rest
    ensures AddedUp(Raised(quantities, rest[i]), rows, rest - {i})
  {
    var after := Raised(quantities, rest[i]);
    forall k: StockKey
      ensures (if k in after then after[k] else 0) + Held(rest - {i}, k) == Held(rows, k)
    {
      HeldRemove(rest, i, k);
    }
    forall k ensures k in after <==> exists j :: j in rows && j !in rest - {i} && rows[j].key == k {
      if k in quantities {
        var j :| j in rows && j !in rest && rows[j].key == k;
        assert j !in rest - {i};
      }
      if k == rest[i].key { assert i !in rest - {i}; }
    }
  }

  /** Add up the cancelled quantities key by key. */
  method QuantitiesByKey(rows: HoldTable) returns (quantities: map<StockKey, nat>)
    ensures quantities.Keys == KeysIn(rows) && forall k | k in quantities :: quantities[k] == Held(rows, k)
  {
    quantities := map[];
    var rest := rows;
    while rest != map[]
      invariant AddedUp(quantities, rows, rest)
      decreases |rest|
    {
      var i :| i in rest;
      AddOneRow(quantities, rows, rest, i);
      quantities := Raised(quantities, rest[i]);
      rest := rest - {i};
    }
  }

  /** One mutation per key. */
  method MutationsFor(vendor: Id, rows: HoldTable, siblings: seq<Id>) returns (ms: seq<Mutation>)
    ensures Restocks(ms, rows)
  {
    var quantities := QuantitiesByKey(rows);
    var rest := quantities.Keys;
    ms := [];
    while rest != {}
      invariant rest <= quantities.Keys && Targets(ms) == quantities.Keys - rest
      invariant forall m | 0 <= m < |ms| :: ms[m].vendor == vendor
      invariant forall k: StockKey :: TallyOf(ms, k).reserved == 0
                  && TallyOf(ms, k).delta == if k in quantities.Keys - rest then quantities[k] else 0
      decreases rest
    {
      var k :| k in rest;
      var m := Mutation(vendor, k, quantities[k], 0, Some(siblings));
      forall j: StockKey ensures TallyOf(ms + [m], j) == if k == j then Add(TallyOf(ms, j), m) else TallyOf(ms, j) {
        RestocksOneMore(ms, m, j);
      }
      RestocksOneMore(ms, m, k);
      ms, rest := ms + [m], rest - {k};
    }
    forall k: StockKey | k !in quantities ensures Held(rows, k) == 0 {
      HeldNone(rows, k);
    }
  }

  /** Cancelling active items of an order: one batch puts their stock back. It is never refused. */
  method CancelItems(store: CheckoutService.Store, n: nat, ids: set<HoldId>, vendor: Id, siblings: seq<Id>)
    requires Inv(store.State()) && ActiveItems(store.State(), n, ids)
    modifies store`items, store`stock, store`restored
    ensures store.State() == CancelItemsStep(old(store.State()), n, ids).0
  {
    hide Inv, Accepted, Batch, Restocks, CancelItemsStep;
    ghost var before := store.State();
    InvMeansHoldsHaveRows(before);
    var rows := Restrict(store.orders[n].lines, ids);
    var ms := MutationsFor(vendor, rows, siblings);
    CancellationIsBatch(before, ms, n, ids);
    var r, list := LockOffersWideForRestock(store, ms);
    store.restored := store.restored + rows;
  }

  lemma InvMeansHoldsHaveRows(db: Db)
    requires Inv(db)
    ensures HoldsHaveRows(db)
  {
  }
}
