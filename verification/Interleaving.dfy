/**
 * The checkout transactions cut into their statements and interleaved. A transaction takes
 * reservation-row and stock-row locks one at a time, reads under them, keeps its writes to
 * itself until it commits, and releases its locks at the end; the clock moves in between.
 * A whole run is compared with the ledger's transactions taken one after the other in the order
 * of the commits.
 */
module Interleaving {
  import opened Common
  import opened Holds
  import opened Ledger
  import opened EagerExpiry

  /**
   * A sweeper (reserve, stock movement, exchange, order cancellation) may release expired rows of any
   * reservation it locked. An owner (cancel, both halves of confirm) deals with the rows of the one
   * reservation its customer names.
   */
  datatype Kind = Sweeper | Owner(rid: Id, customer: Id)

  /** What an exchange does to its replacement: hold it, let it go, or hand it over. */
  datatype Change = Take | LetGo | GiveOut

  datatype Effect =
    | Nothing
    | Holding(rid: Id, customer: Id, expiresAt: int, lines: seq<HoldItem>)
    | Moving(key: StockKey, delta: int)
    | Exchanging(change: Change, key: StockKey, units: nat)
    | Restoring(order: nat, ids: set<HoldId>)
    | Dropping(rid: Id, customer: Id)
    | Selling(rid: Id, customer: Id)

  /**
   * `considered` are the reservations a lock was asked for; `reservationLocks` those whose row
   * was still there. `released` are the rows deleted so far, with their counters lowered.
   * `read` are the rows an owner read under its lock: to sell them if `live`, otherwise to
   * release them, `pending` being those still to be released.
   */
  datatype Txn = Txn(
    kind: Kind,
    considered: set<Id>,
    reservationLocks: set<Id>,
    stockLocks: set<StockKey>,
    released: set<HoldId>,
    read: Option<HoldTable>,
    live: bool,
    pending: set<HoldId>,
    effect: Effect)

  /** `left` counts, row by row, how often its quantity has left a counter. */
  datatype Sys = Sys(db: Db, txns: map<Id, Txn>, left: multiset<HoldId>)

  datatype Action =
    | Begin(t: Id, kind: Kind)
    | LockReservation(t: Id, rid: Id)
    | LockStock(t: Id, key: StockKey)
    | Sweep(t: Id, key: StockKey)
    | ReadRows(t: Id)
    | CheckLive(t: Id)
    | ReleaseItem(t: Id, row: HoldId)
    | Drop(t: Id)
    | Sell(t: Id)
    | Hold(t: Id, rid: Id, customer: Id, expiresAt: int, lines: seq<HoldItem>)
    | Move(t: Id, key: StockKey, delta: int)
    | Exchange(t: Id, change: Change, key: StockKey, units: nat)
    | Restore(t: Id, order: nat, ids: set<HoldId>)
    | Commit(t: Id)
    | Abort(t: Id)
    | CreateRow(key: StockKey, delta: int)
    | Elapse(time: nat)

  /** An action of a transaction that is neither its begin nor its end. */
  predicate IsStatement(a: Action)
  {
    !a.CreateRow? && !a.Elapse? && !a.Begin? && !a.Commit? && !a.Abort?
  }

  // ---- what a commit does

  ghost function Apply(db: Db, x: Txn): Db
  {
    match x.effect
    case Nothing => Release(db, x.released)
    case Holding(rid, customer, expiresAt, lines) => Ledger.Hold(Release(db, x.released), rid, customer, expiresAt, lines)
    case Moving(k, delta) => Adjust(Release(db, x.released), k, delta)
    case Exchanging(change, k, units) => Exchanged(Release(db, x.released), change, k, units)
    case Restoring(n, ids) => PutBack(Release(db, x.released), CancelledRows(db, n, ids))
    case Dropping(rid, _) => Ledger.Drop(Release(db, x.released), rid)
    case Selling(rid, _) => if rid in db.reservations then Ledger.Sell(db, rid) else db
  }

  function Exchanged(db: Db, change: Change, k: StockKey, units: nat): Db
  {
    if k !in db.stock || (change != Take && ExchangeHeld(db, k) < units) then db
    else
      match change
      case Take => SetExchange(db, k, ExchangeHeld(db, k) + units)
      case LetGo => SetExchange(db, k, ExchangeHeld(db, k) - units)
      case GiveOut => Adjust(SetExchange(db, k, ExchangeHeld(db, k) - units), k, -(units as int))
  }

  function CancelledRows(db: Db, n: nat, ids: set<HoldId>): HoldTable
  {
    if n < |db.orders| then Restrict(db.orders[n].lines, ids) else map[]
  }

  /** What a replacement must still offer for the change: free units to take them, held ones otherwise. */
  ghost predicate CanExchange(db: Db, x: Txn, change: Change, k: StockKey, units: nat)
  {
    && k in x.stockLocks && k in db.stock
    && if change == Take then var row := Release(db, x.released).stock[k]; units <= row.quantity - row.reserved
       else units <= ExchangeHeld(db, k)
  }

  /** The rows whose quantity this commit takes out of a counter. */
  function Leaving(db: Db, x: Txn): set<HoldId>
  {
    if x.effect.Selling? then RowsOf(db.items, x.effect.rid).Keys else x.released
  }

  // ---- when a statement can run

  predicate Free(s: Sys, t: Id, rid: Id)
  {
    forall u | u in s.txns && u != t :: rid !in s.txns[u].reservationLocks
  }

  predicate FreeStock(s: Sys, t: Id, k: StockKey)
  {
    forall u | u in s.txns && u != t :: k !in s.txns[u].stockLocks
  }

  /** The re-read under locks: expired rows on `k` of reservations this transaction considered. */
  function Sweepable(db: Db, x: Txn, k: StockKey): set<HoldId>
  {
    set i | i in db.items && i !in x.released && db.items[i].key == k
            && i.reservation in x.considered && Expired(db, i.reservation)
  }

  predicate Fresh(s: Sys, t: Id, rid: Id)
  {
    rid !in s.db.accepted
    && forall u | u in s.txns && u != t :: !(s.txns[u].effect.Holding? && s.txns[u].effect.rid == rid)
  }

  /** Nobody else is cancelling any of these items; the items' own rows are locked for it. */
  predicate Unclaimed(s: Sys, t: Id, ids: set<HoldId>)
  {
    forall u | u in s.txns && u != t :: s.txns[u].effect.Restoring? ==> ids !! s.txns[u].effect.ids
  }

  ghost predicate Can(s: Sys, a: Action)
  {
    if a.Elapse? then true
    // A restock that inserts its row: nobody can hold a lock on a row that is not there yet.
    else if a.CreateRow? then a.key !in s.db.stock && a.delta > 0
    else if a.Begin? then a.t !in s.txns
    else a.t in s.txns && CanTxn(s, a, s.txns[a.t])
  }

  ghost predicate CanTxn(s: Sys, a: Action, x: Txn)
    requires !a.CreateRow? && !a.Elapse? && !a.Begin?
  {
    match a
    // The id comes from an earlier unlocked read, so the row existed at some time.
    case LockReservation(t, rid) =>
      rid in s.db.accepted && Free(s, t, rid) && x.effect == Nothing && (x.kind.Owner? ==> rid == x.kind.rid)
    case LockStock(t, k) => k in s.db.stock && FreeStock(s, t, k) && x.effect == Nothing
    case Sweep(_, k) => x.kind.Sweeper? && k in x.stockLocks && x.effect == Nothing
    case ReadRows(_) =>
      x.kind.Owner? && x.kind.rid in x.reservationLocks && Owned(s.db, x.kind.rid, x.kind.customer)
      && x.read == None && x.effect == Nothing
    case CheckLive(_) =>
      x.kind.Owner? && x.kind.rid in x.reservationLocks && Owned(s.db, x.kind.rid, x.kind.customer)
      && x.read == None && x.effect == Nothing
      && !Expired(s.db, x.kind.rid) && RowsOf(s.db.items, x.kind.rid) != map[]
    case ReleaseItem(_, i) =>
      x.kind.Owner? && !x.live && i in x.pending && x.read.Some? && i in x.read.value
      && x.read.value[i].key in x.stockLocks && x.effect == Nothing
    case Drop(_) => x.kind.Owner? && !x.live && x.read.Some? && x.pending == {} && x.effect == Nothing
    case Sell(_) =>
      x.kind.Owner? && x.live && x.read.Some? && x.effect == Nothing
      && (forall i | i in x.read.value :: x.read.value[i].key in x.stockLocks) && CanSell(s.db, x.kind.rid)
    case Hold(t, rid, _, _, lines) =>
      x.kind.Sweeper? && x.effect == Nothing && Fresh(s, t, rid)
      && KeysOf(lines) <= x.stockLocks && Fits(Release(s.db, x.released), lines)
    case Move(_, k, delta) =>
      x.kind.Sweeper? && x.effect == Nothing && k in x.stockLocks && k in s.db.stock
      && (delta > 0 || var row := Release(s.db, x.released).stock[k]; row.quantity + delta - row.reserved >= 0)
    case Exchange(_, change, k, units) =>
      x.kind.Sweeper? && x.effect == Nothing && CanExchange(s.db, x, change, k, units)
    case Restore(t, n, ids) =>
      x.kind.Sweeper? && x.effect == Nothing && ActiveItems(s.db, n, ids) && Unclaimed(s, t, ids)
      && KeysIn(CancelledRows(s.db, n, ids)) <= x.stockLocks
    case Commit(_) => x.effect != Nothing || x.kind.Sweeper? || x.released == {}
    case Abort(_) => true
  }

  // ---- what a statement does

  function NewTxn(kind: Kind): Txn
  {
    Txn(kind, {}, {}, {}, {}, None, false, {}, Nothing)
  }

  function TxnAfter(s: Sys, a: Action, x: Txn): Txn
    requires IsStatement(a)
    requires a.ReadRows? || a.CheckLive? || a.Drop? || a.Sell? ==> x.kind.Owner?
  {
    match a
    case LockReservation(_, rid) =>
      x.(considered := x.considered + {rid},
         reservationLocks := x.reservationLocks + if rid in s.db.reservations then {rid} else {})
    case LockStock(_, k) => x.(stockLocks := x.stockLocks + {k})
    case Sweep(_, k) => x.(released := x.released + Sweepable(s.db, x, k))
    case ReadRows(_) =>
      var rows := RowsOf(s.db.items, x.kind.rid);
      x.(read := Some(rows), live := false, pending := rows.Keys)
    case CheckLive(_) => x.(read := Some(RowsOf(s.db.items, x.kind.rid)), live := true)
    // Delete by id, and count it only when this call deleted the row.
    case ReleaseItem(_, i) =>
      x.(released := if i in s.db.items && i !in x.released then x.released + {i} else x.released,
         pending := x.pending - {i})
    case Drop(_) => x.(effect := Dropping(x.kind.rid, x.kind.customer))
    case Sell(_) => x.(effect := Selling(x.kind.rid, x.kind.customer))
    case Hold(_, rid, customer, expiresAt, lines) => x.(effect := Holding(rid, customer, expiresAt, lines))
    case Move(_, k, delta) => x.(effect := Moving(k, delta))
    case Exchange(_, change, k, units) => x.(effect := Exchanging(change, k, units))
    case Restore(_, n, ids) => x.(effect := Restoring(n, ids))
  }

  ghost function Do(s: Sys, a: Action): Sys
    requires Can(s, a) && Sound(s)
  {
    match a
    case CreateRow(k, delta) => s.(db := Adjust(s.db, k, delta))
    case Elapse(time) => s.(db := Later(s.db, time))
    case Begin(t, kind) => s.(txns := s.txns[t := NewTxn(kind)])
    case Abort(t) => s.(txns := s.txns - {t})
    case Commit(t) =>
      Sys(Apply(s.db, s.txns[t]), s.txns - {t}, s.left + multiset(Leaving(s.db, s.txns[t])))
    case _ => s.(txns := s.txns[a.t := TxnAfter(s, a, s.txns[a.t])])
  }

  // ---- what holds in every reachable state

  ghost predicate LocksOk(db: Db, x: Txn)
  {
    && x.reservationLocks <= x.considered <= db.accepted.Keys
    && (forall rid | rid in x.considered && rid in db.reservations :: rid in x.reservationLocks)
    && x.stockLocks <= db.stock.Keys
    && (x.kind.Owner? ==> x.considered <= {x.kind.rid})
  }

  /** Whatever a transaction has deleted is still in the committed table, under both its locks. */
  ghost predicate ReleasedOk(db: Db, x: Txn)
  {
    (x.read.None? && x.kind.Owner? ==> x.released == {}) &&
    forall i | i in x.released ::
      && i in db.items && i.reservation in x.reservationLocks && db.items[i].key in x.stockLocks
      && (if x.kind.Sweeper? then Expired(db, i.reservation) else i.reservation == x.kind.rid)
  }

  /** What an owner read under its lock is still what the table holds. */
  ghost predicate ReadOk(db: Db, x: Txn)
  {
    x.read.Some? ==>
      && x.kind.Owner? && x.kind.rid in x.reservationLocks && Owned(db, x.kind.rid, x.kind.customer)
      && x.kind.rid in db.accepted && x.read.value == RowsOf(db.items, x.kind.rid)
      && (if x.live then x.released == {} && x.read.value == db.accepted[x.kind.rid] && x.read.value != map[]
          else x.read.value.Keys == x.pending + x.released)
  }

  ghost predicate EffectOk(db: Db, x: Txn)
  {
    match x.effect
    case Nothing => true
    case Holding(rid, _, _, lines) =>
      x.kind.Sweeper? && rid !in db.accepted && KeysOf(lines) <= x.stockLocks && Fits(Release(db, x.released), lines)
    case Moving(k, delta) =>
      x.kind.Sweeper? && k in x.stockLocks && k in db.stock
      && (delta > 0 || var row := Release(db, x.released).stock[k]; row.quantity + delta - row.reserved >= 0)
    case Exchanging(change, k, units) => x.kind.Sweeper? && CanExchange(db, x, change, k, units)
    case Restoring(n, ids) =>
      x.kind.Sweeper? && ActiveItems(db, n, ids) && KeysIn(CancelledRows(db, n, ids)) <= x.stockLocks
    case Dropping(rid, customer) => x.kind == Owner(rid, customer) && x.read.Some? && !x.live && x.pending == {}
    case Selling(rid, customer) =>
      x.kind == Owner(rid, customer) && x.read.Some? && x.live
      && forall i | i in x.read.value :: x.read.value[i].key in x.stockLocks
  }

  ghost predicate TxnOk(db: Db, x: Txn)
  {
    LocksOk(db, x) && ReleasedOk(db, x) && ReadOk(db, x) && EffectOk(db, x)
  }

  ghost predicate Apart(x: Txn, y: Txn)
  {
    && x.reservationLocks !! y.reservationLocks && x.stockLocks !! y.stockLocks
    && !(x.effect.Holding? && y.effect.Holding? && x.effect.rid == y.effect.rid)
    && (x.effect.Restoring? && y.effect.Restoring? ==> x.effect.ids !! y.effect.ids)
  }

  /** Every row that was ever written and is gone has left its counter exactly once. */
  ghost predicate LeftOnce(db: Db, left: multiset<HoldId>)
  {
    forall i: HoldId ::
      left[i] == if i.reservation in db.accepted && i in db.accepted[i.reservation] && i !in db.items then 1 else 0
  }

  ghost predicate Sound(s: Sys)
  {
    && Inv(s.db)
    && (forall t | t in s.txns :: TxnOk(s.db, s.txns[t]))
    && (forall t, u | t in s.txns && u in s.txns && t != u :: Apart(s.txns[t], s.txns[u]))
    && LeftOnce(s.db, s.left)
  }

  // ---- a commit keeps the ledger

  /** What an owner that drops has deleted is the whole reservation: its commit is a plain give-back. */
  lemma DropIsGiveBack(db: Db, x: Txn)
    requires TxnOk(db, x) && x.effect.Dropping?
    ensures x.released == RowsOf(db.items, x.effect.rid).Keys
    ensures Apply(db, x) == GiveBack(db, x.effect.rid)
  {
  }

  /** The conditional decrement of a checked hold cannot miss, even if the clock has since passed its expiry. */
  lemma CheckedHoldCanBeSold(db: Db, x: Txn)
    requires Inv(db) && TxnOk(db, x) && x.kind.Owner? && x.read.Some? && x.live
    ensures CanSell(db, x.kind.rid) && x.read.value == db.accepted[x.kind.rid]
  {
    HonouredHoldCanBeSold(db, x.kind.rid);
  }

  ghost predicate MayCommit(x: Txn)
  {
    x.effect != Nothing || x.kind.Sweeper? || x.released == {}
  }

  lemma ExchangeKeepsLedger(db: Db, x: Txn)
    requires Inv(db) && TxnOk(db, x) && x.effect.Exchanging?
    ensures Inv(Apply(db, x))
  {
    hide Inv;
    var Exchanging(change, k, units) := x.effect;
    var swept := Release(db, x.released);
    ReleaseKeepsInv(db, x.released);
    InvMeansExchangeIsPart(swept, k);
    match change
    case Take => SetExchangeKeepsInv(swept, k, ExchangeHeld(db, k) + units);
    case LetGo => SetExchangeKeepsInv(swept, k, ExchangeHeld(db, k) - units);
    case GiveOut =>
      SetExchangeKeepsInv(swept, k, ExchangeHeld(db, k) - units);
      AdjustKeepsInv(SetExchange(swept, k, ExchangeHeld(db, k) - units), k, -(units as int));
  }

  lemma MoveKeepsLedger(db: Db, x: Txn)
    requires Inv(db) && TxnOk(db, x) && x.effect.Moving?
    ensures Inv(Apply(db, x))
  {
    hide Inv;
    ReleaseKeepsInv(db, x.released);
    InvMeansExchangeIsPart(Release(db, x.released), x.effect.key);
    AdjustKeepsInv(Release(db, x.released), x.effect.key, x.effect.delta);
  }

  lemma RestoreKeepsLedger(db: Db, x: Txn)
    requires Inv(db) && TxnOk(db, x) && x.effect.Restoring?
    ensures Inv(Apply(db, x))
  {
    hide Inv;
    var rows := CancelledRows(db, x.effect.order, x.effect.ids);
    ReleaseKeepsInv(db, x.released);
    assert forall i | i in rows :: SoldRow(db.orders, i, rows[i]);
    PutBackKeepsInv(Release(db, x.released), rows);
  }

  lemma CommitKeepsLedger(db: Db, x: Txn)
    requires Inv(db) && TxnOk(db, x) && MayCommit(x)
    ensures Inv(Apply(db, x))
  {
    if x.effect.Selling? { CheckedHoldCanBeSold(db, x); }
    if x.effect.Dropping? { DropIsGiveBack(db, x); }
    hide Inv;
    match x.effect
    case Nothing => ReleaseKeepsInv(db, x.released);
    case Holding(rid, customer, expiresAt, lines) =>
      ReleaseKeepsInv(db, x.released);
      HoldKeepsInv(Release(db, x.released), rid, customer, expiresAt, lines);
    case Moving(_, _) => MoveKeepsLedger(db, x);
    case Exchanging(_, _, _) => ExchangeKeepsLedger(db, x);
    case Restoring(_, _) => RestoreKeepsLedger(db, x);
    case Dropping(rid, _) => GiveBackKeepsInv(db, rid);
    case Selling(rid, _) => SellKeepsInv(db, rid);
  }

  // ---- a commit is one step of the ledger, but for unswept expired rows

  /** The ledger's transaction a commit stands for; a sweep alone stands for none. */
  function OpOf(db: Db, x: Txn): Option<Ledger.Op>
  {
    match x.effect
    case Nothing => None
    case Holding(rid, customer, expiresAt, lines) => Some(Reserve(rid, customer, expiresAt, lines))
    case Moving(k, delta) => Some(Ledger.Move(k, delta))
    case Exchanging(change, k, units) =>
      Some(match change
           case Take => ExchangeHold(k, units)
           case LetGo => ExchangeRelease(k, units)
           case GiveOut => HandOver(k, units))
    case Restoring(n, ids) => Some(CancelItems(n, ids))
    case Dropping(rid, customer) => Some(Cancel(rid, customer))
    case Selling(rid, customer) => Some(Finalize(rid, customer, true))
  }

  /** A sale of a hold whose time ran out between the check under its lock and the commit. */
  predicate Late(db: Db, x: Txn)
  {
    x.effect.Selling? && Expired(db, x.effect.rid)
  }

  predicate AllAreExpired(db: Db, ids: set<HoldId>)
  {
    forall i | i in ids && i in db.items :: Expired(db, i.reservation)
  }

  lemma SweepersReleaseExpired(db: Db, x: Txn)
    requires TxnOk(db, x) && x.kind.Sweeper?
    ensures AllAreExpired(db, x.released)
  {
  }

  lemma EffectIsOk(db: Db, x: Txn)
    requires TxnOk(db, x)
    ensures EffectOk(db, x)
  {
  }

  /** A row that shows enough after releasing some expired rows shows enough after releasing all on its key. */
  lemma FullSweepFreesMore(db: Db, ids: set<HoldId>, keys: set<StockKey>, k: StockKey)
    requires CounterOk(db) && k in keys && k in db.stock
    requires AllAreExpired(db, ids)
    ensures Release(db, ids).stock[k].quantity == Release(db, ExpiredOn(db, keys)).stock[k].quantity
    ensures Release(db, ids).stock[k].reserved >= Release(db, ExpiredOn(db, keys)).stock[k].reserved
  {
    var few, all := Restrict(db.items, ids), Restrict(db.items, ExpiredOn(db, keys));
    HeldOnKey(few, k);
    HeldMonotone(OnKey(few, k), all, k);
  }

  lemma ReserveFitsToo(db: Db, ids: set<HoldId>, lines: seq<HoldItem>)
    requires CounterOk(db) && Fits(Release(db, ids), lines)
    requires AllAreExpired(db, ids)
    ensures Fits(Release(db, ExpiredOn(db, KeysOf(lines))), lines)
  {
    forall n | 0 <= n < |lines|
      ensures Release(db, ids).stock[lines[n].key].quantity
              == Release(db, ExpiredOn(db, KeysOf(lines))).stock[lines[n].key].quantity
              && Release(db, ids).stock[lines[n].key].reserved
              >= Release(db, ExpiredOn(db, KeysOf(lines))).stock[lines[n].key].reserved
    {
      assert lines[n].key in KeysOf(lines);
      FullSweepFreesMore(db, ids, KeysOf(lines), lines[n].key);
    }
  }

  /** Two ways of sweeping differ in no live hold. */
  lemma SweepsAgree(db: Db, ids: set<HoldId>, keys: set<StockKey>)
    requires AllAreExpired(db, ids)
    ensures SameLive(Release(db, ids), Release(db, ExpiredOn(db, keys)))
  {
    hide SameLive;
    SweepingIsInvisible(db, ids);
    SweepingIsInvisible(db, ExpiredOn(db, keys));
    SameLiveSides(db, Release(db, ids), Release(db, ExpiredOn(db, keys)));
  }

  lemma SameLiveSides(db: Db, a: Db, b: Db)
    requires SameLive(db, a) && SameLive(db, b)
    ensures SameLive(a, b) && SameLive(a, db)
  {
  }

  lemma HoldIsReserve(db: Db, x: Txn)
    requires Inv(db) && TxnOk(db, x) && x.effect.Holding?
    ensures Enabled(db, OpOf(db, x).value)
    ensures SameLive(Apply(db, x), Step(db, OpOf(db, x).value).0) && Step(db, OpOf(db, x).value).1
  {
    var Holding(rid, customer, expiresAt, lines) := x.effect;
    var keys := KeysOf(lines);
    ReserveFitsToo(db, x.released, lines);
    hide SameLive;
    SweepsAgree(db, x.released, keys);
    ReleaseKeepsInv(db, x.released);
    ReleaseKeepsInv(db, ExpiredOn(db, keys));
    hide CounterOk, OrdersOk, Conserved, HonourOk, Release;
    ReleaseKeepsRest(db, x.released);
    HoldCongruence(Release(db, x.released), Release(db, ExpiredOn(db, keys)), rid, customer, expiresAt, lines);
  }

  lemma ReleaseKeepsRest(db: Db, ids: set<HoldId>)
    ensures var after := Release(db, ids);
            after == db.(items := db.items - ids, stock := after.stock) && after.stock.Keys == db.stock.Keys
  {
  }

  lemma ExchangedKeepsRest(db: Db, change: Change, k: StockKey, units: nat)
    ensures var after := Exchanged(db, change, k, units);
            after == db.(stock := after.stock, exchange := after.exchange, movements := after.movements)
  {
  }

  lemma MoveAfterSweep(db: Db, ids: set<HoldId>, k: StockKey, delta: int)
    requires CounterOk(db) && AllAreExpired(db, ids) && k in db.stock
    requires delta > 0 || var row := Release(db, ids).stock[k]; row.quantity + delta - row.reserved >= 0
    ensures MoveStep(db, k, delta).1 && SameLive(Adjust(Release(db, ids), k, delta), MoveStep(db, k, delta).0)
  {
    hide SameLive, Release, ExpiredOn, CounterOk, AllAreExpired;
    FullSweepFreesMore(db, ids, {k}, k);
    SweepsAgree(db, ids, {k});
    ReleaseKeepsRest(db, ids);
    ReleaseKeepsRest(db, ExpiredOn(db, {k}));
    AdjustCongruence(Release(db, ids), Release(db, ExpiredOn(db, {k})), k, delta);
  }

  lemma MoveIsMove(db: Db, x: Txn)
    requires Inv(db) && TxnOk(db, x) && x.effect.Moving?
    ensures SameLive(Apply(db, x), Step(db, OpOf(db, x).value).0) && Step(db, OpOf(db, x).value).1
  {
    hide SameLive, Release, MoveStep, Inv, TxnOk, Adjust, AllAreExpired;
    EffectIsOk(db, x);
    SweepersReleaseExpired(db, x);
    InvMeansCountersOk(db);
    MoveAfterSweep(db, x.released, x.effect.key, x.effect.delta);
  }

  /** A change of what an exchange holds, after any sweep, against the same change after a full one. */
  lemma SetExchangeAfterSweep(db: Db, ids: set<HoldId>, k: StockKey, held: nat)
    requires AllAreExpired(db, ids) && k in db.stock
    ensures var some, all := Release(db, ids), Release(db, ExpiredOn(db, {k}));
            k in some.stock && k in all.stock && SameLive(SetExchange(some, k, held), SetExchange(all, k, held))
            && some.exchange == db.exchange && all.exchange == db.exchange
  {
    hide SameLive, Release, ExpiredOn, AllAreExpired, SetExchange;
    SweepsAgree(db, ids, {k});
    ReleaseKeepsRest(db, ids);
    ReleaseKeepsRest(db, ExpiredOn(db, {k}));
    SetExchangeCongruence(Release(db, ids), Release(db, ExpiredOn(db, {k})), k, held);
  }

  lemma SameExchangeHeld(a: Db, b: Db, k: StockKey)
    requires a.exchange == b.exchange
    ensures ExchangeHeld(a, k) == ExchangeHeld(b, k)
  {
  }

  lemma TakeIsExchangeHold(db: Db, ids: set<HoldId>, k: StockKey, units: nat)
    requires CounterOk(db) && AllAreExpired(db, ids) && k in db.stock
    requires var row := Release(db, ids).stock[k]; units <= row.quantity - row.reserved
    ensures ExchangeHoldStep(db, k, units).1
    ensures SameLive(Exchanged(Release(db, ids), Take, k, units), ExchangeHoldStep(db, k, units).0)
  {
    hide SameLive, Release, ExpiredOn, CounterOk, AllAreExpired, SetExchange, ExchangeHeld;
    FullSweepFreesMore(db, ids, {k}, k);
    ReleaseKeepsRest(db, ids);
    SameExchangeHeld(db, Release(db, ids), k);
    SetExchangeAfterSweep(db, ids, k, ExchangeHeld(db, k) + units);
  }

  lemma LetGoIsExchangeRelease(db: Db, ids: set<HoldId>, k: StockKey, units: nat)
    requires AllAreExpired(db, ids) && k in db.stock && units <= ExchangeHeld(db, k)
    ensures SameLive(Exchanged(Release(db, ids), LetGo, k, units), ExchangeReleaseStep(db, k, units).0)
    ensures SameLive(Exchanged(Release(db, ids), GiveOut, k, units), HandOverStep(db, k, units).0)
    ensures ExchangeReleaseStep(db, k, units).1 && HandOverStep(db, k, units).1
  {
    hide SameLive, Release, ExpiredOn, AllAreExpired, SetExchange, Adjust, ExchangeHeld;
    ReleaseKeepsRest(db, ids);
    SameExchangeHeld(db, Release(db, ids), k);
    SetExchangeAfterSweep(db, ids, k, ExchangeHeld(db, k) - units);
    AdjustCongruence(Exchanged(Release(db, ids), LetGo, k, units), ExchangeReleaseStep(db, k, units).0, k, -(units as int));
  }

  lemma ExchangeIsExchange(db: Db, x: Txn)
    requires Inv(db) && TxnOk(db, x) && x.effect.Exchanging?
    ensures Enabled(db, OpOf(db, x).value)
    ensures SameLive(Apply(db, x), Step(db, OpOf(db, x).value).0) && Step(db, OpOf(db, x).value).1
  {
    hide SameLive, Release, Exchanged, ExchangeHoldStep, ExchangeReleaseStep, HandOverStep, Inv, TxnOk, AllAreExpired;
    EffectIsOk(db, x);
    SweepersReleaseExpired(db, x);
    InvMeansCountersOk(db);
    match x.effect.change
    case Take => TakeIsExchangeHold(db, x.released, x.effect.key, x.effect.units);
    case LetGo => LetGoIsExchangeRelease(db, x.released, x.effect.key, x.effect.units);
    case GiveOut => LetGoIsExchangeRelease(db, x.released, x.effect.key, x.effect.units);
  }

  lemma RestoreIsCancelItems(db: Db, x: Txn)
    requires TxnOk(db, x) && x.effect.Restoring?
    ensures Enabled(db, OpOf(db, x).value)
    ensures SameLive(Apply(db, x), Step(db, OpOf(db, x).value).0) && Step(db, OpOf(db, x).value).1
  {
    var rows := CancelledRows(db, x.effect.order, x.effect.ids);
    hide SameLive;
    SweepsAgree(db, x.released, KeysIn(rows));
    PutBackCongruence(Release(db, x.released), Release(db, ExpiredOn(db, KeysIn(rows))), rows);
  }

  lemma DropIsCancel(db: Db, x: Txn)
    requires TxnOk(db, x) && x.effect.Dropping?
    ensures OpOf(db, x).Some? && (Apply(db, x), true) == Step(db, OpOf(db, x).value)
  {
    DropIsGiveBack(db, x);
  }

  /** A sale is the ledger's sale exactly when its hold has not run out by then; the ledger refuses a late one. */
  lemma SellIsFinalizeIff(db: Db, x: Txn)
    requires Inv(db) && TxnOk(db, x) && x.effect.Selling?
    ensures OpOf(db, x).Some? && |Apply(db, x).orders| == |db.orders| + 1
    ensures if Late(db, x) then Step(db, OpOf(db, x).value) == (db, false)
            else Step(db, OpOf(db, x).value) == (Apply(db, x), true)
  {
    CheckedHoldCanBeSold(db, x);
  }

  /**
   * Each commit against the ledger's own step from the same state: it leaves the same live holds,
   * stock and orders, the ledger accepts that step too, and this fails exactly for a late sale.
   */
  lemma CommitIsAtomic(db: Db, x: Txn)
    requires Inv(db) && TxnOk(db, x) && MayCommit(x)
    ensures match OpOf(db, x)
            case None => SameLive(Apply(db, x), db)
            case Some(op) =>
              Enabled(db, op)
              && (SameLive(Apply(db, x), Step(db, op).0) <==> !Late(db, x)) && (Step(db, op).1 <==> !Late(db, x))
  {
    match x.effect
    case Nothing =>
      SweepingIsInvisible(db, x.released);
      SameLiveSides(db, Apply(db, x), Apply(db, x));
    case Holding(_, _, _, _) => HoldIsReserve(db, x);
    case Moving(_, _) => MoveIsMove(db, x);
    case Exchanging(_, _, _) => ExchangeIsExchange(db, x);
    case Restoring(_, _) => RestoreIsCancelItems(db, x);
    case Dropping(_, _) => DropIsCancel(db, x);
    case Selling(_, _) => SellIsFinalizeIff(db, x);
  }

  // ---- what a commit leaves alone

  /** Nothing a holder of `rids` and `keys` can see has changed between `db` and `after`. */
  ghost predicate Undisturbed(db: Db, after: Db, rids: set<Id>, keys: set<StockKey>)
  {
    && after.now == db.now
    && (forall i: HoldId | i.reservation in rids ::
          (i in db.items <==> i in after.items) && (i in db.items ==> after.items[i] == db.items[i]))
    && (forall rid | rid in rids ::
          (rid in db.reservations <==> rid in after.reservations)
          && (rid in db.reservations ==> after.reservations[rid] == db.reservations[rid]))
    && db.stock.Keys <= after.stock.Keys
    && (forall k | k in keys && k in db.stock :: after.stock[k] == db.stock[k])
    && (forall rid | rid in db.accepted :: rid in after.accepted && after.accepted[rid] == db.accepted[rid])
    && (forall rid | rid in db.accepted && rid !in db.reservations :: rid !in after.reservations)
    && (forall k | k in keys :: ExchangeHeld(after, k) == ExchangeHeld(db, k))
    && db.orders <= after.orders
  }

  lemma ReleaseLeavesOthersAlone(db: Db, x: Txn, rids: set<Id>, keys: set<StockKey>)
    requires ReleasedOk(db, x) && rids !! x.reservationLocks && keys !! x.stockLocks
    ensures Undisturbed(db, Release(db, x.released), rids, keys)
  {
    forall k | k in keys ensures Held(Restrict(db.items, x.released), k) == 0 {
      HeldNone(Restrict(db.items, x.released), k);
    }
  }

  lemma HoldUndisturbed(db: Db, rid: Id, customer: Id, expiresAt: int, lines: seq<HoldItem>, rids: set<Id>, keys: set<StockKey>)
    requires rid !in db.accepted && rids <= db.accepted.Keys && keys !! KeysOf(lines)
    ensures Undisturbed(db, Ledger.Hold(db, rid, customer, expiresAt, lines), rids, keys)
  {
    hide NewRows, Demand, KeysOf;
    NothingElsewhere(rid, lines, keys);
  }

  lemma NothingElsewhere(rid: Id, lines: seq<HoldItem>, keys: set<StockKey>)
    requires keys !! KeysOf(lines)
    ensures forall k | k in keys :: Demand(lines, k) == 0
    ensures forall i | i in NewRows(rid, lines) :: i.reservation == rid
  {
    forall k | k in keys ensures Demand(lines, k) == 0 {
      assert forall n | 0 <= n < |lines| :: lines[n].key in KeysOf(lines);
      NoDemandElsewhere(lines, k);
    }
  }

  lemma UndisturbedTwice(a: Db, b: Db, c: Db, rids: set<Id>, keys: set<StockKey>)
    requires Undisturbed(a, b, rids, keys) && Undisturbed(b, c, rids, keys)
    ensures Undisturbed(a, c, rids, keys)
  {
  }

  lemma HoldLeavesOthersAlone(db: Db, x: Txn, rids: set<Id>, keys: set<StockKey>)
    requires TxnOk(db, x) && x.effect.Holding?
    requires rids !! x.reservationLocks && keys !! x.stockLocks && rids <= db.accepted.Keys
    ensures Undisturbed(db, Apply(db, x), rids, keys)
  {
    var swept := Release(db, x.released);
    ReleaseLeavesOthersAlone(db, x, rids, keys);
    var Holding(rid, customer, expiresAt, lines) := x.effect;
    hide Undisturbed;
    HoldUndisturbed(swept, rid, customer, expiresAt, lines, rids, keys);
    UndisturbedTwice(db, swept, Apply(db, x), rids, keys);
  }

  lemma MoveLeavesOthersAlone(db: Db, x: Txn, rids: set<Id>, keys: set<StockKey>)
    requires TxnOk(db, x) && x.effect.Moving?
    requires rids !! x.reservationLocks && keys !! x.stockLocks
    ensures Undisturbed(db, Apply(db, x), rids, keys)
  {
    ReleaseLeavesOthersAlone(db, x, rids, keys);
    hide Release;
  }

  lemma DropLeavesOthersAlone(db: Db, x: Txn, rids: set<Id>, keys: set<StockKey>)
    requires TxnOk(db, x) && x.effect.Dropping?
    requires rids !! x.reservationLocks && keys !! x.stockLocks
    ensures Undisturbed(db, Apply(db, x), rids, keys)
  {
    ReleaseLeavesOthersAlone(db, x, rids, keys);
    hide Release;
  }

  lemma ExchangeUndisturbed(db: Db, change: Change, k: StockKey, units: nat, rids: set<Id>, keys: set<StockKey>)
    requires k !in keys
    ensures Undisturbed(db, Exchanged(db, change, k, units), rids, keys)
  {
    hide Exchanged;
    ExchangedKeepsRest(db, change, k, units);
    ExchangedElsewhere(db, change, k, units);
  }

  lemma ExchangedElsewhere(db: Db, change: Change, k: StockKey, units: nat)
    ensures var after := Exchanged(db, change, k, units);
            after.stock.Keys == db.stock.Keys
            && forall j | j != k :: ExchangeHeld(after, j) == ExchangeHeld(db, j)
                                    && (j in db.stock ==> after.stock[j] == db.stock[j])
  {
  }

  lemma ExchangeLeavesOthersAlone(db: Db, x: Txn, rids: set<Id>, keys: set<StockKey>)
    requires TxnOk(db, x) && x.effect.Exchanging?
    requires rids !! x.reservationLocks && keys !! x.stockLocks
    ensures Undisturbed(db, Apply(db, x), rids, keys)
  {
    var swept := Release(db, x.released);
    ReleaseLeavesOthersAlone(db, x, rids, keys);
    hide Undisturbed;
    ExchangeUndisturbed(swept, x.effect.change, x.effect.key, x.effect.units, rids, keys);
    UndisturbedTwice(db, swept, Apply(db, x), rids, keys);
  }

  lemma PutBackUndisturbed(db: Db, rows: HoldTable, rids: set<Id>, keys: set<StockKey>)
    requires keys !! KeysIn(rows)
    ensures Undisturbed(db, PutBack(db, rows), rids, keys)
  {
    forall k | k in keys ensures Held(rows, k) == 0 {
      HeldNone(rows, k);
    }
  }

  lemma RestoreLeavesOthersAlone(db: Db, x: Txn, rids: set<Id>, keys: set<StockKey>)
    requires TxnOk(db, x) && x.effect.Restoring?
    requires rids !! x.reservationLocks && keys !! x.stockLocks
    ensures Undisturbed(db, Apply(db, x), rids, keys)
  {
    var swept := Release(db, x.released);
    ReleaseLeavesOthersAlone(db, x, rids, keys);
    hide Undisturbed;
    PutBackUndisturbed(swept, CancelledRows(db, x.effect.order, x.effect.ids), rids, keys);
    UndisturbedTwice(db, swept, Apply(db, x), rids, keys);
  }

  lemma SellLeavesOthersAlone(db: Db, x: Txn, rids: set<Id>, keys: set<StockKey>)
    requires TxnOk(db, x) && x.effect.Selling?
    requires rids !! x.reservationLocks && keys !! x.stockLocks
    ensures Undisturbed(db, Apply(db, x), rids, keys)
  {
    var rows := RowsOf(db.items, x.effect.rid);
    forall k | k in keys ensures Held(rows, k) == 0 {
      HeldNone(rows, k);
    }
  }

  lemma CommitLeavesOthersAlone(db: Db, x: Txn, rids: set<Id>, keys: set<StockKey>)
    requires TxnOk(db, x) && Inv(db)
    requires rids !! x.reservationLocks && keys !! x.stockLocks && rids <= db.accepted.Keys
    ensures Undisturbed(db, Apply(db, x), rids, keys)
  {
    hide Undisturbed, Inv;
    match x.effect
    case Nothing => ReleaseLeavesOthersAlone(db, x, rids, keys);
    case Holding(_, _, _, _) => HoldLeavesOthersAlone(db, x, rids, keys);
    case Moving(_, _) => MoveLeavesOthersAlone(db, x, rids, keys);
    case Exchanging(_, _, _) => ExchangeLeavesOthersAlone(db, x, rids, keys);
    case Restoring(_, _) => RestoreLeavesOthersAlone(db, x, rids, keys);
    case Dropping(_, _) => DropLeavesOthersAlone(db, x, rids, keys);
    case Selling(_, _) => SellLeavesOthersAlone(db, x, rids, keys);
  }

  // ---- so every other transaction is still all right

  lemma SameRowsUnderLock(db: Db, after: Db, y: Txn, rid: Id)
    requires Undisturbed(db, after, y.reservationLocks, y.stockLocks) && rid in y.reservationLocks
    ensures RowsOf(after.items, rid) == RowsOf(db.items, rid)
  {
    assert forall i | i in RowsOf(db.items, rid) :: i.reservation in y.reservationLocks;
    assert forall i | i in RowsOf(after.items, rid) :: i.reservation in y.reservationLocks;
  }

  lemma SameLockedCounters(db: Db, after: Db, y: Txn, k: StockKey)
    requires ReleasedOk(db, y) && Undisturbed(db, after, y.reservationLocks, y.stockLocks)
    requires k in y.stockLocks && k in db.stock
    ensures Release(after, y.released).stock[k] == Release(db, y.released).stock[k]
  {
    assert Restrict(after.items, y.released) == Restrict(db.items, y.released);
  }

  lemma SameFit(db: Db, after: Db, y: Txn, lines: seq<HoldItem>)
    requires LocksOk(db, y) && ReleasedOk(db, y) && Undisturbed(db, after, y.reservationLocks, y.stockLocks)
    requires KeysOf(lines) <= y.stockLocks && Fits(Release(db, y.released), lines)
    ensures Fits(Release(after, y.released), lines)
  {
    forall n | 0 <= n < |lines|
      ensures lines[n].key in after.stock
              && Release(after, y.released).stock[lines[n].key] == Release(db, y.released).stock[lines[n].key]
    {
      assert lines[n].key in KeysOf(lines);
      SameLockedCounters(db, after, y, lines[n].key);
    }
  }

  lemma UndisturbedStaysOk(db: Db, after: Db, y: Txn)
    requires TxnOk(db, y) && Undisturbed(db, after, y.reservationLocks, y.stockLocks)
    requires y.effect.Holding? ==> y.effect.rid !in after.accepted
    requires y.effect.Restoring? ==> y.effect.ids !! after.restored.Keys
    ensures TxnOk(after, y)
  {
    assert forall rid | rid in y.reservationLocks :: Expired(after, rid) == Expired(db, rid);
    assert LocksOk(after, y);
    assert ReleasedOk(after, y);
    if y.read.Some? { SameRowsUnderLock(db, after, y, y.kind.rid); }
    match y.effect
    case Holding(_, _, _, lines) => SameFit(db, after, y, lines);
    case Moving(k, _) => SameLockedCounters(db, after, y, k);
    case Exchanging(_, k, _) => SameLockedCounters(db, after, y, k);
    case Restoring(n, _) => assert after.orders[n] == db.orders[n];
    case _ =>
  }

  lemma ClockKeepsTxnOk(db: Db, x: Txn, time: nat)
    requires TxnOk(db, x)
    ensures TxnOk(Later(db, time), x)
  {
    var after := Later(db, time);
    assert forall rid :: Expired(db, rid) ==> Expired(after, rid);
    assert Release(after, x.released).stock == Release(db, x.released).stock;
    if x.effect.Holding? {
      assert Fits(Release(after, x.released), x.effect.lines) == Fits(Release(db, x.released), x.effect.lines);
    }
  }

  // ---- exactly once

  lemma RowsLeaveOnce(db: Db, x: Txn, left: multiset<HoldId>)
    requires Inv(db) && TxnOk(db, x) && LeftOnce(db, left)
    requires MayCommit(x)
    ensures LeftOnce(Apply(db, x), left + multiset(Leaving(db, x)))
  {
    var after := Apply(db, x);
    forall i: HoldId
      ensures (left + multiset(Leaving(db, x)))[i] ==
              if i.reservation in after.accepted && i in after.accepted[i.reservation] && i !in after.items then 1 else 0
    {
      RowLeavesOnce(db, x, i);
    }
  }

  /** A commit removes exactly the rows whose quantity it takes out of a counter, and brings back none. */
  lemma RowLeavesOnce(db: Db, x: Txn, i: HoldId)
    requires Inv(db) && TxnOk(db, x)
    ensures i in db.items ==> i.reservation in db.accepted && i in db.accepted[i.reservation]
    ensures i in Leaving(db, x) ==> i in db.items && i !in Apply(db, x).items
    ensures i in db.items && i !in Leaving(db, x) ==> i in Apply(db, x).items
    ensures i.reservation in db.accepted ==>
              i.reservation in Apply(db, x).accepted
              && Apply(db, x).accepted[i.reservation] == db.accepted[i.reservation]
              && (i !in db.items ==> i !in Apply(db, x).items)
    ensures i.reservation !in db.accepted ==>
              (i.reservation in Apply(db, x).accepted && i in Apply(db, x).accepted[i.reservation] <==> i in Apply(db, x).items)
  {
    CommittedItems(db, x);
    CommittedAccepted(db, x);
    RowsWereAccepted(db, i);
    hide Apply, Leaving, LocksOk, ReleasedOk, ReadOk, Inv;
    if x.effect.Holding? { assert forall j | j in NewRows(x.effect.rid, x.effect.lines) :: j.reservation == x.effect.rid; }
  }

  lemma RowsWereAccepted(db: Db, i: HoldId)
    requires Inv(db)
    ensures i in db.items ==> i.reservation in db.accepted && i in db.accepted[i.reservation]
  {
  }

  lemma CommittedItems(db: Db, x: Txn)
    requires TxnOk(db, x)
    ensures Leaving(db, x) <= db.items.Keys
    ensures Apply(db, x).items.Keys == (db.items.Keys - Leaving(db, x))
              + (if x.effect.Holding? then NewRows(x.effect.rid, x.effect.lines).Keys else {})
  {
    if x.effect.Dropping? {
      DroppedItems(db, x);
    } else {
      ReleasedAreRows(db, x);
      OwnersSell(db, x);
      hide Release, Exchanged, NewRows, TxnOk, CancelledRows;
      ReleaseKeepsRest(db, x.released);
      if x.effect.Exchanging? {
        ExchangedKeepsRest(Release(db, x.released), x.effect.change, x.effect.key, x.effect.units);
      }
    }
  }

  lemma DroppedItems(db: Db, x: Txn)
    requires TxnOk(db, x) && x.effect.Dropping?
    ensures x.released <= db.items.Keys && Apply(db, x).items.Keys == db.items.Keys - x.released
  {
    DropIsGiveBack(db, x);
    NothingLeftToCascade(db.items, x.effect.rid);
  }

  lemma ReleasedAreRows(db: Db, x: Txn)
    requires TxnOk(db, x)
    ensures x.released <= db.items.Keys
  {
  }

  lemma OwnersSell(db: Db, x: Txn)
    requires TxnOk(db, x)
    ensures x.effect.Selling? ==> x.effect.rid in db.reservations
  {
  }

  lemma CommittedAccepted(db: Db, x: Txn)
    ensures Apply(db, x).accepted ==
            if x.effect.Holding? then db.accepted[x.effect.rid := NewRows(x.effect.rid, x.effect.lines)] else db.accepted
  {
    hide Release, Exchanged, RowsOf, NewRows, CancelledRows, KeysIn;
    ReleaseKeepsRest(db, x.released);
    if x.effect.Exchanging? {
      ExchangedKeepsRest(Release(db, x.released), x.effect.change, x.effect.key, x.effect.units);
    }
  }

  // ---- every statement, every run

  lemma CommitKeepsSound(s: Sys, t: Id)
    requires Sound(s) && Can(s, Commit(t))
    ensures Sound(Do(s, Commit(t)))
  {
    hide TxnOk, LeftOnce, Inv, Leaving;
    var x, after := s.txns[t], Apply(s.db, s.txns[t]);
    CommitKeepsLedger(s.db, x);
    RowsLeaveOnce(s.db, x, s.left);
    forall u | u in s.txns && u != t ensures TxnOk(after, s.txns[u]) {
      OtherSurvivesCommit(s.db, x, s.txns[u]);
    }
  }

  lemma OtherSurvivesCommit(db: Db, x: Txn, y: Txn)
    requires Inv(db) && TxnOk(db, x) && TxnOk(db, y) && Apart(x, y)
    ensures TxnOk(Apply(db, x), y)
  {
    ClaimsStayFree(db, x, y);
    hide Undisturbed, Apply, Inv, ReleasedOk, ReadOk, EffectOk;
    CommitLeavesOthersAlone(db, x, y.reservationLocks, y.stockLocks);
    UndisturbedStaysOk(db, Apply(db, x), y);
  }

  /** A new reservation's id and the items about to be cancelled belong to one transaction. */
  lemma ClaimsStayFree(db: Db, x: Txn, y: Txn)
    requires TxnOk(db, x) && TxnOk(db, y) && Apart(x, y)
    ensures y.effect.Holding? ==> y.effect.rid !in Apply(db, x).accepted
    ensures y.effect.Restoring? ==> y.effect.ids !! Apply(db, x).restored.Keys
  {
    hide LocksOk, ReleasedOk, ReadOk, Fits, Apply, CancelledRows;
    CommittedAccepted(db, x);
    ApplyKeepsHistory(db, x);
    if x.effect.Restoring? { SameOrdersSameRows(db, db, x.effect.order, x.effect.ids); }
  }

  lemma ApplyKeepsHistory(db: Db, x: Txn)
    ensures Apply(db, x).restored ==
            if x.effect.Restoring? then db.restored + CancelledRows(db, x.effect.order, x.effect.ids) else db.restored
    ensures !x.effect.Selling? ==> Apply(db, x).orders == db.orders
  {
    hide Release, Exchanged, RowsOf, NewRows, KeysIn, CancelledRows;
    ReleaseKeepsRest(db, x.released);
    if x.effect.Exchanging? {
      ExchangedKeepsRest(Release(db, x.released), x.effect.change, x.effect.key, x.effect.units);
    }
    if x.effect.Restoring? { SameOrdersSameRows(db, Release(db, x.released), x.effect.order, x.effect.ids); }
  }

  lemma SameOrdersSameRows(db: Db, after: Db, n: nat, ids: set<HoldId>)
    requires after.orders == db.orders
    ensures CancelledRows(after, n, ids) == CancelledRows(db, n, ids)
    ensures CancelledRows(db, n, ids).Keys <= ids
  {
  }

  lemma ElapseKeepsSound(s: Sys, time: nat)
    requires Sound(s)
    ensures Sound(Do(s, Elapse(time)))
  {
    TickKeepsInv(s.db, time);
    forall t | t in s.txns ensures TxnOk(Later(s.db, time), s.txns[t]) {
      ClockKeepsTxnOk(s.db, s.txns[t], time);
    }
  }

  lemma CreateUndisturbed(db: Db, k: StockKey, delta: int, rids: set<Id>, keys: set<StockKey>)
    requires k !in keys
    ensures Undisturbed(db, Adjust(db, k, delta), rids, keys)
  {
  }

  lemma CreateKeepsTxnOk(db: Db, k: StockKey, delta: int, x: Txn)
    requires TxnOk(db, x) && k !in db.stock
    ensures TxnOk(Adjust(db, k, delta), x)
  {
    hide Undisturbed, ReleasedOk, ReadOk;
    CreateUndisturbed(db, k, delta, x.reservationLocks, x.stockLocks);
    UndisturbedStaysOk(db, Adjust(db, k, delta), x);
  }

  lemma CreateKeepsSound(s: Sys, k: StockKey, delta: int)
    requires Sound(s) && k !in s.db.stock && delta > 0
    ensures Sound(Do(s, CreateRow(k, delta)))
  {
    hide TxnOk, Inv;
    AdjustKeepsInv(s.db, k, delta);
    forall t | t in s.txns ensures TxnOk(Adjust(s.db, k, delta), s.txns[t]) {
      CreateKeepsTxnOk(s.db, k, delta, s.txns[t]);
    }
  }

  /** The ledger's movement step on a missing row sweeps nothing. */
  lemma CreateIsMove(db: Db, k: StockKey, delta: int)
    requires CounterOk(db) && k !in db.stock && delta > 0
    ensures MoveStep(db, k, delta) == (Adjust(db, k, delta), true)
  {
    assert ExpiredOn(db, {k}) == {};
    assert Restrict(db.items, {}) == map[];
    assert Release(db, {}) == db by { assert Release(db, {}).stock == db.stock; }
  }

  lemma BeginKeepsSound(s: Sys, t: Id, kind: Kind)
    requires Sound(s) && t !in s.txns
    ensures Sound(Do(s, Begin(t, kind)))
  {
    assert TxnOk(s.db, NewTxn(kind));
  }

  /** A statement of transaction `t` needs to keep only `t` right and apart from the others. */
  lemma OwnStatementKeepsSound(s: Sys, t: Id, x: Txn)
    requires Sound(s) && t in s.txns && TxnOk(s.db, x)
    requires forall u | u in s.txns && u != t :: Apart(x, s.txns[u]) && Apart(s.txns[u], x)
    ensures Sound(s.(txns := s.txns[t := x]))
  {
  }

  lemma StatementKeepsTxnOk(s: Sys, a: Action, x: Txn)
    requires IsStatement(a)
    requires Inv(s.db) && TxnOk(s.db, x) && CanTxn(s, a, x)
    ensures TxnOk(s.db, TxnAfter(s, a, x))
  {
    hide Inv, TxnOk, CanTxn, TxnAfter;
    if a.LockReservation? || a.LockStock? || a.Sweep? {
      LockingKeepsTxnOk(s, a, x);
    } else if a.Hold? || a.Move? || a.Exchange? || a.Restore? {
      AnnouncingKeepsTxnOk(s, a, x);
    } else {
      OwnerKeepsTxnOk(s, a, x);
    }
  }

  lemma LockingKeepsTxnOk(s: Sys, a: Action, x: Txn)
    requires a.LockReservation? || a.LockStock? || a.Sweep?
    requires TxnOk(s.db, x) && CanTxn(s, a, x)
    ensures TxnOk(s.db, TxnAfter(s, a, x))
  {
    hide Release, Fits, CanSell;
  }

  lemma OwnerKeepsTxnOk(s: Sys, a: Action, x: Txn)
    requires a.ReadRows? || a.CheckLive? || a.ReleaseItem? || a.Drop? || a.Sell?
    requires Inv(s.db) && TxnOk(s.db, x) && CanTxn(s, a, x)
    ensures TxnOk(s.db, TxnAfter(s, a, x))
  {
    if a.CheckLive? { InvMeansLiveRowsAreAccepted(s.db, x.kind.rid); }
  }

  /** A statement that announces the effect changes nothing the effect is judged by. */
  lemma AnnouncingKeepsTxnOk(s: Sys, a: Action, x: Txn)
    requires a.Hold? || a.Move? || a.Exchange? || a.Restore?
    requires TxnOk(s.db, x) && CanTxn(s, a, x)
    ensures TxnOk(s.db, TxnAfter(s, a, x))
  {
    hide Release, Fits, CanSell;
  }

  lemma StatementKeepsApart(s: Sys, a: Action, x: Txn)
    requires IsStatement(a)
    requires Sound(s) && a.t in s.txns && x == s.txns[a.t] && CanTxn(s, a, x)
    ensures forall u | u in s.txns && u != a.t :: Apart(TxnAfter(s, a, x), s.txns[u]) && Apart(s.txns[u], TxnAfter(s, a, x))
  {
    forall u | u in s.txns && u != a.t
      ensures Apart(TxnAfter(s, a, x), s.txns[u]) && Apart(s.txns[u], TxnAfter(s, a, x))
    {
      assert Apart(x, s.txns[u]);
    }
  }

  lemma StatementKeepsSound(s: Sys, a: Action)
    requires Sound(s) && Can(s, a)
    ensures Sound(Do(s, a))
  {
    if a.Elapse? {
      ElapseKeepsSound(s, a.time);
    } else if a.CreateRow? {
      CreateKeepsSound(s, a.key, a.delta);
    } else if a.Begin? {
      BeginKeepsSound(s, a.t, a.kind);
    } else if a.Commit? {
      CommitKeepsSound(s, a.t);
    } else if a.Abort? {
    } else {
      StatementKeepsTxnOk(s, a, s.txns[a.t]);
      StatementKeepsApart(s, a, s.txns[a.t]);
      OwnStatementKeepsSound(s, a.t, TxnAfter(s, a, s.txns[a.t]));
    }
  }

  /** No transactions, an empty database. */
  ghost function Start(now: int): (s: Sys)
    ensures Sound(s)
  {
    Sys(Empty(now), map[], multiset{})
  }

  ghost predicate Runs(s: Sys, actions: seq<Action>)
    requires Sound(s)
    decreases |actions|
  {
    actions == [] ||
    (Can(s, actions[0]) && (StatementKeepsSound(s, actions[0]); Runs(Do(s, actions[0]), actions[1..])))
  }

  ghost function After(s: Sys, actions: seq<Action>): Sys
    requires Sound(s) && Runs(s, actions)
    decreases |actions|
  {
    if actions == [] then s
    else
      StatementKeepsSound(s, actions[0]);
      After(Do(s, actions[0]), actions[1..])
  }

  lemma {:induction false} RunKeepsSound(s: Sys, actions: seq<Action>)
    requires Sound(s) && Runs(s, actions)
    ensures Sound(After(s, actions))
    decreases |actions|
  {
    if actions != [] {
      StatementKeepsSound(s, actions[0]);
      RunKeepsSound(Do(s, actions[0]), actions[1..]);
    }
  }

  /**
   * Exactly-once release under interleaving: at every point of every run the committed counter is
   * the sum of the surviving rows, and each row ever written has left it once if it is gone, and
   * not at all if it is still there.
   */
  lemma ReleasedExactlyOnce(now: int, actions: seq<Action>)
    requires Runs(Start(now), actions)
    ensures var s := After(Start(now), actions);
            && (forall rid, i | rid in s.db.accepted && i in s.db.accepted[rid] ::
                  s.left[i] == (if i in s.db.items then 0 else 1)
                  && (i in s.db.items ==> s.db.items[i] == s.db.accepted[rid][i]))
            && (forall k | k in s.db.stock ::
                  s.db.stock[k].reserved == Held(s.db.items, k) + ExchangeHeld(s.db, k)
                  && 0 <= s.db.stock[k].reserved <= s.db.stock[k].quantity)
  {
    RunKeepsSound(Start(now), actions);
  }

  /**
   * Whatever runs beside it, a confirm that has found its hold live can finish: its guarded
   * decrements all match and it sells exactly the accepted rows.
   */
  lemma LiveConfirmCannotFail(now: int, actions: seq<Action>, t: Id)
    requires Runs(Start(now), actions)
    requires var s := After(Start(now), actions);
             t in s.txns && s.txns[t].kind.Owner? && s.txns[t].live && s.txns[t].read.Some?
    ensures var s := After(Start(now), actions);
            var rid := s.txns[t].kind.rid;
            && CanSell(s.db, rid) && rid in s.db.accepted
            && s.txns[t].read.value == s.db.accepted[rid] == RowsOf(s.db.items, rid)
  {
    RunKeepsSound(Start(now), actions);
    var s := After(Start(now), actions);
    CheckedHoldCanBeSold(s.db, s.txns[t]);
  }

  // ---- a run against the ledger's transactions in the order of the commits

  /** In every reachable state, whichever transaction commits next: a ledger step, unless it sells late. */
  lemma EveryCommitIsAtomic(now: int, actions: seq<Action>, t: Id)
    requires Runs(Start(now), actions) && Can(After(Start(now), actions), Commit(t))
    ensures var s := After(Start(now), actions);
            match OpOf(s.db, s.txns[t])
            case None => SameLive(Apply(s.db, s.txns[t]), s.db)
            case Some(op) =>
              Enabled(s.db, op)
              && (SameLive(Apply(s.db, s.txns[t]), Step(s.db, op).0) <==> !Late(s.db, s.txns[t]))
              && (Step(s.db, op).1 <==> !Late(s.db, s.txns[t]))
  {
    hide TxnOk, Inv, OpOf, Late, Apply, SameLive;
    RunKeepsSound(Start(now), actions);
    var s := After(Start(now), actions);
    CommitIsAtomic(s.db, s.txns[t]);
  }

  /** What one statement adds to the serial history: a commit its transaction, the clock its tick. */
  function OpsOf(s: Sys, a: Action): seq<Ledger.Op>
    requires a.Commit? ==> a.t in s.txns
  {
    match a
    case CreateRow(k, delta) => [Ledger.Move(k, delta)]
    case Elapse(time) => [Tick(time)]
    case Commit(t) => (match OpOf(s.db, s.txns[t]) case Some(op) => [op] case None => [])
    case _ => []
  }

  ghost function Serial(s: Sys, actions: seq<Action>): seq<Ledger.Op>
    requires Sound(s) && Runs(s, actions)
    decreases |actions|
  {
    if actions == [] then []
    else
      StatementKeepsSound(s, actions[0]);
      OpsOf(s, actions[0]) + Serial(Do(s, actions[0]), actions[1..])
  }

  /** No commit of the run is a late sale. */
  ghost predicate OnTime(s: Sys, actions: seq<Action>)
    requires Sound(s) && Runs(s, actions)
    decreases |actions|
  {
    actions == [] ||
    (StatementKeepsSound(s, actions[0]);
     !(actions[0].Commit? && Late(s.db, s.txns[actions[0].t])) && OnTime(Do(s, actions[0]), actions[1..]))
  }

  /** From `l` the ledger can take the transactions, and accepts each; a cancel may find its hold gone. */
  ghost predicate Accepts(l: Db, ops: seq<Ledger.Op>)
    decreases |ops|
  {
    ops == [] ||
    (Enabled(l, ops[0]) && (ops[0].Cancel? || Step(l, ops[0]).1) && Accepts(Step(l, ops[0]).0, ops[1..]))
  }

  lemma {:induction false} AcceptsMeansRuns(l: Db, ops: seq<Ledger.Op>)
    requires Accepts(l, ops)
    ensures Ledger.Runs(l, ops)
    decreases |ops|
  {
    if ops != [] { AcceptsMeansRuns(Step(l, ops[0]).0, ops[1..]); }
  }

  /** What a statement of a run does to `l`, a state with the same live part as the service's. */
  ghost predicate Simulates(l: Db, ops: seq<Ledger.Op>, after: Db)
  {
    if ops == [] then SameLive(after, l)
    else |ops| == 1 && Enabled(l, ops[0]) && SameLive(after, Step(l, ops[0]).0) && (ops[0].Cancel? || Step(l, ops[0]).1)
  }

  lemma CommitSimulates(db: Db, x: Txn, l: Db)
    requires Inv(db) && TxnOk(db, x) && MayCommit(x) && !Late(db, x) && Inv(l) && SameLive(db, l)
    ensures Simulates(l, match OpOf(db, x) case Some(op) => [op] case None => [], Apply(db, x))
  {
    CommitIsAtomic(db, x);
    hide SameLive, TxnOk, Inv, Apply, Step, Enabled, OpOf;
    match OpOf(db, x)
    case None => SameLiveFlip(Apply(db, x), db, l);
    case Some(op) =>
      SameLiveStep(db, l, op);
      SameLiveFlip(Apply(db, x), Step(db, op).0, Step(l, op).0);
  }

  lemma CreateSimulates(db: Db, l: Db, k: StockKey, delta: int)
    requires Inv(db) && Inv(l) && SameLive(db, l) && k !in db.stock && delta > 0
    ensures Simulates(l, [Ledger.Move(k, delta)], Adjust(db, k, delta))
  {
    hide SameLive, Inv, MoveStep, Adjust;
    InvMeansCountersOk(db);
    CreateIsMove(db, k, delta);
    SameLiveStep(db, l, Ledger.Move(k, delta));
  }

  lemma StatementSimulates(s: Sys, l: Db, a: Action)
    requires Sound(s) && Can(s, a) && Inv(l) && SameLive(s.db, l)
    requires !(a.Commit? && Late(s.db, s.txns[a.t]))
    ensures Simulates(l, OpsOf(s, a), Do(s, a).db)
  {
    hide SameLive, TxnOk, Inv, Apply, OpOf, Late;
    if a.Elapse? {
      TickCongruence(s.db, l, a.time);
    } else if a.CreateRow? {
      CreateSimulates(s.db, l, a.key, a.delta);
    } else if a.Commit? {
      CommitSimulates(s.db, s.txns[a.t], l);
    } else {
      SameLiveFlip(s.db, s.db, l);
    }
  }

  lemma SameLiveFlip(a: Db, b: Db, c: Db)
    requires SameLive(b, c) && (a == b || SameLive(a, b))
    ensures SameLive(a, c)
  {
  }

  /**
   * An interleaved run without late sales has the effect of its transactions run one at a time in the
   * order of their commits: the ledger accepts every one of them (a cancel may find its expired hold
   * swept away already) and ends with the same live holds, stock, orders and movements.
   */
  lemma {:induction false} OnTimeRunIsSerial(s: Sys, l: Db, actions: seq<Action>)
    requires Sound(s) && Runs(s, actions) && Inv(l) && SameLive(s.db, l) && OnTime(s, actions)
    ensures Accepts(l, Serial(s, actions)) && Ledger.Runs(l, Serial(s, actions))
    ensures SameLive(After(s, actions).db, Ledger.After(l, Serial(s, actions)))
    decreases |actions|
  {
    if actions != [] {
      var a, ops := actions[0], OpsOf(s, actions[0]);
      StatementKeepsSound(s, a);
      StatementSimulates(s, l, a);
      var next, rest := Do(s, a), Serial(Do(s, a), actions[1..]);
      hide SameLive, Sound, Inv, Step;
      if ops == [] {
        assert ops + rest == rest;
        OnTimeRunIsSerial(next, l, actions[1..]);
      } else {
        assert (ops + rest)[0] == ops[0] && (ops + rest)[1..] == rest;
        Ledger.StepKeepsInv(l, ops[0]);
        OnTimeRunIsSerial(next, Step(l, ops[0]).0, actions[1..]);
      }
    }
  }

  /** The ledger adds at most one order, and only for a sale. */
  lemma StepAddsOrders(l: Db, op: Ledger.Op)
    requires Enabled(l, op)
    ensures |Step(l, op).0.orders| <= |l.orders| + if op.Finalize? then 1 else 0
  {
  }

  lemma OnlySalesFinalize(db: Db, x: Txn)
    ensures OpOf(db, x).Some? && OpOf(db, x).value.Finalize? ==> x.effect.Selling?
  {
  }

  /** A commit that sells always adds an order, so the service's orders grow at least as fast as the ledger's. */
  lemma OrdersGrow(s: Sys, l: Db, a: Action)
    requires Sound(s) && Can(s, a)
    ensures |OpsOf(s, a)| <= 1 && |s.db.orders| <= |Do(s, a).db.orders|
    ensures forall op | OpsOf(s, a) == [op] && Enabled(l, op) ::
              |Step(l, op).0.orders| - |l.orders| <= |Do(s, a).db.orders| - |s.db.orders|
  {
    hide TxnOk, Inv, Apply, OpOf, Step, Enabled;
    if a.Commit? {
      var x := s.txns[a.t];
      if x.effect.Selling? { SellIsFinalizeIff(s.db, x); } else { ApplyKeepsHistory(s.db, x); }
      OnlySalesFinalize(s.db, x);
    }
    forall op | OpsOf(s, a) == [op] && Enabled(l, op)
      ensures |Step(l, op).0.orders| - |l.orders| <= |Do(s, a).db.orders| - |s.db.orders|
    {
      StepAddsOrders(l, op);
    }
  }

  /** Once the service has sold more than the ledger, it stays ahead. */
  lemma {:induction false} LeadStays(s: Sys, l: Db, actions: seq<Action>)
    requires Sound(s) && Runs(s, actions) && Ledger.Runs(l, Serial(s, actions)) && |l.orders| < |s.db.orders|
    ensures |Ledger.After(l, Serial(s, actions)).orders| < |After(s, actions).db.orders|
    decreases |actions|
  {
    if actions != [] {
      var a, ops := actions[0], OpsOf(s, actions[0]);
      StatementKeepsSound(s, a);
      OrdersGrow(s, l, a);
      var next, rest := Do(s, a), Serial(Do(s, a), actions[1..]);
      hide Sound, Step;
      if ops == [] {
        assert ops + rest == rest;
        LeadStays(next, l, actions[1..]);
      } else {
        assert (ops + rest)[0] == ops[0] && (ops + rest)[1..] == rest && ops == [ops[0]];
        LeadStays(next, Step(l, ops[0]).0, actions[1..]);
      }
    }
  }

  /** A late sale puts the service one order ahead of the ledger, which refuses it. */
  lemma LateSaleLeads(db: Db, x: Txn, l: Db)
    requires Inv(db) && TxnOk(db, x) && Inv(l) && SameLive(db, l) && Late(db, x)
    ensures OpOf(db, x).Some? && Enabled(l, OpOf(db, x).value)
    ensures |Step(l, OpOf(db, x).value).0.orders| < |Apply(db, x).orders|
  {
    SellIsFinalizeIff(db, x);
    LateSaleIsOp(db, x);
    hide TxnOk, Inv, Apply, Step, Enabled, OpOf, SameLive, Late;
    SameLiveStep(db, l, OpOf(db, x).value);
    SameLiveOrders(Step(db, OpOf(db, x).value).0, Step(l, OpOf(db, x).value).0);
  }

  lemma LateSaleIsOp(db: Db, x: Txn)
    requires Late(db, x)
    ensures OpOf(db, x).Some? && Enabled(db, OpOf(db, x).value)
  {
  }

  lemma OtherOrdersShow(a: Db, b: Db)
    requires |a.orders| != |b.orders|
    ensures !SameLive(a, b)
  {
  }

  lemma SameLiveOrders(a: Db, b: Db)
    requires SameLive(a, b)
    ensures a.orders == b.orders
  {
  }

  lemma {:induction false} LateRunIsAhead(s: Sys, l: Db, actions: seq<Action>)
    requires Sound(s) && Runs(s, actions) && Inv(l) && SameLive(s.db, l) && !OnTime(s, actions)
    requires Ledger.Runs(l, Serial(s, actions))
    ensures |Ledger.After(l, Serial(s, actions)).orders| < |After(s, actions).db.orders|
    decreases |actions|
  {
    var a, ops := actions[0], OpsOf(s, actions[0]);
    StatementKeepsSound(s, a);
    var next, rest := Do(s, a), Serial(Do(s, a), actions[1..]);
    var late := a.Commit? && Late(s.db, s.txns[a.t]);
    if late { LateSaleLeads(s.db, s.txns[a.t], l); } else { StatementSimulates(s, l, a); }
    hide SameLive, Sound, Inv, Step;
    if ops == [] {
      assert ops + rest == rest;
      LateRunIsAhead(next, l, actions[1..]);
    } else {
      assert (ops + rest)[0] == ops[0] && (ops + rest)[1..] == rest;
      if late {
        LeadStays(next, Step(l, ops[0]).0, actions[1..]);
      } else {
        Ledger.StepKeepsInv(l, ops[0]);
        LateRunIsAhead(next, Step(l, ops[0]).0, actions[1..]);
      }
    }
  }

  /**
   * Serializability, exactly: from an empty start an interleaved run ends in the live state of its
   * transactions taken one at a time, in the order of their commits, if and only if no confirm sold a
   * hold that ran out between its check and its commit.
   */
  lemma SerializableIffOnTime(now: int, actions: seq<Action>)
    requires Runs(Start(now), actions)
    ensures OnTime(Start(now), actions) <==>
            Ledger.Runs(Empty(now), Serial(Start(now), actions))
            && SameLive(After(Start(now), actions).db, Ledger.After(Empty(now), Serial(Start(now), actions)))
    ensures OnTime(Start(now), actions) ==> Accepts(Empty(now), Serial(Start(now), actions))
  {
    var s, l := Start(now), Empty(now);
    if OnTime(s, actions) {
      OnTimeRunIsSerial(s, l, actions);
    } else if Ledger.Runs(l, Serial(s, actions)) {
      LateRunIsAhead(s, l, actions);
      OtherOrdersShow(After(s, actions).db, Ledger.After(l, Serial(s, actions)));
    }
  }

  // ---- a run in which a sale is late

  const KEY := StockKey(0, 0)
  const ITEM := HoldItem(KEY, 1, 100, Online)

  /** `actions` lead from the empty start to `s`. */
  ghost predicate Reached(actions: seq<Action>, s: Sys)
  {
    Runs(Start(0), actions) && After(Start(0), actions) == s && Sound(s)
  }

  lemma {:induction false} RunsOneMore(s: Sys, actions: seq<Action>, a: Action)
    requires Sound(s) && Runs(s, actions) && Sound(After(s, actions)) && Can(After(s, actions), a)
    ensures Runs(s, actions + [a]) && After(s, actions + [a]) == Do(After(s, actions), a)
    ensures a.Commit? && Late(After(s, actions).db, After(s, actions).txns[a.t]) ==> !OnTime(s, actions + [a])
    decreases |actions|
  {
    hide Do, Can, Sound, Late;
    if actions == [] {
      assert ([] + [a])[0] == a && ([] + [a])[1..] == [];
      StatementKeepsSound(s, a);
    } else {
      StatementKeepsSound(s, actions[0]);
      assert (actions + [a])[0] == actions[0] && (actions + [a])[1..] == actions[1..] + [a];
      RunsOneMore(Do(s, actions[0]), actions[1..], a);
    }
  }

  lemma ReachOneMore(actions: seq<Action>, s: Sys, a: Action)
    requires Reached(actions, s) && Can(s, a)
    ensures Reached(actions + [a], Do(s, a))
  {
    RunsOneMore(Start(0), actions, a);
    StatementKeepsSound(s, a);
  }

  /** One unit in stock, and reservation 7 holds it until instant 10. */
  function HeldDb(now: int): Db
  {
    var rows := map[HoldId(7, 0) := ITEM];
    Db(now, map[KEY := Stock(1, 1)], map[7 := Reservation(1, 10)], rows, map[], map[7 := rows], [], [Movement(KEY, 1)], map[])
  }

  function ReserveActions(): seq<Action>
  {
    [CreateRow(KEY, 1)] + [Begin(0, Sweeper)] + [LockStock(0, KEY)] + [Hold(0, 7, 1, 10, [ITEM])] + [Commit(0)]
  }

  lemma OneLine()
    ensures NewRows(7, [ITEM]) == map[HoldId(7, 0) := ITEM] && KeysOf([ITEM]) == {KEY}
    ensures Demand([ITEM], KEY) == 1 && Demand([ITEM][..0], KEY) == 0
  {
    assert [ITEM][..0] == [];
    assert [ITEM][0].key == KEY;
  }

  lemma NothingReleased(db: Db)
    ensures Release(db, {}) == db
  {
    assert Restrict(db.items, {}) == map[];
    assert Release(db, {}).stock == db.stock;
  }

  /** Transaction `t` is the only one under way. */
  function Alone(db: Db, t: Id, x: Txn): Sys
  {
    Sys(db, map[t := x], multiset{})
  }

  lemma ReachBegin(actions: seq<Action>, db: Db, t: Id, kind: Kind)
    requires Reached(actions, Sys(db, map[], multiset{}))
    ensures Reached(actions + [Begin(t, kind)], Alone(db, t, NewTxn(kind)))
  {
    ReachOneMore(actions, Sys(db, map[], multiset{}), Begin(t, kind));
  }

  lemma ReachedIsSound(actions: seq<Action>, s: Sys)
    requires Reached(actions, s)
    ensures Sound(s)
  {
  }

  lemma StatementDoes(s: Sys, a: Action)
    requires Sound(s) && IsStatement(a) && a.t in s.txns && CanTxn(s, a, s.txns[a.t])
    ensures Can(s, a) && Do(s, a) == s.(txns := s.txns[a.t := TxnAfter(s, a, s.txns[a.t])])
  {
    hide Sound, CanTxn, TxnAfter;
  }

  lemma ReachStatement(actions: seq<Action>, db: Db, t: Id, x: Txn, a: Action)
    requires Reached(actions, Alone(db, t, x)) && IsStatement(a) && a.t == t && CanTxn(Alone(db, t, x), a, x)
    ensures Reached(actions + [a], Alone(db, t, TxnAfter(Alone(db, t, x), a, x)))
  {
    hide Reached, CanTxn, TxnAfter, Sound;
    ReachedIsSound(actions, Alone(db, t, x));
    StatementDoes(Alone(db, t, x), a);
    ReachOneMore(actions, Alone(db, t, x), a);
    assert forall y: Txn :: map[t := x][t := y] == map[t := y];
  }

  lemma ReachCommit(actions: seq<Action>, db: Db, t: Id, x: Txn, after: Db)
    requires Reached(actions, Alone(db, t, x)) && MayCommit(x) && Apply(db, x) == after && Leaving(db, x) == {}
    ensures Reached(actions + [Commit(t)], Sys(after, map[], multiset{}))
  {
    ReachOneMore(actions, Alone(db, t, x), Commit(t));
    hide Reached, Apply, Leaving;
    assert map[t := x] - {t} == map[];
  }

  lemma ReachLater(actions: seq<Action>, db: Db, t: Id, x: Txn, time: nat)
    requires Reached(actions, Alone(db, t, x))
    ensures Reached(actions + [Elapse(time)], Alone(Later(db, time), t, x))
  {
    ReachOneMore(actions, Alone(db, t, x), Elapse(time));
  }

  lemma LateCommit(actions: seq<Action>, db: Db, t: Id, x: Txn)
    requires Reached(actions, Alone(db, t, x)) && x.effect.Selling? && Late(db, x)
    ensures Runs(Start(0), actions + [Commit(t)]) && !OnTime(Start(0), actions + [Commit(t)])
  {
    assert Can(Alone(db, t, x), Commit(t));
    RunsOneMore(Start(0), actions, Commit(t));
  }

  lemma RowCreated()
    ensures Reached([CreateRow(KEY, 1)], Sys(Adjust(Empty(0), KEY, 1), map[], multiset{}))
  {
    assert Reached([], Start(0));
    ReachOneMore([], Start(0), CreateRow(KEY, 1));
    assert [] + [CreateRow(KEY, 1)] == [CreateRow(KEY, 1)];
  }

  lemma ReserveRuns()
    ensures Reached(ReserveActions(), Sys(HeldDb(0), map[], multiset{}))
  {
    hide Reached, CanTxn, Apply, Leaving, Adjust, Empty;
    var d := Adjust(Empty(0), KEY, 1);
    var x := NewTxn(Sweeper);
    RowCreated();
    ReachBegin([CreateRow(KEY, 1)], d, 0, Sweeper);
    HoldRuns(d);
    ReachStatement([CreateRow(KEY, 1)] + [Begin(0, Sweeper)], d, 0, x, LockStock(0, KEY));
    ReachStatement([CreateRow(KEY, 1)] + [Begin(0, Sweeper)] + [LockStock(0, KEY)], d, 0,
                   x.(stockLocks := {KEY}), Hold(0, 7, 1, 10, [ITEM]));
    ReachCommit([CreateRow(KEY, 1)] + [Begin(0, Sweeper)] + [LockStock(0, KEY)] + [Hold(0, 7, 1, 10, [ITEM])], d, 0,
                x.(stockLocks := {KEY}, effect := Holding(7, 1, 10, [ITEM])), HeldDb(0));
  }

  lemma HoldRuns(d: Db)
    requires d == Adjust(Empty(0), KEY, 1)
    ensures var x := NewTxn(Sweeper);
            var y := x.(stockLocks := {KEY});
            var z := y.(effect := Holding(7, 1, 10, [ITEM]));
            CanTxn(Alone(d, 0, x), LockStock(0, KEY), x) && CanTxn(Alone(d, 0, y), Hold(0, 7, 1, 10, [ITEM]), y)
            && Apply(d, z) == HeldDb(0) && Leaving(d, z) == {}
            && x.(stockLocks := x.stockLocks + {KEY}) == y
  {
    hide Demand, NewRows, KeysOf, Release;
    NothingReleased(d);
    OneLine();
    FirstHold(d);
  }

  lemma FirstHold(d: Db)
    requires d == Adjust(Empty(0), KEY, 1)
    ensures Ledger.Hold(d, 7, 1, 10, [ITEM]) == HeldDb(0)
  {
    OneLine();
    assert Ledger.Hold(d, 7, 1, 10, [ITEM]).stock == map[KEY := Stock(1, 1)];
    assert Ledger.Hold(d, 7, 1, 10, [ITEM]).items == map[HoldId(7, 0) := ITEM];
  }

  function ConfirmActions(): seq<Action>
  {
    ReserveActions() + [Begin(1, Owner(7, 1))] + [LockReservation(1, 7)] + [CheckLive(1)] + [LockStock(1, KEY)] + [Elapse(11)]
    + [Sell(1)]
  }

  /** The confirm's transaction after its lock on the reservation, its check and its lock on the stock row. */
  function ConfirmTxn(stage: nat): Txn
  {
    var locked := NewTxn(Owner(7, 1)).(considered := {7}, reservationLocks := {7});
    if stage == 0 then locked
    else
      var checked := locked.(read := Some(map[HoldId(7, 0) := ITEM]), live := true);
      if stage == 1 then checked else checked.(stockLocks := {KEY})
  }

  lemma ConfirmStatements()
    ensures var d, x := HeldDb(0), NewTxn(Owner(7, 1));
            && CanTxn(Alone(d, 1, x), LockReservation(1, 7), x)
            && TxnAfter(Alone(d, 1, x), LockReservation(1, 7), x) == ConfirmTxn(0)
            && CanTxn(Alone(d, 1, ConfirmTxn(0)), CheckLive(1), ConfirmTxn(0))
            && TxnAfter(Alone(d, 1, ConfirmTxn(0)), CheckLive(1), ConfirmTxn(0)) == ConfirmTxn(1)
            && CanTxn(Alone(d, 1, ConfirmTxn(1)), LockStock(1, KEY), ConfirmTxn(1))
            && TxnAfter(Alone(d, 1, ConfirmTxn(1)), LockStock(1, KEY), ConfirmTxn(1)) == ConfirmTxn(2)
  {
    var rows := map[HoldId(7, 0) := ITEM];
    assert RowsOf(HeldDb(0).items, 7) == rows && rows[HoldId(7, 0)] == ITEM;
  }

  lemma ConfirmRuns()
    ensures Reached(ConfirmActions(), Alone(HeldDb(11), 1, ConfirmTxn(2).(effect := Selling(7, 1))))
  {
    hide Reached, CanTxn, TxnAfter, ReserveActions, ConfirmTxn, HeldDb;
    var actions, d := ReserveActions(), HeldDb(0);
    ReserveRuns();
    ConfirmStatements();
    ReachBegin(actions, d, 1, Owner(7, 1));
    actions := actions + [Begin(1, Owner(7, 1))];
    ReachStatement(actions, d, 1, NewTxn(Owner(7, 1)), LockReservation(1, 7));
    actions := actions + [LockReservation(1, 7)];
    ReachStatement(actions, d, 1, ConfirmTxn(0), CheckLive(1));
    actions := actions + [CheckLive(1)];
    ReachStatement(actions, d, 1, ConfirmTxn(1), LockStock(1, KEY));
    SellRuns(actions + [LockStock(1, KEY)]);
  }

  lemma SellRuns(actions: seq<Action>)
    requires Reached(actions, Alone(HeldDb(0), 1, ConfirmTxn(2)))
    ensures Reached(actions + [Elapse(11)] + [Sell(1)], Alone(HeldDb(11), 1, ConfirmTxn(2).(effect := Selling(7, 1))))
  {
    hide Reached, CanTxn, TxnAfter, CanSell, ConfirmTxn, RowsOf;
    ReachLater(actions, HeldDb(0), 1, ConfirmTxn(2), 11);
    SellStatement();
    ReachStatement(actions + [Elapse(11)], HeldDb(11), 1, ConfirmTxn(2), Sell(1));
  }

  lemma SellStatement()
    ensures var s := Alone(HeldDb(11), 1, ConfirmTxn(2));
            CanTxn(s, Sell(1), ConfirmTxn(2)) && TxnAfter(s, Sell(1), ConfirmTxn(2)) == ConfirmTxn(2).(effect := Selling(7, 1))
  {
    var rows := map[HoldId(7, 0) := ITEM];
    assert RowsOf(HeldDb(11).items, 7) == rows && rows[HoldId(7, 0)] == ITEM;
    HeldInsert(map[], HoldId(7, 0), ITEM, KEY);
    assert map[][HoldId(7, 0) := ITEM] == rows;
  }

  /**
   * Nothing rules a late sale out: a confirm finds its hold alive at instant 0, the clock moves past
   * its end, and the confirm sells it all the same.
   */
  lemma LateSaleHappens()
    ensures exists actions :: Runs(Start(0), actions) && !OnTime(Start(0), actions)
  {
    ConfirmRuns();
    hide Reached, ConfirmActions, Runs, OnTime, ConfirmTxn;
    LateCommit(ConfirmActions(), HeldDb(11), 1, ConfirmTxn(2).(effect := Selling(7, 1)));
  }
}
