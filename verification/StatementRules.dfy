/**
 * What single statements of an interleaved transaction do on the rows, and when a transaction that has swept
 * its keys decides as the ledger does.
 */
module StatementRules {
  import opened Common
  import opened Holds
  import opened Ledger
  import opened EagerExpiry
  import opened Interleaving

  /** A lock is given when nobody else has it; of a reservation that is gone only the attempt remains. */
  lemma LockingDoes(s: Sys, t: Id, rid: Id, k: StockKey)
    requires Sound(s) && t in s.txns
    ensures Can(s, LockReservation(t, rid)) ==>
              && (forall u | u in s.txns && u != t :: rid !in s.txns[u].reservationLocks)
              && var x, y := s.txns[t], Do(s, LockReservation(t, rid)).txns[t];
                 y == x.(considered := x.considered + {rid}, reservationLocks := y.reservationLocks)
                 && y.reservationLocks == if rid in s.db.reservations then x.reservationLocks + {rid} else x.reservationLocks
    ensures Can(s, LockStock(t, k)) ==>
              && (forall u | u in s.txns && u != t :: k !in s.txns[u].stockLocks)
              && Do(s, LockStock(t, k)).txns[t] == s.txns[t].(stockLocks := s.txns[t].stockLocks + {k})
  {
  }

  /** A sweep takes every expired row on its key that belongs to a reservation it asked for, and no other. */
  lemma SweepTakes(s: Sys, t: Id, k: StockKey, i: HoldId)
    requires Sound(s) && t in s.txns && Can(s, Sweep(t, k))
    ensures var x, y := s.txns[t], Do(s, Sweep(t, k)).txns[t];
            && y == x.(released := y.released)
            && (i in y.released <==>
                  || i in x.released
                  || (&& i in s.db.items && s.db.items[i].key == k && i.reservation in x.considered
                      && i.reservation in s.db.reservations && s.db.reservations[i.reservation].expiresAt < s.db.now))
  {
  }

  /** An owner's delete of a row it has read takes that row once, and is then done with it. */
  lemma ReleasingTakes(s: Sys, t: Id, i: HoldId)
    requires Sound(s) && t in s.txns && Can(s, ReleaseItem(t, i))
    ensures var x, y := s.txns[t], Do(s, ReleaseItem(t, i)).txns[t];
            && i in s.db.items && i.reservation == x.kind.rid
            && y == x.(released := x.released + {i}, pending := x.pending - {i})
  {
    var x := s.txns[t];
    assert TxnOk(s.db, x);
    assert i in RowsOf(s.db.items, x.kind.rid);
  }

  lemma SameCountersOnKeys(db: Db, released: set<HoldId>, lines: seq<HoldItem>, k: StockKey)
    requires k in KeysOf(lines)
    requires forall i | i in released && i in db.items :: Expired(db, i.reservation)
    requires forall i | i in ExpiredOn(db, KeysOf(lines)) :: i in released
    ensures Held(Restrict(db.items, released), k) == Held(Restrict(db.items, ExpiredOn(db, KeysOf(lines))), k)
  {
    assert OnKey(Restrict(db.items, released), k) == OnKey(Restrict(db.items, ExpiredOn(db, KeysOf(lines))), k);
    HeldDependsOnKeyOnly(Restrict(db.items, released), Restrict(db.items, ExpiredOn(db, KeysOf(lines))), k);
  }

  /**
   * A reserve that has taken every expired row on its keys, and whatever expired rows besides, finds its lines to
   * fit exactly when the ledger's reserve would be accepted from the same committed state.
   */
  lemma SweptReserveDecides(s: Sys, t: Id, rid: Id, customer: Id, expiresAt: int, lines: seq<HoldItem>)
    requires Sound(s) && t in s.txns && s.txns[t].kind.Sweeper? && s.txns[t].effect == Nothing
    requires Fresh(s, t, rid) && KeysOf(lines) <= s.txns[t].stockLocks
    requires forall i | i in s.db.items && s.db.items[i].key in KeysOf(lines)
                        && i.reservation in s.db.reservations && s.db.reservations[i.reservation].expiresAt < s.db.now ::
               i in s.txns[t].released
    ensures Can(s, Action.Hold(t, rid, customer, expiresAt, lines)) <==> ReserveStep(s.db, rid, customer, expiresAt, lines).1
  {
    hide Sound, TxnOk, Apart, LeftOnce, Inv, Fits, Held, Fresh;
    var db, released := s.db, s.txns[t].released;
    SweeperReleasesExpired(s, t);
    assert Can(s, Action.Hold(t, rid, customer, expiresAt, lines)) <==> Fits(Release(db, released), lines);
    forall n | 0 <= n < |lines|
      ensures Held(Restrict(db.items, released), lines[n].key)
              == Held(Restrict(db.items, ExpiredOn(db, KeysOf(lines))), lines[n].key)
    {
      SameCountersOnKeys(db, released, lines, lines[n].key);
    }
    SameRowsSameFit(Release(db, released), Release(db, ExpiredOn(db, KeysOf(lines))), lines);
  }

  lemma SweeperReleasesExpired(s: Sys, t: Id)
    requires Sound(s) && t in s.txns && s.txns[t].kind.Sweeper?
    ensures forall i | i in s.txns[t].released && i in s.db.items :: Expired(s.db, i.reservation)
  {
    assert TxnOk(s.db, s.txns[t]);
  }

  lemma SameRowsSameFit(a: Db, b: Db, lines: seq<HoldItem>)
    requires a.stock.Keys == b.stock.Keys
    requires forall n | 0 <= n < |lines| && lines[n].key in a.stock :: a.stock[lines[n].key] == b.stock[lines[n].key]
    ensures Fits(a, lines) <==> Fits(b, lines)
  {
  }

  // ---- what was asked is what is committed

  /** Neither the transaction's end nor its begin is among `actions`. */
  predicate Ongoing(actions: seq<Action>, t: Id)
  {
    forall n | 0 <= n < |actions| :: actions[n] != Commit(t) && actions[n] != Abort(t)
  }

  lemma StepKeepsEffect(s: Sys, a: Action, t: Id)
    requires Sound(s) && Can(s, a) && t in s.txns && s.txns[t].effect != Nothing && a != Commit(t) && a != Abort(t)
    ensures t in Do(s, a).txns && Do(s, a).txns[t].effect == s.txns[t].effect
  {
    hide Sound, Apply, Fits, CanSell, Held, Leaving;
  }

  lemma {:induction false} EffectStays(s: Sys, actions: seq<Action>, t: Id)
    requires Sound(s) && Interleaving.Runs(s, actions) && Ongoing(actions, t) && t in s.txns && s.txns[t].effect != Nothing
    ensures t in Interleaving.After(s, actions).txns && Interleaving.After(s, actions).txns[t].effect == s.txns[t].effect
    decreases |actions|
  {
    hide Sound, Can, Do;
    if actions != [] {
      StatementKeepsSound(s, actions[0]);
      StepKeepsEffect(s, actions[0], t);
      assert forall n | 0 <= n < |actions[1..]| :: actions[1..][n] == actions[n + 1];
      EffectStays(Do(s, actions[0]), actions[1..], t);
    }
  }

  /** What the transaction is to do, as the call that asks for it says. */
  predicate AsksFor(x: Txn, a: Action, op: Ledger.Op)
  {
    match a
    case Hold(_, rid, customer, expiresAt, lines) => op == Reserve(rid, customer, expiresAt, lines)
    case Move(_, k, delta) => op == Ledger.Move(k, delta)
    case Exchange(_, Take, k, units) => op == ExchangeHold(k, units)
    case Exchange(_, LetGo, k, units) => op == ExchangeRelease(k, units)
    case Exchange(_, GiveOut, k, units) => op == HandOver(k, units)
    case Restore(_, n, ids) => op == CancelItems(n, ids)
    case Drop(_) => x.kind.Owner? && op == Cancel(x.kind.rid, x.kind.customer)
    case Sell(_) => x.kind.Owner? && op == Finalize(x.kind.rid, x.kind.customer, true)
    case _ => false
  }

  /**
   * What a call asks for is what its commit does, to the state as it is then and whatever ran in
   * between: the ledger's own transaction with the very arguments of the call. The one exception is a
   * sale of a hold that has run out meanwhile.
   */
  lemma AskedIsCommitted(s: Sys, a: Action, op: Ledger.Op, actions: seq<Action>)
    requires Sound(s) && IsStatement(a) && Can(s, a) && AsksFor(s.txns[a.t], a, op)
    requires Sound(Do(s, a)) && Interleaving.Runs(Do(s, a), actions) && Ongoing(actions, a.t)
    ensures var last := Interleaving.After(Do(s, a), actions);
            && Sound(last) && Can(last, Commit(a.t)) && Enabled(last.db, op)
            && var late := op.Finalize? && op.rid in last.db.reservations && last.db.reservations[op.rid].expiresAt < last.db.now;
               (SameLive(Do(last, Commit(a.t)).db, Step(last.db, op).0) <==> !late) && (Step(last.db, op).1 <==> !late)
  {
    hide Sound, Inv, TxnOk, Apart, LeftOnce, SameLive, Enabled, Step, Apply, Fits, CanSell, Held;
    AskedIsRecorded(s, a, op);
    EffectStays(Do(s, a), actions, a.t);
    RunKeepsSound(Do(s, a), actions);
    var last := Interleaving.After(Do(s, a), actions);
    SoundParts(last, a.t);
    CommitIsAtomic(last.db, last.txns[a.t]);
    RecordedIsOp(last.db, last.txns[a.t], op);
  }

  lemma SoundParts(s: Sys, t: Id)
    requires Sound(s) && t in s.txns
    ensures Inv(s.db) && TxnOk(s.db, s.txns[t])
  {
  }

  /** The effect that stands for the ledger's transaction. */
  predicate Records(effect: Effect, op: Ledger.Op)
  {
    match op
    case Reserve(rid, customer, expiresAt, lines) => effect == Holding(rid, customer, expiresAt, lines)
    case Move(k, delta) => effect == Moving(k, delta)
    case ExchangeHold(k, units) => effect == Exchanging(Take, k, units)
    case ExchangeRelease(k, units) => effect == Exchanging(LetGo, k, units)
    case HandOver(k, units) => effect == Exchanging(GiveOut, k, units)
    case CancelItems(n, ids) => effect == Restoring(n, ids)
    case Cancel(rid, customer) => effect == Dropping(rid, customer)
    case Finalize(rid, customer, _) => effect == Selling(rid, customer) && op.revalidated
    case _ => false
  }

  lemma AskedIsRecorded(s: Sys, a: Action, op: Ledger.Op)
    requires Sound(s) && IsStatement(a) && Can(s, a) && AsksFor(s.txns[a.t], a, op)
    ensures a.t in Do(s, a).txns && Do(s, a).txns[a.t].effect != Nothing && Records(Do(s, a).txns[a.t].effect, op)
  {
  }

  lemma RecordedIsOp(db: Db, x: Txn, op: Ledger.Op)
    requires Records(x.effect, op)
    ensures OpOf(db, x) == Some(op) && MayCommit(x)
    ensures Late(db, x) <==> op.Finalize? && op.rid in db.reservations && db.reservations[op.rid].expiresAt < db.now
  {
  }

  lemma TakenByItsOwner(db: Db, x: Txn, rid: Id)
    requires TxnOk(db, x) && rid in db.reservations && rid !in Apply(db, x).reservations
    ensures x.kind == Owner(rid, db.reservations[rid].customer)
  {
    hide LocksOk, ReleasedOk, Held, Fits, CanExchange;
  }

  /** In every reachable state, a commit that takes a reservation out of the table is its own customer's. */
  lemma OnlyItsOwnerTakesAHold(now: int, actions: seq<Action>, t: Id, rid: Id)
    requires Interleaving.Runs(Start(now), actions) && Can(Interleaving.After(Start(now), actions), Commit(t))
    requires var s := Interleaving.After(Start(now), actions);
             Sound(s) && rid in s.db.reservations && rid !in Do(s, Commit(t)).db.reservations
    ensures var s := Interleaving.After(Start(now), actions);
            t in s.txns && s.txns[t].kind == Owner(rid, s.db.reservations[rid].customer)
  {
    hide Sound, TxnOk, Interleaving.Runs, Interleaving.After, Apply;
    var s := Interleaving.After(Start(now), actions);
    SoundParts(s, t);
    TakenByItsOwner(s.db, s.txns[t], rid);
  }
}
