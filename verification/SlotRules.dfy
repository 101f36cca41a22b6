/**
 * The rules of the delivery calendar on its rows: when exactly a place is free, what each change
 * writes, and that nothing is booked at a closed date.
 */
module SlotRules {
  import opened Common
  import opened Slots

  // ---- when a place is free

  /** Slots at `p` whose hold is still running. */
  function Running(c: Cal, p: Place): set<Id>
  {
    set s | s in c.slots && c.slots[s].place == p
            && c.slots[s].reservation in c.reservations && c.now < c.reservations[c.slots[s].reservation]
  }

  /** Orders at `p` that are not over, leaving out the one that is being moved. */
  function Standing(c: Cal, p: Place, moving: Option<Id>): set<Id>
  {
    set o | o in c.orders && c.orders[o].active && c.orders[o].place == Some(p) && moving != Some(o)
  }

  /** A dated override, or the window's own capacity. */
  function Room(c: Cal, p: Place): (n: nat)
    requires p.window in c.windows
    ensures p in c.exceptions && c.exceptions[p].override.Some? ==> n == c.exceptions[p].override.value
    ensures !(p in c.exceptions && c.exceptions[p].override.Some?) ==> n == c.windows[p.window].capacity
  {
    Capacity(c, p)
  }

  lemma CountsAre(c: Cal, p: Place, moving: Option<Id>)
    ensures Running(c, p) == LiveSlots(c, p)
    ensures Standing(c, p, moving) == ActiveOrders(c, p) - (if moving.Some? then {moving.value} else {})
    ensures moving == None ==> Standing(c, p, moving) == ActiveOrders(c, p)
  {
  }

  /**
   * A place is free for a branch exactly when the window is that branch's, the date is one of the three
   * offered and falls on the window's day, the date is not closed, and running holds and standing orders
   * leave room. `86400000` milliseconds make a day, and day 0 was a Thursday, the 4 of a week starting on Sunday.
   */
  lemma PlaceIsFreeIff(c: Cal, branch: Id, p: Place, moving: Option<Id>)
    ensures PlaceError(c, branch, p, moving) == None <==>
            && p.window in c.windows && c.windows[p.window].branch == branch
            && 0 <= p.date - c.now / 86400000 <= 2
            && (p.date + 4) % 7 == c.windows[p.window].dayOfWeek
            && !(p in c.exceptions && c.exceptions[p].closed)
            && |Running(c, p)| + |Standing(c, p, moving)| < Room(c, p)
  {
    CountsAre(c, p, moving);
  }

  /** Which refusal it is: the first of the four that applies. */
  lemma WhyAPlaceIsRefused(c: Cal, branch: Id, p: Place, moving: Option<Id>)
    ensures var known := p.window in c.windows && c.windows[p.window].branch == branch;
            var e := PlaceError(c, branch, p, moving);
            && (e == Some(WindowNotFound) <==> !known)
            && (known ==>
                  var inTime := 0 <= p.date - c.now / 86400000 <= 2 && (p.date + 4) % 7 == c.windows[p.window].dayOfWeek;
                  var closed := p in c.exceptions && c.exceptions[p].closed;
                  && (e == Some(InvalidSlotDate) <==> !inTime)
                  && (e == Some(SlotClosed) <==> inTime && closed)
                  && (e == Some(CapacityExceeded) <==>
                        inTime && !closed && Room(c, p) <= |Running(c, p)| + |Standing(c, p, moving)|))
  {
    CountsAre(c, p, moving);
  }

  // ---- a closed date


  lemma {:induction false} NoSlotWhereClosed(c: Cal, rid: Id, requests: seq<SlotRequest>, p: Place)
    requires p in c.exceptions && c.exceptions[p].closed && ReserveSlots(c, rid, requests).Ok?
    ensures var after := ReserveSlots(c, rid, requests).value;
            && after.exceptions == c.exceptions && after.orders == c.orders
            && (forall n | 0 <= n < |requests| :: requests[n].place != p)
            && (forall s | s in after.slots && after.slots[s].place == p :: s in c.slots && c.slots[s] == after.slots[s])
  {
    if requests != [] {
      var last := |requests| - 1;
      NoSlotWhereClosed(c, rid, requests[..last], p);
      var mid := ReserveSlots(c, rid, requests[..last]).value;
      PlaceIsFreeIff(mid, requests[last].branch, requests[last].place, None);
    }
  }

  /** No reserve and no reschedule books anything at a place that is closed at that moment. */
  lemma NothingIsBookedWhereClosed(c: Cal, op: Op, p: Place)
    requires Enabled(c, op) && (op.Reserve? || op.Reschedule?)
    requires p in c.exceptions && c.exceptions[p].closed
    ensures var after := Step(c, op);
            && (forall s | s in after.slots && after.slots[s].place == p :: s in c.slots && c.slots[s] == after.slots[s])
            && (forall o | o in after.orders && after.orders[o].place == Some(p) :: o in c.orders && c.orders[o] == after.orders[o])
    ensures op.Reserve? && (exists n | 0 <= n < |op.requests| :: op.requests[n].place == p) ==> Step(c, op) == c
    ensures op.Reschedule? && op.place == p ==> Step(c, op) == c
  {
    if op.Reserve? {
      var begun := Begin(c, op.rid, op.expiresAt);
      if ReserveSlots(begun, op.rid, op.requests).Ok? { NoSlotWhereClosed(begun, op.rid, op.requests, p); }
    } else {
      PlaceIsFreeIff(c, op.branch, op.place, Some(op.order));
    }
  }

  // ---- reserving several deliveries at once

  /** The slots `requests` ask for at `p`. */
  function AskedAt(requests: seq<SlotRequest>, p: Place): set<Id>
  {
    set n | 0 <= n < |requests| && requests[n].place == p :: requests[n].slot
  }

  /** What one more request does, on the rows. */
  lemma OneSlotMore(c: Cal, rid: Id, r: SlotRequest)
    requires ReserveSlot(c, rid, r).Ok?
    ensures var after := ReserveSlot(c, rid, r).value;
            && after == c.(slots := after.slots)
            && r.slot in after.slots && after.slots[r.slot] == SlotRow(rid, r.place)
            && (forall s | s in after.slots && s != r.slot :: s in c.slots && after.slots[s] == c.slots[s])
            && (forall s | s in c.slots && s != r.slot && s !in after.slots ::
                  && c.slots[s].place == r.place && c.slots[s].reservation in c.reservations
                  && c.reservations[c.slots[s].reservation] < c.now)
  {
  }

  ghost predicate SlotsWritten(c: Cal, after: Cal, rid: Id, requests: seq<SlotRequest>)
  {
    && after == c.(slots := after.slots)
    && (forall n | 0 <= n < |requests| ::
          requests[n].slot in after.slots && after.slots[requests[n].slot] == SlotRow(rid, requests[n].place))
    && (forall s | s in after.slots && !Asked(requests, s) :: s in c.slots && after.slots[s] == c.slots[s])
    && (forall s | s in c.slots && s !in after.slots ::
          c.slots[s].reservation in c.reservations && c.reservations[c.slots[s].reservation] < c.now
          && exists n :: 0 <= n < |requests| && requests[n].place == c.slots[s].place)
  }

  predicate Asked(requests: seq<SlotRequest>, s: Id)
  {
    exists n :: 0 <= n < |requests| && requests[n].slot == s
  }

  lemma {:induction false} SlotsAreWritten(c: Cal, rid: Id, requests: seq<SlotRequest>)
    requires rid in c.reservations && c.now <= c.reservations[rid] && FreshSlots(c, requests)
    requires ReserveSlots(c, rid, requests).Ok?
    ensures SlotsWritten(c, ReserveSlots(c, rid, requests).value, rid, requests)
  {
    hide SlotsWritten, ReserveSlot;
    if requests == [] {
      NoneWritten(c, rid);
    } else {
      var last := |requests| - 1;
      FewerFresh(c, requests, last);
      SlotsAreWritten(c, rid, requests[..last]);
      OneMoreWritten(c, ReserveSlots(c, rid, requests[..last]).value, rid, requests);
    }
  }

  lemma NoneWritten(c: Cal, rid: Id)
    ensures SlotsWritten(c, c, rid, [])
  {
  }

  lemma FewerFresh(c: Cal, requests: seq<SlotRequest>, n: nat)
    requires n <= |requests| && FreshSlots(c, requests)
    ensures FreshSlots(c, requests[..n])
  {
  }

  lemma OneMoreWritten(c: Cal, mid: Cal, rid: Id, requests: seq<SlotRequest>)
    requires rid in c.reservations && c.now <= c.reservations[rid] && FreshSlots(c, requests) && requests != []
    requires SlotsWritten(c, mid, rid, requests[..|requests| - 1]) && ReserveSlot(mid, rid, requests[|requests| - 1]).Ok?
    ensures SlotsWritten(c, ReserveSlot(mid, rid, requests[|requests| - 1]).value, rid, requests)
  {
    var last := |requests| - 1;
    var before, r := requests[..last], requests[last];
    OneSlotMore(mid, rid, r);
    hide ReserveSlot;
    var after := ReserveSlot(mid, rid, r).value;
    forall s ensures Asked(requests, s) <==> Asked(before, s) || s == r.slot {
      AskedOneMore(requests, s);
    }
    forall n | 0 <= n < last
      ensures requests[n].slot in after.slots && after.slots[requests[n].slot] == SlotRow(rid, requests[n].place)
    {
      assert before[n] == requests[n];
    }
    forall s | s in c.slots && s !in after.slots
      ensures c.slots[s].reservation in c.reservations && c.reservations[c.slots[s].reservation] < c.now
      ensures exists n :: 0 <= n < |requests| && requests[n].place == c.slots[s].place
    {
      OnlyExpiredGone(c, mid, after, rid, requests, s);
    }
  }

  lemma OnlyExpiredGone(c: Cal, mid: Cal, after: Cal, rid: Id, requests: seq<SlotRequest>, s: Id)
    requires FreshSlots(c, requests) && requests != [] && SlotsWritten(c, mid, rid, requests[..|requests| - 1])
    requires ReserveSlot(mid, rid, requests[|requests| - 1]) == Ok(after)
    requires s in c.slots && s !in after.slots
    ensures c.slots[s].reservation in c.reservations && c.reservations[c.slots[s].reservation] < c.now
    ensures exists n :: 0 <= n < |requests| && requests[n].place == c.slots[s].place
  {
    var last := |requests| - 1;
    var before := requests[..last];
    OneSlotMore(mid, rid, requests[last]);
    hide ReserveSlot;
    if s !in mid.slots {
      var n :| 0 <= n < last && before[n].place == c.slots[s].place;
      assert requests[n].place == c.slots[s].place;
    } else {
      StillThere(c, mid, rid, requests, s);
      assert requests[last].place == c.slots[s].place;
    }
  }

  lemma AskedOneMore(requests: seq<SlotRequest>, s: Id)
    requires requests != []
    ensures Asked(requests, s) <==> Asked(requests[..|requests| - 1], s) || s == requests[|requests| - 1].slot
  {
    var last := |requests| - 1;
    assert forall n | 0 <= n < last :: requests[..last][n] == requests[n];
    if n :| 0 <= n < last && requests[..last][n].slot == s { assert requests[n].slot == s; }
    if n :| 0 <= n < last && requests[n].slot == s { assert requests[..last][n].slot == s; }
  }

  lemma StillThere(c: Cal, mid: Cal, rid: Id, requests: seq<SlotRequest>, s: Id)
    requires FreshSlots(c, requests) && requests != [] && SlotsWritten(c, mid, rid, requests[..|requests| - 1])
    requires s in c.slots && s in mid.slots
    ensures mid.slots[s] == c.slots[s]
  {
    var before := requests[..|requests| - 1];
    assert forall n | 0 <= n < |before| :: before[n] == requests[n];
  }

  /** The requests before it at the same place take up room of their own. */
  predicate FreeAfter(c: Cal, requests: seq<SlotRequest>, n: nat)
    requires n < |requests|
  {
    var r := requests[n];
    && r.place.window in c.windows && c.windows[r.place.window].branch == r.branch
    && 0 <= r.place.date - c.now / 86400000 <= 2
    && (r.place.date + 4) % 7 == c.windows[r.place.window].dayOfWeek
    && !(r.place in c.exceptions && c.exceptions[r.place].closed)
    && |Running(c, r.place)| + |AskedAt(requests[..n], r.place)| + |Standing(c, r.place, None)| < Room(c, r.place)
  }

  lemma {:induction false} RunningAfter(c: Cal, rid: Id, requests: seq<SlotRequest>, p: Place)
    requires rid in c.reservations && c.now < c.reservations[rid] && FreshSlots(c, requests)
    requires ReserveSlots(c, rid, requests).Ok?
    ensures var after := ReserveSlots(c, rid, requests).value;
            && after == c.(slots := after.slots)
            && Running(after, p) == Running(c, p) + AskedAt(requests, p) && Running(c, p) !! AskedAt(requests, p)
            && Standing(after, p, None) == Standing(c, p, None)
  {
    SlotsAreWritten(c, rid, requests);
    var after := ReserveSlots(c, rid, requests).value;
    forall s ensures s in Running(after, p) <==> s in Running(c, p) + AskedAt(requests, p) {
      if Asked(requests, s) {
        var n :| 0 <= n < |requests| && requests[n].slot == s;
        assert after.slots[s] == SlotRow(rid, requests[n].place);
        assert forall m | 0 <= m < |requests| && requests[m].slot == s :: m == n;
      }
    }
  }

  lemma RequestIsFreeIff(c: Cal, mid: Cal, rid: Id, requests: seq<SlotRequest>, n: nat)
    requires n < |requests| && mid == c.(slots := mid.slots)
    requires var p := requests[n].place;
             && Running(mid, p) == Running(c, p) + AskedAt(requests[..n], p) && Running(c, p) !! AskedAt(requests[..n], p)
             && Standing(mid, p, None) == Standing(c, p, None)
    ensures ReserveSlot(mid, rid, requests[n]).Ok? <==> FreeAfter(c, requests, n)
  {
    hide Running, Standing, AskedAt, PlaceError;
    var r := requests[n];
    PlaceIsFreeIff(mid, r.branch, r.place, None);
    assert |Running(mid, r.place)| == |Running(c, r.place)| + |AskedAt(requests[..n], r.place)|;
  }

  lemma {:induction false} AllFreeIff(c: Cal, rid: Id, requests: seq<SlotRequest>)
    requires rid in c.reservations && c.now < c.reservations[rid] && FreshSlots(c, requests)
    ensures ReserveSlots(c, rid, requests).Ok? <==> forall n: nat | n < |requests| :: FreeAfter(c, requests, n)
  {
    hide FreeAfter, FreshSlots, ReserveSlot, Running, Standing, AskedAt;
    if requests != [] {
      var last := |requests| - 1;
      var before := requests[..last];
      FewerFresh(c, requests, last);
      AllFreeIff(c, rid, before);
      forall n: nat | n < last ensures FreeAfter(c, before, n) <==> FreeAfter(c, requests, n) {
        SameFree(c, requests, n);
      }
      if ReserveSlots(c, rid, before).Ok? {
        RunningAfter(c, rid, before, requests[last].place);
        RequestIsFreeIff(c, ReserveSlots(c, rid, before).value, rid, requests, last);
      }
    }
  }

  lemma SameFree(c: Cal, requests: seq<SlotRequest>, n: nat)
    requires n < |requests| - 1
    ensures FreeAfter(c, requests[..|requests| - 1], n) <==> FreeAfter(c, requests, n)
  {
    var before := requests[..|requests| - 1];
    assert before[n] == requests[n] && before[..n] == requests[..n];
  }

  /**
   * A reserve with several deliveries gets all its slots exactly when each one's place is open to its branch
   * and still has room after the running holds, the standing orders and the reserve's own earlier deliveries there.
   */
  lemma ReserveAcceptsIff(c: Cal, rid: Id, expiresAt: int, requests: seq<SlotRequest>)
    requires RowsOk(c) && rid !in c.reservations && c.now < expiresAt && FreshSlots(c, requests) && requests != []
    ensures Step(c, Op.Reserve(rid, expiresAt, requests)) != c <==> forall n: nat | n < |requests| :: FreeAfter(c, requests, n)
  {
    var begun := Begin(c, rid, expiresAt);
    AllFreeIff(begun, rid, requests);
    forall n: nat | n < |requests| ensures FreeAfter(begun, requests, n) <==> FreeAfter(c, requests, n) {
      SameCounts(c, rid, expiresAt, requests[n].place);
    }
    if ReserveSlots(begun, rid, requests).Ok? { SlotsAreWritten(begun, rid, requests); }
  }

  lemma SameCounts(c: Cal, rid: Id, expiresAt: int, p: Place)
    requires RowsOk(c) && rid !in c.reservations
    ensures var begun := Begin(c, rid, expiresAt);
            Running(begun, p) == Running(c, p) && Standing(begun, p, None) == Standing(c, p, None)
  {
  }

  /**
   * What an accepted reserve writes: its reservation and its slots; of the old rows only expired ones
   * go, at places it asks for.
   */
  lemma ReserveWrites(c: Cal, rid: Id, expiresAt: int, requests: seq<SlotRequest>)
    requires RowsOk(c) && rid !in c.reservations && c.now <= expiresAt && FreshSlots(c, requests)
    ensures var after := Step(c, Op.Reserve(rid, expiresAt, requests));
            after == c || SlotsWritten(c.(reservations := c.reservations[rid := expiresAt]), after, rid, requests)
  {
    var begun := Begin(c, rid, expiresAt);
    if ReserveSlots(begun, rid, requests).Ok? { SlotsAreWritten(begun, rid, requests); }
  }

  // ---- the other changes

  /** A confirm is refused after the hold's end; otherwise every slot of it becomes an order at its place. */
  lemma ConfirmWrites(c: Cal, rid: Id)
    requires RowsOk(c)
    ensures var after := Step(c, Confirm(rid));
            if rid !in c.reservations || c.reservations[rid] < c.now then after == c
            else
              && after == c.(slots := after.slots, orders := after.orders, reservations := c.reservations - {rid})
              && after.slots == (map s | s in c.slots && c.slots[s].reservation != rid :: c.slots[s])
              && (forall o :: o in after.orders <==> o in c.orders || (o in c.slots && c.slots[o].reservation == rid))
              && (forall o | o in c.orders :: after.orders[o] == c.orders[o])
              && (forall s | s in c.slots && c.slots[s].reservation == rid ::
                    after.orders[s] == OrderRow(Some(c.slots[s].place), true))
  {
  }

  /** Releasing takes the reservation and its slots; moving, converting and closing touch one order. */
  lemma OtherChangesWrite(c: Cal, rid: Id, order: Id, branch: Id, p: Place)
    requires order in c.orders
    ensures Step(c, Release(rid)) ==
            c.(reservations := c.reservations - {rid},
               slots := map s | s in c.slots && c.slots[s].reservation != rid :: c.slots[s])
    ensures Step(c, Reschedule(order, branch, p)) ==
            if && p.window in c.windows && c.windows[p.window].branch == branch
               && 0 <= p.date - c.now / 86400000 <= 2
               && (p.date + 4) % 7 == c.windows[p.window].dayOfWeek
               && !(p in c.exceptions && c.exceptions[p].closed)
               && |Running(c, p)| + |Standing(c, p, Some(order))| < Room(c, p)
            then c.(orders := c.orders[order := OrderRow(Some(p), c.orders[order].active)])
            else c
    ensures Step(c, Convert(order)) == c.(orders := c.orders[order := OrderRow(None, c.orders[order].active)])
    ensures Step(c, Close(order)) == c.(orders := c.orders[order := OrderRow(c.orders[order].place, false)])
  {
    PlaceIsFreeIff(c, branch, p, Some(order));
  }

  /** Two windows do not meet: other branch, other day, or one is over before the other starts. */
  predicate Apart(a: Window, b: Window)
  {
    a.branch != b.branch || a.dayOfWeek != b.dayOfWeek || a.end <= b.start || b.end <= a.start
  }

  /**
   * A window may start, or change, only if it is not empty and meets none of the others; a change also
   * needs nothing live on it.
   */
  lemma WindowChangesIff(c: Cal, w: Id, row: Window)
    ensures w !in c.windows ==>
              Step(c, CreateWindow(w, row)) ==
              if row.start < row.end && forall v | v in c.windows :: Apart(c.windows[v], row)
              then c.(windows := c.windows[w := row]) else c
    ensures w in c.windows ==>
              Step(c, UpdateWindow(w, row)) ==
              if && row.start < row.end && (forall v | v in c.windows && v != w :: Apart(c.windows[v], row))
                 && (forall o, p | o in c.orders && c.orders[o].place == Some(p) && p.window == w :: !c.orders[o].active)
                 && (forall s | s in c.slots && c.slots[s].place.window == w ::
                       c.slots[s].reservation in c.reservations ==> c.reservations[c.slots[s].reservation] <= c.now)
              then c.(windows := c.windows[w := row]) else c
  {
    assert forall v | v in c.windows :: Overlap(c.windows[v], row) <==> !Apart(c.windows[v], row);
  }

  /** An exception either closes a date or overrides its capacity, and a date has at most one. */
  lemma ExceptionChangesIff(c: Cal, p: Place, e: Exception)
    requires p.window in c.windows
    ensures Step(c, AddException(p, e)) ==
            if p !in c.exceptions && ((e.closed && e.override == None) || (!e.closed && e.override != None))
            then c.(exceptions := c.exceptions[p := e]) else c
    ensures Step(c, RemoveException(p)) == c.(exceptions := map q | q in c.exceptions && q != p :: c.exceptions[q])
  {
  }

  /**
   * In every reachable state, date by date: running holds and standing orders fit, and the windows of a
   * branch are apart.
   */
  lemma NeverOverbookedOnRows(now: int, ops: seq<Op>, p: Place)
    requires Runs(Empty(now), ops)
    ensures var c := After(Empty(now), ops);
            && (p.window in c.windows ==> |Running(c, p)| + |Standing(c, p, None)| <= Room(c, p))
            && (forall w | w in c.windows :: c.windows[w].start < c.windows[w].end)
            && (forall v, w | v in c.windows && w in c.windows && v != w :: Apart(c.windows[v], c.windows[w]))
  {
    NeverOverbooked(now, ops, p);
    CountsAre(After(Empty(now), ops), p, None);
    var c := After(Empty(now), ops);
    forall v, w | v in c.windows && w in c.windows && v != w ensures Apart(c.windows[v], c.windows[w]) {
      assert !Overlap(c.windows[v], c.windows[w]);
    }
  }

  // ---- what the slot picker shows

  /**
   * A listed slot shows its window's hours and how many deliveries reserve would still take there, at
   * least one; the list runs by date and start.
   */
  lemma PickerShows(c: Cal, branch: Id, options: seq<SlotOption>, n: nat)
    requires InOrder(options) && ListsAll(c, branch, options) && n < |options|
    ensures var o := options[n];
            var p := Place(o.window, o.date);
            && p.window in c.windows && c.windows[p.window].branch == branch
            && (o.start, o.end) == (c.windows[p.window].start, c.windows[p.window].end)
            && o.dayOfWeek == (o.date + 4) % 7 == c.windows[p.window].dayOfWeek
            && !(p in c.exceptions && c.exceptions[p].closed)
            && o.remaining == Room(c, p) - |Running(c, p)| - |Standing(c, p, None)|
            && o.remaining > 0
            && forall m | 0 <= m < n :: options[m].date < o.date || (options[m].date == o.date && options[m].start <= o.start)
  {
    var o := options[n];
    assert o in options;
    PlaceIsFreeIff(c, branch, Place(o.window, o.date), None);
    CountsAre(c, Place(o.window, o.date), None);
    forall m | 0 <= m < n ensures !Sooner(o, options[m]) {
    }
  }
}
