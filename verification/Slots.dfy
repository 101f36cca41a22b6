/**
 * Delivery slots. A branch's weekly windows take a limited number of deliveries per date; checkout
 * holds, orders, reschedules and conversions to pickup all count against the same capacity.
 */
module Slots {
  import opened Common

  const MILLISECONDS_PER_DAY := 86400000

  /** The slot picker offers today and the two days after it. */
  const DAYS_OFFERED := 3

  datatype Window = Window(branch: Id, dayOfWeek: int, start: int, end: int, capacity: nat)

  /** A window on one date; dates are days since the epoch. */
  datatype Place = Place(window: Id, date: int)

  datatype Exception = Exception(closed: bool, override: Option<nat>)

  datatype SlotRow = SlotRow(reservation: Id, place: Place)

  /** `active` is false once the order's status is terminal. An order keeps the id of the slot it came from. */
  datatype OrderRow = OrderRow(place: Option<Place>, active: bool)

  /** `reservations` maps a reservation to the instant it expires. */
  datatype Cal = Cal(
    now: int,
    windows: map<Id, Window>,
    exceptions: map<Place, Exception>,
    reservations: map<Id, int>,
    slots: map<Id, SlotRow>,
    orders: map<Id, OrderRow>)

  datatype SlotError = WindowNotFound | InvalidSlotDate | SlotClosed | CapacityExceeded

  // ---- reading the calendar

  function Today(now: int): int
  {
    now / MILLISECONDS_PER_DAY
  }

  /** Sunday is 0; the epoch was a Thursday. */
  function DayOfWeek(date: int): int
  {
    (date + 4) % 7
  }

  /** Slots whose hold is still running: `expiresAt > now`. */
  function LiveSlots(c: Cal, p: Place): set<Id>
  {
    set s | s in c.slots && c.slots[s].place == p && c.slots[s].reservation in c.reservations
            && c.reservations[c.slots[s].reservation] > c.now
  }

  function ActiveOrders(c: Cal, p: Place): set<Id>
  {
    set o | o in c.orders && c.orders[o].active && c.orders[o].place == Some(p)
  }

  function Booked(c: Cal, p: Place): nat
  {
    |LiveSlots(c, p)| + |ActiveOrders(c, p)|
  }

  function Capacity(c: Cal, p: Place): nat
    requires p.window in c.windows
  {
    if p in c.exceptions && c.exceptions[p].override.Some? then c.exceptions[p].override.value
    else c.windows[p.window].capacity
  }

  predicate ClosedOn(c: Cal, p: Place)
  {
    p in c.exceptions && c.exceptions[p].closed
  }

  /** Why a delivery cannot be put at `p`; `moving` is an order that would give up its own place. */
  function PlaceError(c: Cal, branch: Id, p: Place, moving: Option<Id>): Option<SlotError>
  {
    if p.window !in c.windows || c.windows[p.window].branch != branch then Some(WindowNotFound)
    else if p.date - Today(c.now) < 0 || p.date - Today(c.now) > 2 then Some(InvalidSlotDate)
    else if DayOfWeek(p.date) != c.windows[p.window].dayOfWeek then Some(InvalidSlotDate)
    else if ClosedOn(c, p) then Some(SlotClosed)
    else if |LiveSlots(c, p)| + |ActiveOrders(c, p) - Mover(moving)| >= Capacity(c, p) then Some(CapacityExceeded)
    else None
  }

  function Mover(moving: Option<Id>): set<Id>
  {
    if moving.Some? then {moving.value} else {}
  }

  // ---- the steps

  function ExpiredSlots(c: Cal, p: Place): set<Id>
  {
    set s | s in c.slots && c.slots[s].place == p && c.slots[s].reservation in c.reservations
            && c.reservations[c.slots[s].reservation] < c.now
  }

  /** One delivery group of a reserve. */
  datatype SlotRequest = SlotRequest(slot: Id, branch: Id, place: Place)

  function ReserveSlot(c: Cal, rid: Id, r: SlotRequest): Result<Cal, SlotError>
  {
    match PlaceError(c, r.branch, r.place, None)
    case Some(e) => Err(e)
    case None => Ok(c.(slots := (c.slots - ExpiredSlots(c, r.place))[r.slot := SlotRow(rid, r.place)]))
  }

  function ReserveSlots(c: Cal, rid: Id, requests: seq<SlotRequest>): Result<Cal, SlotError>
  {
    if requests == [] then Ok(c)
    else
      match ReserveSlots(c, rid, requests[..|requests| - 1])
      case Err(e) => Err(e)
      case Ok(mid) => ReserveSlot(mid, rid, requests[|requests| - 1])
  }

  /** Reserve's first write: the reservation itself. */
  function Begin(c: Cal, rid: Id, expiresAt: int): Cal
  {
    c.(reservations := c.reservations[rid := expiresAt])
  }

  /** All delivery groups of one reserve, or none. */
  function ReserveStep(c: Cal, rid: Id, expiresAt: int, requests: seq<SlotRequest>): Cal
  {
    match ReserveSlots(Begin(c, rid, expiresAt), rid, requests)
    case Err(_) => c
    case Ok(after) => after
  }

  function SlotsOf(c: Cal, rid: Id): set<Id>
  {
    set s | s in c.slots && c.slots[s].reservation == rid
  }

  /** Cancel, or the release of an expired reservation: its slots cascade away. */
  function ReleaseStep(c: Cal, rid: Id): Cal
  {
    c.(reservations := c.reservations - {rid}, slots := c.slots - SlotsOf(c, rid))
  }

  /** Where the slots of `rid` are. */
  function PlacesOf(c: Cal, rid: Id): map<Id, Place>
  {
    map s | s in SlotsOf(c, rid) :: c.slots[s].place
  }

  /** The writing half of confirm: every slot it has read becomes an order at its place. */
  function FinishStep(c: Cal, rid: Id, read: map<Id, Place>): Cal
  {
    ReleaseStep(c, rid).(orders := c.orders + map s | s in read :: OrderRow(Some(read[s]), true))
  }

  /** Confirm's check: it refuses only `expiresAt < now`. */
  predicate Refused(c: Cal, rid: Id)
  {
    rid !in c.reservations || c.reservations[rid] < c.now
  }

  /** Confirm, check and writes at one instant. */
  function ConfirmStep(c: Cal, rid: Id): Cal
  {
    if Refused(c, rid) then c else FinishStep(c, rid, PlacesOf(c, rid))
  }

  function RescheduleStep(c: Cal, order: Id, branch: Id, p: Place): Result<Cal, SlotError>
    requires order in c.orders
  {
    match PlaceError(c, branch, p, Some(order))
    case Some(e) => Err(e)
    case None => Ok(c.(orders := c.orders[order := c.orders[order].(place := Some(p))]))
  }

  function ConvertStep(c: Cal, order: Id): Cal
    requires order in c.orders
  {
    c.(orders := c.orders[order := c.orders[order].(place := None)])
  }

  function CloseStep(c: Cal, order: Id): Cal
    requires order in c.orders
  {
    c.(orders := c.orders[order := c.orders[order].(active := false)])
  }

  predicate Overlap(a: Window, b: Window)
  {
    a.branch == b.branch && a.dayOfWeek == b.dayOfWeek && a.start < b.end && a.end > b.start
  }

  predicate OverlapsAny(c: Cal, w: Id, row: Window)
  {
    exists v | v in c.windows && v != w :: Overlap(c.windows[v], row)
  }

  function CreateWindowStep(c: Cal, w: Id, row: Window): Cal
  {
    if row.end <= row.start || OverlapsAny(c, w, row) then c
    else c.(windows := c.windows[w := row])
  }

  predicate HasActiveOrder(c: Cal, w: Id)
  {
    exists o | o in c.orders :: c.orders[o].active && c.orders[o].place.Some? && c.orders[o].place.value.window == w
  }

  predicate HasLiveSlot(c: Cal, w: Id)
  {
    exists s | s in c.slots :: c.slots[s].place.window == w && c.slots[s].reservation in c.reservations
                               && c.reservations[c.slots[s].reservation] > c.now
  }

  predicate MayChangeWindow(c: Cal, w: Id, row: Window)
  {
    row.start < row.end && !HasActiveOrder(c, w) && !HasLiveSlot(c, w) && !OverlapsAny(c, w, row)
  }

  function UpdateWindowStep(c: Cal, w: Id, row: Window): Cal
    requires w in c.windows
  {
    if MayChangeWindow(c, w, row) then c.(windows := c.windows[w := row]) else c
  }

  /** Add a dated exception; a second one for the same date is refused. */
  function AddExceptionStep(c: Cal, p: Place, e: Exception): Cal
  {
    if p.window !in c.windows || p in c.exceptions || e.closed == e.override.Some? then c
    else c.(exceptions := c.exceptions[p := e])
  }

  function RemoveExceptionStep(c: Cal, p: Place): Cal
  {
    c.(exceptions := c.exceptions - {p})
  }

  // ---- capacity

  /** No window and date is booked beyond its capacity. */
  predicate WithinCapacity(c: Cal, p: Place)
  {
    p.window in c.windows ==> Booked(c, p) <= Capacity(c, p)
  }

  ghost predicate CapacityOk(c: Cal)
  {
    forall p :: WithinCapacity(c, p)
  }

  predicate RowsOk(c: Cal)
  {
    && c.slots.Keys !! c.orders.Keys
    && (forall s | s in c.slots :: c.slots[s].reservation in c.reservations && c.slots[s].place.window in c.windows)
    && forall o | o in c.orders && c.orders[o].place.Some? :: c.orders[o].place.value.window in c.windows
  }

  predicate WindowsOk(c: Cal)
  {
    forall v, w | v in c.windows && w in c.windows ::
      c.windows[v].start < c.windows[v].end && (v != w ==> !Overlap(c.windows[v], c.windows[w]))
  }

  ghost predicate CalInv(c: Cal)
  {
    CapacityOk(c) && RowsOk(c) && WindowsOk(c)
  }

  lemma {:induction false} SubsetIsSmaller(a: set<Id>, b: set<Id>)
    requires a <= b
    ensures |a| <= |b|
  {
    if a != {} {
      var x :| x in a;
      SubsetIsSmaller(a - {x}, b - {x});
    }
  }

  /** Losing slots or orders, or letting time pass, never overbooks. */
  lemma FewerIsOk(c: Cal, after: Cal, p: Place)
    requires WithinCapacity(c, p) && LiveSlots(after, p) <= LiveSlots(c, p) && ActiveOrders(after, p) <= ActiveOrders(c, p)
    requires p.window in after.windows ==> p.window in c.windows && Capacity(after, p) == Capacity(c, p)
    ensures WithinCapacity(after, p)
  {
    SubsetIsSmaller(LiveSlots(after, p), LiveSlots(c, p));
    SubsetIsSmaller(ActiveOrders(after, p), ActiveOrders(c, p));
  }

  lemma ReserveSlotCounts(c: Cal, rid: Id, r: SlotRequest, p: Place)
    requires ReserveSlot(c, rid, r).Ok? && r.slot !in c.slots
    ensures var after := ReserveSlot(c, rid, r).value;
            LiveSlots(after, p) <= LiveSlots(c, p) + (if p == r.place then {r.slot} else {})
            && ActiveOrders(after, p) == ActiveOrders(c, p)
  {
  }

  lemma ReserveSlotRows(c: Cal, rid: Id, r: SlotRequest)
    requires ReserveSlot(c, rid, r).Ok? && RowsOk(c) && WindowsOk(c)
    requires rid in c.reservations && r.slot !in c.orders
    ensures RowsOk(ReserveSlot(c, rid, r).value) && WindowsOk(ReserveSlot(c, rid, r).value)
  {
  }

  lemma AcceptedHasRoom(c: Cal, branch: Id, p: Place)
    requires PlaceError(c, branch, p, None) == None
    ensures p.window in c.windows && Booked(c, p) < Capacity(c, p)
  {
    assert ActiveOrders(c, p) - Mover(None) == ActiveOrders(c, p);
  }

  /** At most one more booking, where there was room for it. */
  lemma OneMoreIsOk(c: Cal, after: Cal, p: Place, id: Id)
    requires p.window in c.windows && Booked(c, p) < Capacity(c, p)
    requires p.window in after.windows && Capacity(after, p) == Capacity(c, p)
    requires (LiveSlots(after, p) <= LiveSlots(c, p) + {id} && ActiveOrders(after, p) <= ActiveOrders(c, p))
             || (LiveSlots(after, p) <= LiveSlots(c, p) && ActiveOrders(after, p) <= ActiveOrders(c, p) + {id})
    ensures WithinCapacity(after, p)
  {
    hide LiveSlots, ActiveOrders, Capacity;
    if LiveSlots(after, p) <= LiveSlots(c, p) + {id} && ActiveOrders(after, p) <= ActiveOrders(c, p) {
      SubsetIsSmaller(LiveSlots(after, p), LiveSlots(c, p) + {id});
      SubsetIsSmaller(ActiveOrders(after, p), ActiveOrders(c, p));
    } else {
      SubsetIsSmaller(LiveSlots(after, p), LiveSlots(c, p));
      SubsetIsSmaller(ActiveOrders(after, p), ActiveOrders(c, p) + {id});
    }
  }

  lemma ReserveSlotKeepsInv(c: Cal, rid: Id, r: SlotRequest)
    requires CalInv(c) && rid in c.reservations && r.slot !in c.slots && r.slot !in c.orders
    requires ReserveSlot(c, rid, r).Ok?
    ensures CalInv(ReserveSlot(c, rid, r).value)
  {
    var after := ReserveSlot(c, rid, r).value;
    ReserveSlotRows(c, rid, r);
    AcceptedHasRoom(c, r.branch, r.place);
    hide LiveSlots, ActiveOrders, PlaceError, RowsOk, WindowsOk, WithinCapacity;
    forall p ensures WithinCapacity(after, p) {
      ReserveSlotCounts(c, rid, r, p);
      assert WithinCapacity(c, p);
      if p == r.place { OneMoreIsOk(c, after, p, r.slot); } else { FewerIsOk(c, after, p); }
    }
  }

  lemma {:induction false} ReserveSlotsKeepInv(c: Cal, rid: Id, requests: seq<SlotRequest>)
    requires CalInv(c) && rid in c.reservations && FreshSlots(c, requests)
    requires ReserveSlots(c, rid, requests).Ok?
    ensures var after := ReserveSlots(c, rid, requests).value;
            CalInv(after) && after.reservations == c.reservations && after.orders == c.orders
            && forall s | s in after.slots :: s in c.slots || exists n :: 0 <= n < |requests| && requests[n].slot == s
  {
    if requests != [] {
      var last := |requests| - 1;
      ReserveSlotsKeepInv(c, rid, requests[..last]);
      ReserveSlotKeepsInv(ReserveSlots(c, rid, requests[..last]).value, rid, requests[last]);
    }
  }

  /** Slot ids are new and used once. */
  predicate FreshSlots(c: Cal, requests: seq<SlotRequest>)
  {
    && (forall n | 0 <= n < |requests| :: requests[n].slot !in c.slots && requests[n].slot !in c.orders)
    && forall m, n | 0 <= m < n < |requests| :: requests[m].slot != requests[n].slot
  }

  lemma ReserveKeepsInv(c: Cal, rid: Id, expiresAt: int, requests: seq<SlotRequest>)
    requires CalInv(c) && rid !in c.reservations && FreshSlots(c, requests)
    ensures CalInv(ReserveStep(c, rid, expiresAt, requests))
  {
    var begun := c.(reservations := c.reservations[rid := expiresAt]);
    forall p ensures WithinCapacity(begun, p) {
      FewerIsOk(c, begun, p);
    }
    if ReserveSlots(begun, rid, requests).Ok? { ReserveSlotsKeepInv(begun, rid, requests); }
  }

  lemma ReleaseKeepsInv(c: Cal, rid: Id)
    requires CalInv(c)
    ensures CalInv(ReleaseStep(c, rid))
  {
    forall p ensures WithinCapacity(ReleaseStep(c, rid), p) {
      FewerIsOk(c, ReleaseStep(c, rid), p);
    }
  }

  /**
   * What a confirm may have read of its reservation earlier: at least the slots that are still there.
   * Others of its slots may have been cleared away since, as expired, by another reserve.
   */
  predicate MayHaveRead(c: Cal, rid: Id, read: map<Id, Place>)
  {
    && (forall s | s in SlotsOf(c, rid) :: s in read && read[s] == c.slots[s].place)
    && read.Keys * c.slots.Keys <= SlotsOf(c, rid) && read.Keys !! c.orders.Keys
    && forall s | s in read :: read[s].window in c.windows
  }

  function ReadAt(read: map<Id, Place>, p: Place): set<Id>
  {
    set s | s in read && read[s] == p
  }

  /** Slots read at `p` that no count sees: their hold ends this very instant or has ended. */
  function Uncounted(c: Cal, read: map<Id, Place>, p: Place): set<Id>
  {
    ReadAt(read, p) - LiveSlots(c, p)
  }

  lemma FinishOrders(c: Cal, rid: Id, read: map<Id, Place>, p: Place)
    requires MayHaveRead(c, rid, read)
    ensures ActiveOrders(FinishStep(c, rid, read), p) == ActiveOrders(c, p) + ReadAt(read, p)
    ensures ActiveOrders(c, p) !! ReadAt(read, p)
  {
  }

  lemma FinishSlots(c: Cal, rid: Id, read: map<Id, Place>, p: Place)
    requires MayHaveRead(c, rid, read)
    ensures LiveSlots(FinishStep(c, rid, read), p) == LiveSlots(c, p) - ReadAt(read, p)
  {
  }

  /** Slots move from one count to the other; only those the first one missed add to the sum. */
  lemma MovedCounts(live: set<Id>, active: set<Id>, mine: set<Id>)
    requires active !! mine
    ensures |live - mine| + |active + mine| == |live| + |active| + |mine - live|
  {
    assert live == (live - mine) + (live * mine);
    assert |live| == |live - mine| + |live * mine|;
    assert mine == (mine - live) + (live * mine);
    assert |mine| == |mine - live| + |live * mine|;
  }

  lemma FinishBooks(c: Cal, rid: Id, read: map<Id, Place>, p: Place)
    requires MayHaveRead(c, rid, read)
    ensures Booked(FinishStep(c, rid, read), p) == Booked(c, p) + |Uncounted(c, read, p)|
  {
    hide LiveSlots, ActiveOrders, ReadAt, FinishStep, MayHaveRead;
    FinishOrders(c, rid, read, p);
    FinishSlots(c, rid, read, p);
    MovedCounts(LiveSlots(c, p), ActiveOrders(c, p), ReadAt(read, p));
  }

  /** Every place still fits the slots read that nobody counted. */
  ghost predicate UncountedFit(c: Cal, read: map<Id, Place>)
  {
    forall p: Place :: p.window in c.windows ==> Booked(c, p) + |Uncounted(c, read, p)| <= Capacity(c, p)
  }

  /** Confirm's writes turn counted slots into counted orders; they overbook only with slots nobody counted. */
  lemma FinishKeepsCapacityIff(c: Cal, rid: Id, read: map<Id, Place>)
    requires CalInv(c) && MayHaveRead(c, rid, read)
    ensures CapacityOk(FinishStep(c, rid, read)) <==> UncountedFit(c, read)
  {
    var after := FinishStep(c, rid, read);
    forall p ensures WithinCapacity(after, p) <==>
      (p.window in c.windows ==> Booked(c, p) + |Uncounted(c, read, p)| <= Capacity(c, p))
    {
      FinishBooks(c, rid, read, p);
    }
    if CapacityOk(after) {
      forall p: Place | p.window in c.windows ensures Booked(c, p) + |Uncounted(c, read, p)| <= Capacity(c, p) {
        assert WithinCapacity(after, p);
      }
    }
  }

  lemma OwnSlotsMayBeRead(c: Cal, rid: Id)
    requires RowsOk(c)
    ensures MayHaveRead(c, rid, PlacesOf(c, rid))
  {
  }

  /** Check and writes at one instant: safe exactly when refused, or when what ends right now still fits. */
  lemma ConfirmKeepsCapacityIff(c: Cal, rid: Id)
    requires CalInv(c)
    ensures CapacityOk(ConfirmStep(c, rid)) <==> Refused(c, rid) || UncountedFit(c, PlacesOf(c, rid))
  {
    OwnSlotsMayBeRead(c, rid);
    FinishKeepsCapacityIff(c, rid, PlacesOf(c, rid));
  }

  /** A hold still running is counted in full, so confirming it never needs room. */
  lemma RunningHoldFits(c: Cal, rid: Id)
    requires CapacityOk(c) && rid in c.reservations && c.reservations[rid] > c.now
    ensures UncountedFit(c, PlacesOf(c, rid))
  {
    forall p: Place | p.window in c.windows
      ensures Booked(c, p) + |Uncounted(c, PlacesOf(c, rid), p)| <= Capacity(c, p)
    {
      assert Uncounted(c, PlacesOf(c, rid), p) == {};
      assert WithinCapacity(c, p);
    }
  }

  lemma FinishKeepsInv(c: Cal, rid: Id, read: map<Id, Place>)
    requires CalInv(c) && MayHaveRead(c, rid, read) && UncountedFit(c, read)
    ensures CalInv(FinishStep(c, rid, read))
  {
    FinishKeepsCapacityIff(c, rid, read);
    FinishKeepsRows(c, rid, read);
  }

  lemma FinishKeepsRows(c: Cal, rid: Id, read: map<Id, Place>)
    requires RowsOk(c) && WindowsOk(c) && MayHaveRead(c, rid, read)
    ensures RowsOk(FinishStep(c, rid, read)) && WindowsOk(FinishStep(c, rid, read))
  {
  }

  lemma RescheduleCounts(c: Cal, order: Id, branch: Id, p: Place, q: Place)
    requires order in c.orders && RescheduleStep(c, order, branch, p).Ok?
    ensures var after := RescheduleStep(c, order, branch, p).value;
            LiveSlots(after, q) == LiveSlots(c, q)
            && ActiveOrders(after, q) <= (ActiveOrders(c, q) - {order}) + (if p == q then {order} else {})
  {
  }

  lemma RescheduleRows(c: Cal, order: Id, branch: Id, p: Place)
    requires order in c.orders && RescheduleStep(c, order, branch, p).Ok? && RowsOk(c) && WindowsOk(c)
    ensures RowsOk(RescheduleStep(c, order, branch, p).value) && WindowsOk(RescheduleStep(c, order, branch, p).value)
  {
  }

  /** Moving an order frees its old place and is judged without it. */
  lemma RescheduleKeepsInv(c: Cal, order: Id, branch: Id, p: Place)
    requires CalInv(c) && order in c.orders && RescheduleStep(c, order, branch, p).Ok?
    ensures CalInv(RescheduleStep(c, order, branch, p).value)
  {
    var after := RescheduleStep(c, order, branch, p).value;
    RescheduleRows(c, order, branch, p);
    forall q ensures WithinCapacity(after, q) {
      RescheduleCounts(c, order, branch, p, q);
      assert WithinCapacity(c, q);
      if q == p { MovedHasRoom(c, after, order, branch, p); } else { MovedAway(c, after, order, q); }
    }
  }

  lemma MovedHasRoom(c: Cal, after: Cal, order: Id, branch: Id, p: Place)
    requires PlaceError(c, branch, p, Some(order)) == None
    requires p.window in after.windows && Capacity(after, p) == Capacity(c, p)
    requires LiveSlots(after, p) == LiveSlots(c, p) && ActiveOrders(after, p) <= (ActiveOrders(c, p) - {order}) + {order}
    ensures WithinCapacity(after, p)
  {
    hide LiveSlots, ActiveOrders, Capacity;
    SubsetIsSmaller(ActiveOrders(after, p), (ActiveOrders(c, p) - {order}) + {order});
  }

  lemma MovedAway(c: Cal, after: Cal, order: Id, q: Place)
    requires WithinCapacity(c, q) && LiveSlots(after, q) == LiveSlots(c, q)
    requires ActiveOrders(after, q) <= ActiveOrders(c, q) - {order}
    requires after.windows == c.windows && after.exceptions == c.exceptions
    ensures WithinCapacity(after, q)
  {
    FewerIsOk(c, after, q);
  }

  lemma ConvertKeepsInv(c: Cal, order: Id)
    requires CalInv(c) && order in c.orders
    ensures CalInv(ConvertStep(c, order)) && CalInv(CloseStep(c, order))
  {
    forall p ensures WithinCapacity(ConvertStep(c, order), p) && WithinCapacity(CloseStep(c, order), p) {
      FewerIsOk(c, ConvertStep(c, order), p);
      FewerIsOk(c, CloseStep(c, order), p);
    }
  }

  lemma NothingBooked(c: Cal, p: Place)
    requires !HasActiveOrder(c, p.window) && !HasLiveSlot(c, p.window)
    ensures Booked(c, p) == 0
  {
    assert LiveSlots(c, p) == {} && ActiveOrders(c, p) == {};
  }

  lemma UpdateWindowKeepsInv(c: Cal, w: Id, row: Window)
    requires CalInv(c) && w in c.windows
    ensures CalInv(UpdateWindowStep(c, w, row))
  {
    var after := UpdateWindowStep(c, w, row);
    if after != c {
      forall p ensures WithinCapacity(after, p) {
        assert LiveSlots(after, p) == LiveSlots(c, p) && ActiveOrders(after, p) == ActiveOrders(c, p);
        if p.window == w { NothingBooked(c, p); } else { FewerIsOk(c, after, p); }
      }
      OneMoreWindow(c, w, row);
    }
  }

  lemma OneMoreWindow(c: Cal, w: Id, row: Window)
    requires WindowsOk(c) && row.start < row.end && !OverlapsAny(c, w, row)
    ensures WindowsOk(c.(windows := c.windows[w := row]))
  {
    forall v | v in c.windows && v != w ensures !Overlap(c.windows[v], row) && !Overlap(row, c.windows[v]) {
    }
  }

  lemma CreateWindowKeepsInv(c: Cal, w: Id, row: Window)
    requires CalInv(c) && w !in c.windows
    ensures CalInv(CreateWindowStep(c, w, row))
  {
    var after := CreateWindowStep(c, w, row);
    if after != c {
      forall p ensures WithinCapacity(after, p) {
        assert LiveSlots(after, p) == LiveSlots(c, p) && ActiveOrders(after, p) == ActiveOrders(c, p);
        if p.window == w { NothingBooked(c, p); } else { FewerIsOk(c, after, p); }
      }
      OneMoreWindow(c, w, row);
    }
  }

  /** `after` differs from `c` in the exception for `p` only. */
  predicate OnlyException(c: Cal, after: Cal, p: Place)
  {
    && after == c.(exceptions := after.exceptions)
    && (after.exceptions - {p}) == (c.exceptions - {p})
  }

  lemma ExceptionStepsChangeOne(c: Cal, p: Place, e: Exception)
    ensures OnlyException(c, AddExceptionStep(c, p, e), p) && OnlyException(c, RemoveExceptionStep(c, p), p)
  {
  }

  lemma OtherPlacesKeepCapacity(c: Cal, after: Cal, p: Place, q: Place)
    requires OnlyException(c, after, p) && q != p && q.window in c.windows
    ensures Capacity(after, q) == Capacity(c, q)
  {
    assert q in c.exceptions <==> q in c.exceptions - {p};
    assert q in after.exceptions <==> q in after.exceptions - {p};
    if q in c.exceptions {
      assert (c.exceptions - {p})[q] == c.exceptions[q];
      assert (after.exceptions - {p})[q] == after.exceptions[q];
    }
  }

  /** An exception changes one date's capacity and nothing else, so it is safe exactly when that date still fits. */
  lemma ExceptionKeepsCapacityIff(c: Cal, after: Cal, p: Place)
    requires CalInv(c) && p.window in c.windows && OnlyException(c, after, p)
    ensures CapacityOk(after) <==> Booked(c, p) <= Capacity(after, p)
    ensures RowsOk(after) && WindowsOk(after)
  {
    forall q ensures Booked(after, q) == Booked(c, q) {
      assert LiveSlots(after, q) == LiveSlots(c, q) && ActiveOrders(after, q) == ActiveOrders(c, q);
    }
    if CapacityOk(after) { assert WithinCapacity(after, p); }
    hide Capacity, Booked, OnlyException;
    forall q | q != p ensures WithinCapacity(after, q) {
      assert WithinCapacity(c, q);
      if q.window in c.windows { OtherPlacesKeepCapacity(c, after, p, q); }
    }
  }

  // ---- every run

  /** `LateConfirm` is a confirm whose check and read came at an earlier instant, however long ago. */
  datatype Op =
    | Reserve(rid: Id, expiresAt: int, requests: seq<SlotRequest>)
    | Release(rid: Id)
    | Confirm(rid: Id)
    | LateConfirm(rid: Id, read: map<Id, Place>)
    | Reschedule(order: Id, branch: Id, place: Place)
    | Convert(order: Id)
    | Close(order: Id)
    | CreateWindow(w: Id, row: Window)
    | UpdateWindow(w: Id, row: Window)
    | AddException(place: Place, e: Exception)
    | RemoveException(place: Place)
    | Tick(elapsed: nat)

  predicate Enabled(c: Cal, op: Op)
  {
    match op
    case Reserve(rid, _, requests) => rid !in c.reservations && FreshSlots(c, requests)
    case LateConfirm(rid, read) => MayHaveRead(c, rid, read)
    case Reschedule(o, _, _) => o in c.orders
    case Convert(o) => o in c.orders
    case Close(o) => o in c.orders
    case CreateWindow(w, _) => w !in c.windows
    case UpdateWindow(w, _) => w in c.windows
    case AddException(p, _) => p.window in c.windows
    case RemoveException(p) => p.window in c.windows
    case _ => true
  }

  /** What was not counted still fits when it is confirmed; no exception cuts a date below what is booked. */
  ghost predicate Tame(c: Cal, op: Op)
    requires Enabled(c, op)
  {
    match op
    case Confirm(rid) => Refused(c, rid) || UncountedFit(c, PlacesOf(c, rid))
    case LateConfirm(_, read) => UncountedFit(c, read)
    case AddException(p, e) => Booked(c, p) <= Capacity(AddExceptionStep(c, p, e), p)
    case RemoveException(p) => Booked(c, p) <= Capacity(RemoveExceptionStep(c, p), p)
    case _ => true
  }

  function Step(c: Cal, op: Op): Cal
    requires Enabled(c, op)
  {
    match op
    case Reserve(rid, expiresAt, requests) => ReserveStep(c, rid, expiresAt, requests)
    case Release(rid) => ReleaseStep(c, rid)
    case Confirm(rid) => ConfirmStep(c, rid)
    case LateConfirm(rid, read) => FinishStep(c, rid, read)
    case Reschedule(o, branch, p) =>
      (match RescheduleStep(c, o, branch, p) case Ok(after) => after case Err(_) => c)
    case Convert(o) => ConvertStep(c, o)
    case Close(o) => CloseStep(c, o)
    case CreateWindow(w, row) => CreateWindowStep(c, w, row)
    case UpdateWindow(w, row) => UpdateWindowStep(c, w, row)
    case AddException(p, e) => AddExceptionStep(c, p, e)
    case RemoveException(p) => RemoveExceptionStep(c, p)
    case Tick(elapsed) => c.(now := c.now + elapsed)
  }

  lemma TickKeepsInv(c: Cal, elapsed: nat)
    requires CalInv(c)
    ensures CalInv(c.(now := c.now + elapsed))
  {
    var after := c.(now := c.now + elapsed);
    forall p ensures WithinCapacity(after, p) {
      FewerIsOk(c, after, p);
    }
  }

  lemma InvMayRead(c: Cal, rid: Id)
    requires CalInv(c)
    ensures MayHaveRead(c, rid, PlacesOf(c, rid))
  {
    OwnSlotsMayBeRead(c, rid);
  }

  lemma StepKeepsInv(c: Cal, op: Op)
    requires CalInv(c) && Enabled(c, op) && Tame(c, op)
    ensures CalInv(Step(c, op))
  {
    hide CalInv, PlaceError;
    match op
    case Reserve(rid, expiresAt, requests) => ReserveKeepsInv(c, rid, expiresAt, requests);
    case Release(rid) => ReleaseKeepsInv(c, rid);
    case Confirm(rid) => if !Refused(c, rid) { InvMayRead(c, rid); FinishKeepsInv(c, rid, PlacesOf(c, rid)); }
    case LateConfirm(rid, read) => FinishKeepsInv(c, rid, read);
    case Reschedule(o, branch, p) => if RescheduleStep(c, o, branch, p).Ok? { RescheduleKeepsInv(c, o, branch, p); }
    case Convert(o) => ConvertKeepsInv(c, o);
    case Close(o) => ConvertKeepsInv(c, o);
    case CreateWindow(w, row) => CreateWindowKeepsInv(c, w, row);
    case UpdateWindow(w, row) => UpdateWindowKeepsInv(c, w, row);
    case AddException(p, e) =>
      ExceptionStepsChangeOne(c, p, e);
      ExceptionKeepsInv(c, AddExceptionStep(c, p, e), p);
    case RemoveException(p) =>
      ExceptionStepsChangeOne(c, p, Exception(true, None));
      ExceptionKeepsInv(c, RemoveExceptionStep(c, p), p);
    case Tick(elapsed) => TickKeepsInv(c, elapsed);
  }

  lemma ExceptionKeepsInv(c: Cal, after: Cal, p: Place)
    requires CalInv(c) && p.window in c.windows && OnlyException(c, after, p)
    requires Booked(c, p) <= Capacity(after, p)
    ensures CalInv(after)
  {
    ExceptionKeepsCapacityIff(c, after, p);
  }

  ghost predicate Runs(c: Cal, ops: seq<Op>)
    decreases |ops|
  {
    ops == [] || (Enabled(c, ops[0]) && Tame(c, ops[0]) && Runs(Step(c, ops[0]), ops[1..]))
  }

  ghost function After(c: Cal, ops: seq<Op>): Cal
    requires Runs(c, ops)
    decreases |ops|
  {
    if ops == [] then c else After(Step(c, ops[0]), ops[1..])
  }

  function Empty(now: int): Cal
  {
    Cal(now, map[], map[], map[], map[], map[])
  }

  lemma {:induction false} RunKeepsInv(c: Cal, ops: seq<Op>)
    requires CalInv(c) && Runs(c, ops)
    ensures CalInv(After(c, ops))
    decreases |ops|
  {
    if ops != [] {
      StepKeepsInv(c, ops[0]);
      RunKeepsInv(Step(c, ops[0]), ops[1..]);
    }
  }

  /** In every reachable state no window is overbooked on any date, and a branch's windows never overlap. */
  lemma NeverOverbooked(now: int, ops: seq<Op>, p: Place)
    requires Runs(Empty(now), ops)
    ensures var c := After(Empty(now), ops);
            p.window in c.windows ==> |LiveSlots(c, p)| + |ActiveOrders(c, p)| <= Capacity(c, p)
    ensures WindowsOk(After(Empty(now), ops))
  {
    RunKeepsInv(Empty(now), ops);
    assert WithinCapacity(After(Empty(now), ops), p);
  }

  /**
   * The instant itself is a hole: a hold ending exactly now is not counted, so the last free
   * place can be reserved again, and the first hold can still be confirmed beside it.
   */
  lemma ConfirmAtTheInstantCanOverbook(c: Cal, rid: Id, other: Id, expiresAt: int, r: SlotRequest)
    requires CalInv(c) && rid in c.reservations && c.reservations[rid] == c.now && SlotsAt(c, rid, r.place) != {}
    requires PlaceError(c, r.branch, r.place, None) == None && Booked(c, r.place) + 1 == Capacity(c, r.place)
    requires other !in c.reservations && expiresAt > c.now && r.slot !in c.slots && r.slot !in c.orders
    ensures var reserved := ReserveStep(c, other, expiresAt, [r]);
            CalInv(reserved) && r.slot in reserved.slots && !WithinCapacity(ConfirmStep(reserved, rid), r.place)
  {
    GivenAwayAgain(c, rid, other, expiresAt, r);
    hide CalInv, LiveSlots, ActiveOrders, PlaceError, ReserveStep, ConfirmStep, SlotsAt;
    EndingInAFullPlace(ReserveStep(c, other, expiresAt, [r]), rid, r.place);
  }

  /** The last place is taken although the first hold is still there. */
  lemma GivenAwayAgain(c: Cal, rid: Id, other: Id, expiresAt: int, r: SlotRequest)
    requires CalInv(c) && rid in c.reservations && c.reservations[rid] == c.now
    requires PlaceError(c, r.branch, r.place, None) == None && Booked(c, r.place) + 1 == Capacity(c, r.place)
    requires other !in c.reservations && expiresAt > c.now && r.slot !in c.slots && r.slot !in c.orders
    ensures var reserved := ReserveStep(c, other, expiresAt, [r]);
            && CalInv(reserved) && r.slot in reserved.slots && r.place.window in reserved.windows
            && Booked(reserved, r.place) == Capacity(reserved, r.place)
            && rid in reserved.reservations && reserved.reservations[rid] == reserved.now
            && SlotsAt(reserved, rid, r.place) == SlotsAt(c, rid, r.place)
  {
    hide LiveSlots, ActiveOrders;
    ReserveKeepsInv(c, other, expiresAt, [r]);
    var begun := c.(reservations := c.reservations[other := expiresAt]);
    OpeningChangesNoCount(c, other, expiresAt, r.place);
    SingleRequest(begun, other, r);
    LastPlaceTaken(begun, other, r);
    LastPlaceKeepsHold(begun, rid, other, r);
  }

  /** Confirming a hold that ends now, in a place that is full without it, overbooks the place. */
  lemma EndingInAFullPlace(c: Cal, rid: Id, p: Place)
    requires CalInv(c) && rid in c.reservations && c.reservations[rid] == c.now && SlotsAt(c, rid, p) != {}
    requires p.window in c.windows && Booked(c, p) == Capacity(c, p)
    ensures !WithinCapacity(ConfirmStep(c, rid), p)
  {
    hide CalInv, LiveSlots, ActiveOrders, SlotsAt, PlacesOf;
    InvMayRead(c, rid);
    EndedIsUncounted(c, rid, p);
    FinishBooks(c, rid, PlacesOf(c, rid), p);
  }

  lemma EndedIsUncounted(c: Cal, rid: Id, p: Place)
    requires rid in c.reservations && c.reservations[rid] <= c.now
    ensures Uncounted(c, PlacesOf(c, rid), p) == SlotsAt(c, rid, p)
  {
  }

  /** Slots of `rid` at `p`. */
  function SlotsAt(c: Cal, rid: Id, p: Place): set<Id>
  {
    set s | s in SlotsOf(c, rid) && c.slots[s].place == p
  }

  /** The run that gets there: one window for one delivery, reserved, and the clock at the end of that hold. */
  function InstantRun(): seq<Op>
  {
    [CreateWindow(0, Window(0, 4, 0, 60, 1)), Reserve(1, 10, [SlotRequest(100, 0, Place(0, 0))]), Tick(10)]
  }

  function AtTheInstant(now: int): Cal
  {
    Cal(now, map[0 := Window(0, 4, 0, 60, 1)], map[], map[1 := 10], map[100 := SlotRow(1, Place(0, 0))], map[])
  }

  lemma OneSlotReserved()
    ensures var c := Empty(0).(windows := map[0 := Window(0, 4, 0, 60, 1)]);
            ReserveStep(c, 1, 10, [SlotRequest(100, 0, Place(0, 0))]) == AtTheInstant(0)
  {
    var r := SlotRequest(100, 0, Place(0, 0));
    var begun := Begin(Empty(0).(windows := map[0 := Window(0, 4, 0, 60, 1)]), 1, 10);
    SingleRequest(begun, 1, r);
    assert LiveSlots(begun, r.place) == {} && ActiveOrders(begun, r.place) == {};
    assert begun.slots - ExpiredSlots(begun, r.place) == map[];
  }

  lemma InstantIsReached()
    ensures Runs(Empty(0), InstantRun()) && After(Empty(0), InstantRun()) == AtTheInstant(10)
  {
    OneSlotReserved();
    var ops := InstantRun();
    var c := Empty(0).(windows := map[0 := Window(0, 4, 0, 60, 1)]);
    assert Step(Empty(0), ops[0]) == c;
    assert FreshSlots(c, [SlotRequest(100, 0, Place(0, 0))]);
    assert Step(c, ops[1]) == AtTheInstant(0) && Step(AtTheInstant(0), ops[2]) == AtTheInstant(10);
    assert Runs(AtTheInstant(10), []);
    assert ops[1..][0] == ops[1] && ops[1..][1..][0] == ops[2] && ops[1..][1..][1..] == [];
    assert Runs(AtTheInstant(0), ops[1..][1..]);
    assert Runs(c, ops[1..]);
  }

  /** From there the one place is given away a second time and both holders get their delivery. */
  lemma TwoDeliveriesForOnePlace()
    ensures Runs(Empty(0), InstantRun())
    ensures var reserved := ReserveStep(After(Empty(0), InstantRun()), 2, 20, [SlotRequest(101, 0, Place(0, 0))]);
            !WithinCapacity(ConfirmStep(reserved, 1), Place(0, 0))
  {
    InstantIsReached();
    var c, r := AtTheInstant(10), SlotRequest(101, 0, Place(0, 0));
    RunKeepsInv(Empty(0), InstantRun());
    assert LiveSlots(c, r.place) == {} && ActiveOrders(c, r.place) == {};
    assert 100 in SlotsAt(c, 1, r.place);
    hide CalInv, ReserveStep, ConfirmStep, LiveSlots, ActiveOrders, Runs, After;
    ConfirmAtTheInstantCanOverbook(c, 1, 2, 20, r);
  }

  lemma SingleRequest(c: Cal, rid: Id, r: SlotRequest)
    ensures ReserveSlots(c, rid, [r]) == ReserveSlot(c, rid, r)
  {
    assert [r][..0] == [];
    assert ReserveSlots(c, rid, []) == Ok(c);
  }

  lemma LastPlaceTaken(c: Cal, rid: Id, r: SlotRequest)
    requires PlaceError(c, r.branch, r.place, None) == None
    requires rid in c.reservations && c.reservations[rid] > c.now && r.slot !in c.slots
    ensures var after := ReserveSlot(c, rid, r).value;
            Booked(after, r.place) == Booked(c, r.place) + 1 && Capacity(after, r.place) == Capacity(c, r.place)
  {
    hide PlaceError, LiveSlots, ActiveOrders;
    OneMoreLiveSlot(c, rid, r);
  }

  lemma OneMoreLiveSlot(c: Cal, rid: Id, r: SlotRequest)
    requires ReserveSlot(c, rid, r).Ok? && rid in c.reservations && c.reservations[rid] > c.now && r.slot !in c.slots
    ensures var after := ReserveSlot(c, rid, r).value;
            LiveSlots(after, r.place) == LiveSlots(c, r.place) + {r.slot} && r.slot !in LiveSlots(c, r.place)
            && ActiveOrders(after, r.place) == ActiveOrders(c, r.place)
  {
    hide PlaceError;
  }

  lemma LastPlaceKeepsHold(c: Cal, rid: Id, other: Id, r: SlotRequest)
    requires PlaceError(c, r.branch, r.place, None) == None && rid != other && r.slot !in c.slots
    requires rid in c.reservations && c.reservations[rid] == c.now
    ensures SlotsAt(ReserveSlot(c, other, r).value, rid, r.place) == SlotsAt(c, rid, r.place)
  {
  }

  lemma OpeningChangesNoCount(c: Cal, rid: Id, expiresAt: int, p: Place)
    requires RowsOk(c) && rid !in c.reservations
    ensures var begun := c.(reservations := c.reservations[rid := expiresAt]);
            LiveSlots(begun, p) == LiveSlots(c, p) && ActiveOrders(begun, p) == ActiveOrders(c, p)
            && forall branch :: PlaceError(begun, branch, p, None) == PlaceError(c, branch, p, None)
  {
    var begun := c.(reservations := c.reservations[rid := expiresAt]);
    assert LiveSlots(begun, p) == LiveSlots(c, p);
    assert ActiveOrders(begun, p) == ActiveOrders(c, p);
  }

  // ---- the slot picker

  datatype SlotOption = SlotOption(window: Id, date: int, dayOfWeek: int, start: int, end: int, remaining: int)

  function OptionFor(c: Cal, p: Place): SlotOption
    requires p.window in c.windows
  {
    var w := c.windows[p.window];
    SlotOption(p.window, p.date, DayOfWeek(p.date), w.start, w.end, Capacity(c, p) - Booked(c, p))
  }

  function PlaceOf(o: SlotOption): Place
  {
    Place(o.window, o.date)
  }

  /** The options list exactly the places of `ps` reserve would accept now, with what is left of each. */
  ghost predicate Lists(c: Cal, branch: Id, ps: iset<Place>, options: seq<SlotOption>)
  {
    && (forall o | o in options :: PlaceOf(o) in ps && PlaceError(c, branch, PlaceOf(o), None) == None
                                   && o == OptionFor(c, PlaceOf(o)))
    && (forall p | p in ps && PlaceError(c, branch, p, None) == None :: OptionFor(c, p) in options)
    && (forall m, n | 0 <= m < n < |options| :: options[m] != options[n])
  }

  /** The options list exactly the places reserve would accept now, each once, with what is left of it. */
  ghost predicate ListsAll(c: Cal, branch: Id, options: seq<SlotOption>)
  {
    && (forall o | o in options :: PlaceError(c, branch, PlaceOf(o), None) == None && o == OptionFor(c, PlaceOf(o)))
    && (forall p | PlaceError(c, branch, p, None) == None :: OptionFor(c, p) in options)
    && (forall m, n | 0 <= m < n < |options| :: options[m] != options[n])
  }

  predicate Sooner(a: SlotOption, b: SlotOption)
  {
    a.date < b.date || (a.date == b.date && a.start < b.start)
  }

  predicate InOrder(s: seq<SlotOption>)
  {
    forall m, n | 0 <= m < n < |s| :: !Sooner(s[n], s[m])
  }

  function InsertOption(o: SlotOption, s: seq<SlotOption>): seq<SlotOption>
  {
    if s == [] || Sooner(o, s[0]) then [o] + s else [s[0]] + InsertOption(o, s[1..])
  }

  lemma {:induction false} InsertOptionKeepsOrder(o: SlotOption, s: seq<SlotOption>)
    requires InOrder(s)
    ensures InOrder(InsertOption(o, s)) && multiset(InsertOption(o, s)) == multiset(s) + multiset{o}
  {
    if s != [] && !Sooner(o, s[0]) {
      InsertOptionKeepsOrder(o, s[1..]);
      assert s == [s[0]] + s[1..];
      var rest := InsertOption(o, s[1..]);
      forall n | 0 <= n < |rest| ensures !Sooner(rest[n], s[0]) {
        assert rest[n] in multiset(rest);
        if rest[n] != o {
          assert rest[n] in multiset(s[1..]);
          var m :| 0 <= m < |s[1..]| && s[1..][m] == rest[n];
          assert s[m + 1] == rest[n];
        }
      }
    }
  }

  /** Sorted by date, then by start time; equal keys keep their order. */
  method SortOptions(options: seq<SlotOption>) returns (sorted: seq<SlotOption>)
    ensures InOrder(sorted) && multiset(sorted) == multiset(options)
  {
    sorted := [];
    for n := 0 to |options|
      invariant InOrder(sorted) && multiset(sorted) == multiset(options[..n])
    {
      InsertOptionKeepsOrder(options[n], sorted);
      assert options[..n + 1] == options[..n] + [options[n]];
      sorted := InsertOption(options[n], sorted);
    }
    assert options[..|options|] == options;
  }

  lemma SameOptionsListed(c: Cal, branch: Id, ps: iset<Place>, options: seq<SlotOption>, sorted: seq<SlotOption>)
    requires Lists(c, branch, ps, options) && multiset(sorted) == multiset(options)
    ensures Lists(c, branch, ps, sorted)
  {
    forall o ensures o in sorted <==> o in options {
      assert o in multiset(sorted) <==> o in multiset(options);
    }
    forall m, n | 0 <= m < n < |sorted| ensures sorted[m] != sorted[n] {
      OnceEach(options, sorted[m]);
      if sorted[m] == sorted[n] {
        TwiceCounts(sorted, m, n);
      }
    }
  }

  lemma {:induction false} OnceEach(s: seq<SlotOption>, o: SlotOption)
    requires forall m, n | 0 <= m < n < |s| :: s[m] != s[n]
    ensures multiset(s)[o] <= 1
  {
    if s != [] {
      OnceEach(s[1..], o);
      assert s == [s[0]] + s[1..];
      if o == s[0] { assert o !in s[1..]; }
    }
  }

  lemma TwiceCounts(s: seq<SlotOption>, m: nat, n: nat)
    requires m < n < |s| && s[m] == s[n]
    ensures multiset(s)[s[m]] >= 2
  {
    assert s == s[..n] + s[n..];
    assert s[..n][m] == s[m] && s[n..][0] == s[m];
    assert s[m] in multiset(s[..n]) && s[m] in multiset(s[n..]);
  }

  /** The dates before `date`, and on `date` the windows handled already. */
  ghost function Handled(first: int, date: int, rest: set<Id>, all: set<Id>): iset<Place>
  {
    iset p: Place | first <= p.date && (p.date < date || (p.date == date && p.window in all - rest))
  }

  lemma ListOneMore(c: Cal, branch: Id, first: int, date: int, rest: set<Id>, all: set<Id>, options: seq<SlotOption>, w: Id)
    requires w in rest && rest <= all && first <= date && w in c.windows
    requires Lists(c, branch, Handled(first, date, rest, all), options)
    ensures var p := Place(w, date);
            Lists(c, branch, Handled(first, date, rest - {w}, all),
                  if PlaceError(c, branch, p, None) == None then options + [OptionFor(c, p)] else options)
  {
    hide PlaceError, Capacity, Booked;
    var p := Place(w, date);
    var more := if PlaceError(c, branch, p, None) == None then options + [OptionFor(c, p)] else options;
    forall q ensures q in Handled(first, date, rest - {w}, all) <==> q in Handled(first, date, rest, all) || q == p {
    }
    forall n | 0 <= n < |options| ensures PlaceOf(options[n]) != p {
      assert options[n] in options;
    }
    forall o | o in more ensures o in options || o == OptionFor(c, p) {
    }
    forall o | o in options ensures o in more {
    }
  }

  lemma NextDate(c: Cal, branch: Id, first: int, date: int, all: set<Id>, options: seq<SlotOption>)
    requires Lists(c, branch, Handled(first, date, {}, all), options) && first <= date
    requires forall w | w in c.windows && c.windows[w].branch == branch :: w in all
    ensures Lists(c, branch, Handled(first, date + 1, all, all), options)
  {
    forall p | PlaceError(c, branch, p, None) == None
      ensures p in Handled(first, date, {}, all) <==> p in Handled(first, date + 1, all, all)
    {
    }
  }

  lemma NothingListed(c: Cal, branch: Id, first: int, all: set<Id>)
    ensures Lists(c, branch, Handled(first, first, all, all), [])
  {
  }

  /** A place reserve accepts lies within the three days. */
  lemma AllDatesListed(c: Cal, branch: Id, all: set<Id>, options: seq<SlotOption>)
    requires Lists(c, branch, Handled(Today(c.now), Today(c.now) + DAYS_OFFERED, all, all), options)
    ensures ListsAll(c, branch, options)
  {
  }

  // ---- the calendar as the services change it

  class Calendar {
    var now: int
    var windows: map<Id, Window>
    var exceptions: map<Place, Exception>
    var reservations: map<Id, int>
    var slots: map<Id, SlotRow>
    var orders: map<Id, OrderRow>

    ghost function State(): Cal
      reads this
    {
      Cal(now, windows, exceptions, reservations, slots, orders)
    }

    constructor (now: int)
      ensures State() == Empty(now)
    {
      this.now := now;
      windows, exceptions, reservations, slots, orders := map[], map[], map[], map[], map[];
    }

    /** Live slots plus active orders at `p`, leaving out the order being moved. */
    method CountBooked(p: Place, moving: Option<Id>) returns (count: nat)
      ensures count == |LiveSlots(State(), p)| + |ActiveOrders(State(), p) - Mover(moving)|
    {
      var live := set s | s in slots && slots[s].place == p && slots[s].reservation in reservations
                          && reservations[slots[s].reservation] > now;
      var active := set o | o in orders && orders[o].active && orders[o].place == Some(p)
                            && (moving.None? || o != moving.value);
      assert live == LiveSlots(State(), p);
      assert active == ActiveOrders(State(), p) - Mover(moving);
      count := |live| + |active|;
    }

    /** The checks reserve and reschedule share, in their order. */
    method CheckPlace(branch: Id, p: Place, moving: Option<Id>) returns (e: Option<SlotError>)
      ensures e == PlaceError(State(), branch, p, moving)
      ensures e == None ==>
                && p.window in windows && windows[p.window].branch == branch && windows[p.window].dayOfWeek == (p.date + 4) % 7
                && 0 <= p.date - now / MILLISECONDS_PER_DAY <= 2 && !(p in exceptions && exceptions[p].closed)
    {
      if p.window !in windows || windows[p.window].branch != branch {
        return Some(WindowNotFound);
      }
      var diffDays := p.date - now / MILLISECONDS_PER_DAY;
      if diffDays < 0 || diffDays > 2 {
        return Some(InvalidSlotDate);
      }
      if DayOfWeek(p.date) != windows[p.window].dayOfWeek {
        return Some(InvalidSlotDate);
      }
      var capacity := windows[p.window].capacity;
      if p in exceptions {
        if exceptions[p].closed {
          return Some(SlotClosed);
        }
        if exceptions[p].override.Some? { capacity := exceptions[p].override.value; }
      }
      var booked := CountBooked(p, moving);
      e := if booked >= capacity then Some(CapacityExceeded) else None;
    }

    /** One delivery group of reserve, its window row locked: check, drop expired slots, take the place. */
    method ReserveDeliverySlot(rid: Id, r: SlotRequest) returns (e: Option<SlotError>)
      modifies this`slots
      ensures match e
              case Some(error) => ReserveSlot(old(State()), rid, r) == Err(error) && State() == old(State())
              case None => ReserveSlot(old(State()), rid, r) == Ok(State())
    {
      e := CheckPlace(r.branch, r.place, None);
      if e.None? {
        slots := slots - set s | s in slots && slots[s].place == r.place && slots[s].reservation in reservations
                                 && reservations[slots[s].reservation] < now;
        slots := slots[r.slot := SlotRow(rid, r.place)];
      }
    }

    /** All delivery groups of a reserve; the first refusal rolls the whole reserve back. */
    method Reserve(rid: Id, expiresAt: int, requests: seq<SlotRequest>) returns (ok: bool)
      modifies this`slots, this`reservations
      ensures State() == ReserveStep(old(State()), rid, expiresAt, requests)
      ensures ok <==> ReserveSlots(Begin(old(State()), rid, expiresAt), rid, requests).Ok?
    {
      var slots0, reservations0 := slots, reservations;
      reservations := reservations[rid := expiresAt];
      ghost var begun := State();
      assert requests[..0] == [];
      for n := 0 to |requests|
        invariant reservations == begun.reservations
        invariant ReserveSlots(begun, rid, requests[..n]) == Ok(State())
      {
        assert requests[..n + 1][..n] == requests[..n];
        var e := ReserveDeliverySlot(rid, requests[n]);
        if e.Some? {
          RefusedStaysRefused(begun, rid, requests, n + 1);
          slots, reservations := slots0, reservations0;
          return false;
        }
      }
      assert requests[..|requests|] == requests;
      ok := true;
    }

    /** Confirm's part in the calendar: every slot of the reservation becomes an order, then it is deleted. */
    method Confirm(rid: Id)
      modifies this`orders, this`slots, this`reservations
      ensures State() == ConfirmStep(old(State()), rid)
    {
      if rid !in reservations || reservations[rid] < now {
        return;
      }
      var read := map s | s in slots && slots[s].reservation == rid :: slots[s].place;
      assert read == PlacesOf(State(), rid) && read.Keys == SlotsOf(State(), rid);
      WriteOrders(read);
      slots := slots - read.Keys;
      reservations := reservations - {rid};
    }

    /** One order per slot read. */
    method WriteOrders(read: map<Id, Place>)
      modifies this`orders
      ensures orders == old(orders) + map s | s in read :: OrderRow(Some(read[s]), true)
    {
      var rest := read.Keys;
      while rest != {}
        invariant rest <= read.Keys
        invariant orders == old(orders) + map s | s in read && s !in rest :: OrderRow(Some(read[s]), true)
        decreases rest
      {
        var s :| s in rest;
        orders := orders[s := OrderRow(Some(read[s]), true)];
        rest := rest - {s};
      }
    }

    method Reschedule(order: Id, branch: Id, p: Place) returns (e: Option<SlotError>)
      requires order in orders
      modifies this`orders
      ensures match e
              case Some(error) => RescheduleStep(old(State()), order, branch, p) == Err(error) && State() == old(State())
              case None => RescheduleStep(old(State()), order, branch, p) == Ok(State())
    {
      e := CheckPlace(branch, p, Some(order));
      if e.None? { orders := orders[order := orders[order].(place := Some(p))]; }
    }

    method UpdateWindow(w: Id, row: Window) returns (ok: bool)
      requires w in windows
      modifies this`windows
      ensures State() == UpdateWindowStep(old(State()), w, row)
      ensures ok <==> MayChangeWindow(old(State()), w, row)
    {
      ok := false;
      if row.end <= row.start {
        return;
      }
      if exists o | o in orders :: orders[o].active && orders[o].place.Some? && orders[o].place.value.window == w {
        return;
      }
      if exists s | s in slots :: slots[s].place.window == w && slots[s].reservation in reservations
                                  && reservations[slots[s].reservation] > now {
        return;
      }
      if exists v | v in windows && v != w :: Overlap(windows[v], row) {
        return;
      }
      windows := windows[w := row];
      ok := true;
    }

    /**
     * Every slot the picker shows for a branch: dates outermost, windows within. What it lists is
     * exactly what reserve would accept at this instant.
     */
    method ComputeAvailableSlots(branch: Id) returns (options: seq<SlotOption>)
      ensures InOrder(options) && ListsAll(State(), branch, options)
    {
      hide Lists, ListsAll, Handled, InOrder;
      ghost var c := State();
      var all := set w | w in windows && windows[w].branch == branch;
      var today := now / MILLISECONDS_PER_DAY;
      var found: seq<SlotOption> := [];
      NothingListed(c, branch, today, all);
      for i := 0 to DAYS_OFFERED
        invariant Lists(c, branch, Handled(today, today + i, all, all), found)
      {
        found := OptionsOn(branch, today, today + i, all, found);
        NextDate(c, branch, today, today + i, all, found);
      }
      options := SortOptions(found);
      SameOptionsListed(c, branch, Handled(today, today + DAYS_OFFERED, all, all), found, options);
      AllDatesListed(c, branch, all, options);
    }

    /** The windows of one date. */
    method OptionsOn(branch: Id, ghost first: int, date: int, all: set<Id>, before: seq<SlotOption>)
      returns (options: seq<SlotOption>)
      requires all == set w | w in windows && windows[w].branch == branch
      requires first <= date && first == Today(now) && date - first <= 2
      requires Lists(State(), branch, Handled(first, date, all, all), before)
      ensures Lists(State(), branch, Handled(first, date, {}, all), options)
    {
      hide Lists, Handled;
      ghost var c := State();
      options := before;
      var rest := all;
      while rest != {}
        invariant rest <= all
        invariant Lists(c, branch, Handled(first, date, rest, all), options)
        decreases rest
      {
        var w :| w in rest;
        var one := OptionAt(branch, w, date);
        ListOneMore(c, branch, first, date, rest, all, options, w);
        if one.Some? { options := options + [one.value]; }
        rest := rest - {w};
      }
    }

    method OptionAt(branch: Id, w: Id, date: int) returns (o: Option<SlotOption>)
      requires w in windows && windows[w].branch == branch && 0 <= date - Today(now) <= 2
      ensures o == if PlaceError(State(), branch, Place(w, date), None) == None
                   then Some(OptionFor(State(), Place(w, date))) else None
    {
      var p, window := Place(w, date), windows[w];
      if window.dayOfWeek != DayOfWeek(date) {
        return None;
      }
      var capacity := window.capacity;
      if p in exceptions {
        if exceptions[p].closed {
          return None;
        }
        if exceptions[p].override.Some? { capacity := exceptions[p].override.value; }
      }
      var booked := CountBooked(p, None);
      assert ActiveOrders(State(), p) - Mover(None) == ActiveOrders(State(), p);
      var remaining := (capacity as int) - (booked as int);
      o := if remaining > 0 then Some(SlotOption(w, date, DayOfWeek(date), window.start, window.end, remaining)) else None;
    }
  }

  lemma {:induction false} RefusedStaysRefused(c: Cal, rid: Id, requests: seq<SlotRequest>, n: nat)
    requires n <= |requests| && ReserveSlots(c, rid, requests[..n]).Err?
    ensures ReserveSlots(c, rid, requests).Err?
    decreases |requests| - n
  {
    if n < |requests| {
      assert requests[..n + 1][..n] == requests[..n];
      RefusedStaysRefused(c, rid, requests, n + 1);
    } else {
      assert requests[..n] == requests;
    }
  }
}
