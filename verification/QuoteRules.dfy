/**
 * The rules of quote and reserve on the rows: which branches a quote shows and with how much, and when exactly
 * reserve takes a group.
 */
module QuoteRules {
  import opened Common
  import opened Holds
  import opened Ledger
  import opened Grouping
  import opened Quote

  /** A shop that takes orders: approved, not archived, and in none of its closures. */
  predicate TakesOrders(s: Shop, now: int)
  {
    s.approved && !s.archived && forall c | c in s.closures :: now < c.startsAt || c.endsAt <= now
  }

  lemma OpenMeans(s: Shop, now: int)
    ensures Open(s, now) <==> TakesOrders(s, now)
  {
    if ClosedAt(s, now) {
      var n :| 0 <= n < |s.closures| && s.closures[n].startsAt <= now < s.closures[n].endsAt;
      assert s.closures[n] in s.closures;
    }
  }

  /**
   * For a variant asked about, a quote shows branch `b` exactly when it takes orders and has a stock
   * row, with the stock less the units of holds that end later than now, and with its age.
   */
  lemma QuoteShows(db: Db, shops: Shops, variants: set<Id>, av: Availability, running: HoldTable, v: Id, x: Branch)
    requires ShowsAvailability(db, shops, variants, av)
    requires running == map i | i in db.items && i.reservation in db.reservations
                                && db.now < db.reservations[i.reservation].expiresAt :: db.items[i]
    ensures (v in av && x in av[v]) <==>
            && v in variants && StockKey(x.id, v) in db.stock && x.id in shops && TakesOrders(shops[x.id], db.now)
            && x.available == db.stock[StockKey(x.id, v)].quantity - Held(running, StockKey(x.id, v))
            && x.createdAt == shops[x.id].createdAt
  {
    assert running == LiveStrict(db);
    assert x in Offers(av, v) <==> v in variants && IsOffer(db, shops, v, x);
    if x.id in shops { OpenMeans(shops[x.id], db.now); }
  }

  // ---- one group

  /** What the cart asks for the items, before any delivery fee. */
  function CartAmount(cart: Cart, items: seq<Id>): nat
    requires forall id | id in items :: id in cart
  {
    if items == [] then 0
    else
      var last := items[|items| - 1];
      CartAmount(cart, items[..|items| - 1]) + cart[last].price * cart[last].quantity
  }

  lemma {:induction false} SubtotalIsCartAmount(cart: Cart, req: Request, items: seq<Id>)
    requires forall id | id in items :: id in cart
    ensures Subtotal(seq(|items|, n requires 0 <= n < |items| => LineOf(cart, req, items[n]))) == CartAmount(cart, items)
  {
    var lines := seq(|items|, n requires 0 <= n < |items| => LineOf(cart, req, items[n]));
    if items != [] {
      var last := |items| - 1;
      var before := items[..last];
      SubtotalIsCartAmount(cart, req, before);
      assert lines[..last] == seq(|before|, n requires 0 <= n < |before| => LineOf(cart, req, before[n]));
    }
  }

  lemma GroupAmount(cart: Cart, req: Request)
    requires KnownItems(cart, req.items)
    ensures forall id | id in req.items :: id in cart
    ensures Subtotal(Quote.LinesOf(cart, req)) == CartAmount(cart, req.items)
  {
    SubtotalIsCartAmount(cart, req, req.items);
    var items := req.items;
    assert Quote.LinesOf(cart, req) == seq(|items|, n requires 0 <= n < |items| => LineOf(cart, req, items[n]));
  }

  lemma VendorsMean(cart: Cart, items: seq<Id>, vendor: Id)
    ensures SameVendor(cart, items, vendor) <==> forall id | id in items :: id in cart && cart[id].vendor == vendor
  {
  }

  /**
   * A group is taken exactly when its branch takes orders, all its items are the branch's vendor's, and
   * a delivery comes with address, window and date, or a pickup is from a physical branch and reaches
   * its minimum.
   */
  lemma GroupIsTakenIff(cart: Cart, shops: Shops, now: int, req: Request)
    requires KnownItems(cart, req.items)
    ensures GroupRefusal(cart, shops, now, req) == None <==>
            && req.branch in shops && TakesOrders(shops[req.branch], now)
            && (forall id | id in req.items :: id in cart && cart[id].vendor == shops[req.branch].vendor)
            && (match req.fulfilment
                case Delivery(complete) => complete
                case Pickup =>
                  && shops[req.branch].physical
                  && (shops[req.branch].minimum.Some? ==> shops[req.branch].minimum.value <= CartAmount(cart, req.items)))
  {
    GroupAmount(cart, req);
    if req.branch in shops {
      OpenMeans(shops[req.branch], now);
      VendorsMean(cart, req.items, shops[req.branch].vendor);
    }
  }

  /** Otherwise the first of these reasons is given. */
  lemma WhyAGroupIsRefused(cart: Cart, shops: Shops, now: int, req: Request)
    requires KnownItems(cart, req.items) && GroupRefusal(cart, shops, now, req).Some?
    ensures var e := GroupRefusal(cart, shops, now, req).value;
            if req.branch !in shops then e == BranchNotFound
            else if !TakesOrders(shops[req.branch], now) then e == BranchNotAvailable
            else if exists id | id in req.items :: id !in cart || cart[id].vendor != shops[req.branch].vendor
            then e == VendorMismatch
            else if req.fulfilment.Delivery? then e == DeliveryRequiresSlot
            else if !shops[req.branch].physical then e == PickupRequiresPhysical
            else e == BelowMinimum
  {
    if req.branch in shops {
      OpenMeans(shops[req.branch], now);
      VendorsMean(cart, req.items, shops[req.branch].vendor);
    }
  }

  // ---- all groups

  /** The refusal of several groups is that of the first refused one. */
  lemma {:induction false} FirstRefusedGroup(cart: Cart, shops: Shops, now: int, reqs: seq<Request>)
    requires forall n | 0 <= n < |reqs| :: KnownItems(cart, reqs[n].items)
    ensures FirstRefusal(cart, shops, now, reqs) == None <==>
            forall n | 0 <= n < |reqs| :: GroupRefusal(cart, shops, now, reqs[n]) == None
    ensures FirstRefusal(cart, shops, now, reqs).Some? ==>
              exists n | 0 <= n < |reqs| ::
                && GroupRefusal(cart, shops, now, reqs[n]) == FirstRefusal(cart, shops, now, reqs)
                && forall m | 0 <= m < n :: GroupRefusal(cart, shops, now, reqs[m]) == None
  {
    hide GroupRefusal;
    if reqs != [] {
      var last := |reqs| - 1;
      var before := reqs[..last];
      assert forall n | 0 <= n < last :: before[n] == reqs[n];
      FirstRefusedGroup(cart, shops, now, before);
      if FirstRefusal(cart, shops, now, before).Some? {
        var n :| 0 <= n < last && GroupRefusal(cart, shops, now, before[n]) == FirstRefusal(cart, shops, now, before)
                 && forall m | 0 <= m < n :: GroupRefusal(cart, shops, now, before[m]) == None;
        assert GroupRefusal(cart, shops, now, reqs[n]) == FirstRefusal(cart, shops, now, reqs);
      } else {
        assert GroupRefusal(cart, shops, now, reqs[last]) == FirstRefusal(cart, shops, now, reqs);
        assert forall m | 0 <= m < last :: GroupRefusal(cart, shops, now, reqs[m]) == None by {
          assert forall m | 0 <= m < last :: GroupRefusal(cart, shops, now, before[m]) == None;
        }
      }
    }
  }

  /**
   * One line for each item asked for, in order, at its group's branch and payment and with the cart's
   * variant, quantity and price.
   */
  lemma {:induction false} LinesFollowItems(cart: Cart, reqs: seq<Request>, k: nat)
    requires forall n | 0 <= n < |reqs| :: KnownItems(cart, reqs[n].items)
    requires k < |AllItems(reqs)|
    ensures |AllLines(cart, reqs)| == |AllItems(reqs)|
    ensures var id, line := AllItems(reqs)[k], AllLines(cart, reqs)[k];
            && id in cart
            && line.key.variant == cart[id].variant && line.quantity == cart[id].quantity && line.unitPrice == cart[id].price
            && exists n | 0 <= n < |reqs| ::
                 id in reqs[n].items && line.key.branch == reqs[n].branch && line.payment == reqs[n].payment
  {
    AsManyLines(cart, reqs);
    var last := |reqs| - 1;
    var before := reqs[..last];
    assert forall n | 0 <= n < last :: before[n] == reqs[n];
    AsManyLines(cart, before);
    if k < |AllItems(before)| {
      LinesFollowItems(cart, before, k);
      var id, line := AllItems(before)[k], AllLines(cart, before)[k];
      var n :| 0 <= n < last && id in before[n].items && line.key.branch == before[n].branch && line.payment == before[n].payment;
      assert id in reqs[n].items;
    } else {
      var j := k - |AllItems(before)|;
      assert AllItems(reqs)[k] == reqs[last].items[j] && AllLines(cart, reqs)[k] == Quote.LinesOf(cart, reqs[last])[j];
    }
  }

  lemma {:induction false} AsManyLines(cart: Cart, reqs: seq<Request>)
    requires forall n | 0 <= n < |reqs| :: KnownItems(cart, reqs[n].items)
    ensures |AllLines(cart, reqs)| == |AllItems(reqs)|
  {
    if reqs != [] { AsManyLines(cart, reqs[..|reqs| - 1]); }
  }
}
