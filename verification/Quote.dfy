/**
 * From quote to reserve. Quote reads live availability without a lock and forms groups; reserve
 * resolves the customer's groups and checks stock under lock. What quote proposes, reserve takes.
 */
module Quote {
  import opened Common
  import opened Holds
  import opened Ledger
  import CheckoutService
  import opened Grouping

  datatype Closure = Closure(startsAt: int, endsAt: int)

  datatype Shop = Shop(vendor: Id, approved: bool, archived: bool, closures: seq<Closure>, physical: bool,
                       createdAt: int, minimum: Option<nat>)

  type Shops = map<Id, Shop>

  predicate ClosedAt(s: Shop, now: int)
  {
    exists n :: 0 <= n < |s.closures| && s.closures[n].startsAt <= now < s.closures[n].endsAt
  }

  predicate Open(s: Shop, now: int)
  {
    s.approved && !s.archived && !ClosedAt(s, now)
  }

  // ---- availability as quote reads it

  /** Quote's comparison is `expiresAt > now`, one instant stricter than the sweep's. */
  function LiveStrict(db: Db): HoldTable
  {
    map i | i in db.items && i.reservation in db.reservations && db.reservations[i.reservation].expiresAt > db.now
          :: db.items[i]
  }

  /** The rows whose hold ends at this very instant: neither expired nor live. */
  function EndingNow(db: Db): HoldTable
  {
    map i | i in db.items && i.reservation in db.reservations && db.reservations[i.reservation].expiresAt == db.now
          :: db.items[i]
  }

  /** A branch's entry for a variant. */
  ghost predicate IsOffer(db: Db, shops: Shops, v: Id, x: Branch)
  {
    var k := StockKey(x.id, v);
    && k in db.stock && x.id in shops && Open(shops[x.id], db.now)
    && x.available == db.stock[k].quantity - Held(LiveStrict(db), k) && x.createdAt == shops[x.id].createdAt
  }

  function Births(shops: Shops): map<Id, int>
  {
    map b | b in shops :: shops[b].createdAt
  }

  /** For the variants asked about, exactly the open branches with a stock row, each once. */
  ghost predicate ShowsAvailability(db: Db, shops: Shops, variants: set<Id>, av: Availability)
  {
    && Consistent(av, Births(shops))
    && forall v, x :: x in Offers(av, v) <==> v in variants && IsOffer(db, shops, v, x)
  }

  /** Add up live holds key by key. */
  method LiveReservedByKey(store: CheckoutService.Store, keys: set<StockKey>) returns (held: map<StockKey, nat>)
    requires forall i | i in store.items :: i.reservation in store.reservations
    ensures forall k | k in keys :: (if k in held then held[k] else 0) == Held(LiveStrict(store.State()), k)
  {
    held := map[];
    ghost var live := LiveStrict(store.State());
    var rest := map i | i in store.items && store.items[i].key in keys
                        && store.reservations[i.reservation].expiresAt > store.now :: store.items[i];
    forall k | k in keys ensures Held(rest, k) == Held(live, k) {
      assert OnKey(rest, k) == OnKey(live, k);
      HeldDependsOnKeyOnly(rest, live, k);
    }
    while rest != map[]
      invariant forall k | k in keys :: (if k in held then held[k] else 0) + Held(rest, k) == Held(live, k)
      decreases |rest|
    {
      var i :| i in rest;
      forall k ensures Held(rest, k) == QuantityOn(rest[i], k) + Held(rest - {i}, k) {
        HeldRemove(rest, i, k);
      }
      var key := rest[i].key;
      held := held[key := (if key in held then held[key] else 0) + rest[i].quantity];
      rest := rest - {i};
    }
  }

  /** Entries only for stock rows handled so far. */
  ghost predicate ShowsRows(db: Db, shops: Shops, rows: set<StockKey>, av: Availability)
  {
    && Consistent(av, Births(shops))
    && forall v, x :: x in Offers(av, v) <==> StockKey(x.id, v) in rows && IsOffer(db, shops, v, x)
  }

  lemma ShowOneMore(db: Db, shops: Shops, rows: set<StockKey>, av: Availability, k: StockKey, x: Branch)
    requires ShowsRows(db, shops, rows, av) && k !in rows && x.id == k.branch && IsOffer(db, shops, k.variant, x)
    ensures ShowsRows(db, shops, rows + {k}, av[k.variant := Offers(av, k.variant) + [x]])
  {
    var more := av[k.variant := Offers(av, k.variant) + [x]];
    forall v, y ensures y in Offers(more, v) <==> y in Offers(av, v) || (v == k.variant && y == x) {
    }
    var had := Offers(av, k.variant);
    forall n | 0 <= n < |had| ensures had[n].id != x.id && had[n].id in shops && had[n].createdAt == shops[had[n].id].createdAt {
      assert had[n] in had;
      assert IsOffer(db, shops, k.variant, had[n]);
    }
    ConsistentOneMore(av, Births(shops), k.variant, x);
  }

  lemma ConsistentOneMore(av: Availability, born: map<Id, int>, v: Id, x: Branch)
    requires Consistent(av, born) && x.id in born && x.createdAt == born[x.id]
    requires forall n | 0 <= n < |Offers(av, v)| :: Offers(av, v)[n].id != x.id
    ensures Consistent(av[v := Offers(av, v) + [x]], born)
  {
  }

  lemma SkipRow(db: Db, shops: Shops, rows: set<StockKey>, av: Availability, k: StockKey)
    requires ShowsRows(db, shops, rows, av) && (k.branch !in shops || !Open(shops[k.branch], db.now))
    ensures ShowsRows(db, shops, rows + {k}, av)
  {
  }

  lemma AllRowsShown(db: Db, shops: Shops, variants: set<Id>, rows: set<StockKey>, av: Availability)
    requires ShowsRows(db, shops, rows, av)
    requires forall k | k in db.stock :: k in rows <==> k.variant in variants
    ensures ShowsAvailability(db, shops, variants, av)
  {
  }

  method BuildAvailabilityMap(store: CheckoutService.Store, shops: Shops, variants: set<Id>) returns (av: Availability)
    requires forall i | i in store.items :: i.reservation in store.reservations
    ensures ShowsAvailability(store.State(), shops, variants, av)
  {
    hide ShowsAvailability, ShowsRows;
    var rows := set k | k in store.stock && k.variant in variants;
    var held := LiveReservedByKey(store, rows);
    av := map[];
    ghost var db := store.State();
    NoRowsShown(db, shops);
    ghost var done: set<StockKey> := {};
    var rest := rows;
    while rest != {}
      invariant done !! rest && done + rest == rows && ShowsRows(db, shops, done, av)
      decreases rest
    {
      var k :| k in rest;
      if k.branch in shops && Open(shops[k.branch], store.now) {
        var taken := if k in held then held[k] else 0;
        var x := Branch(k.branch, store.stock[k].quantity - taken, shops[k.branch].createdAt);
        assert k == StockKey(k.branch, k.variant);
        ShowOneMore(db, shops, done, av, k, x);
        av := av[k.variant := Offers(av, k.variant) + [x]];
      } else {
        SkipRow(db, shops, done, av, k);
      }
      rest, done := rest - {k}, done + {k};
    }
    assert done == rows;
    AllRowsShown(db, shops, variants, rows, av);
  }

  lemma NoRowsShown(db: Db, shops: Shops)
    ensures ShowsRows(db, shops, {}, map[])
  {
  }

  /**
   * What quote shows is the stock free for a new hold, plus exchange holds, plus holds ending
   * at this instant: the two places where quote may promise what reserve refuses.
   */
  lemma QuoteShowsAvailable(db: Db, k: StockKey)
    requires forall i | i in db.items :: i.reservation in db.reservations
    requires k in db.stock
    ensures db.stock[k].quantity - Held(LiveStrict(db), k)
            == Available(db, k) + ExchangeHeld(db, k) + Held(EndingNow(db), k)
  {
    HeldUnion(LiveStrict(db), EndingNow(db), k);
    assert LiveStrict(db) + EndingNow(db) == Live(db);
  }

  /** The most of one variant any single branch can supply; never below zero. */
  method MaxSingleBranchAvailable(offers: seq<Branch>) returns (most: nat)
    ensures forall n | 0 <= n < |offers| :: offers[n].available <= most
    ensures most == 0 || exists n :: 0 <= n < |offers| && offers[n].available == most
  {
    most := 0;
    for n := 0 to |offers|
      invariant forall m | 0 <= m < n :: offers[m].available <= most
      invariant most == 0 || exists m :: 0 <= m < n && offers[m].available == most
    {
      if offers[n].available > most { most := offers[n].available; }
    }
  }

  /** The cart's cap is tight: a line can be placed whole at some branch exactly when it stays within the cap. */
  lemma CapIsWhatOneBranchCovers(av: Availability, line: Line, most: nat)
    requires line.quantity > 0
    requires forall n | 0 <= n < |Offers(av, line.variant)| :: Offers(av, line.variant)[n].available <= most
    requires most == 0 || exists n :: 0 <= n < |Offers(av, line.variant)| && Offers(av, line.variant)[n].available == most
    ensures (exists b :: Covers(av, b, line)) <==> line.quantity <= most
  {
    if most > 0 {
      var n :| 0 <= n < |Offers(av, line.variant)| && Offers(av, line.variant)[n].available == most;
      assert line.quantity <= most ==> Covers(av, Offers(av, line.variant)[n].id, line);
    }
  }

  // ---- reserve's own reading of the customer's groups

  datatype CartItem = CartItem(vendor: Id, variant: Id, quantity: nat, price: nat)

  type Cart = map<Id, CartItem>

  /** `complete` says that address, window and date were all given. */
  datatype Fulfilment = Pickup | Delivery(complete: bool)

  datatype Request = Request(branch: Id, items: seq<Id>, fulfilment: Fulfilment, payment: PaymentMethod)

  datatype ResolveError =
    | DuplicateBranch | DuplicateCartItem | CartItemNotFound | BranchNotFound | BranchNotAvailable
    | VendorMismatch | PickupRequiresPhysical | BelowMinimum | DeliveryRequiresSlot

  function Branches(reqs: seq<Request>): seq<Id>
  {
    seq(|reqs|, n requires 0 <= n < |reqs| => reqs[n].branch)
  }

  function AllItems(reqs: seq<Request>): seq<Id>
  {
    if reqs == [] then [] else AllItems(reqs[..|reqs| - 1]) + reqs[|reqs| - 1].items
  }

  predicate KnownItems(cart: Cart, items: seq<Id>)
  {
    forall n | 0 <= n < |items| :: items[n] in cart
  }

  function LineOf(cart: Cart, req: Request, id: Id): HoldItem
    requires id in cart
  {
    HoldItem(StockKey(req.branch, cart[id].variant), cart[id].quantity, cart[id].price, req.payment)
  }

  function LinesOf(cart: Cart, req: Request): seq<HoldItem>
    requires KnownItems(cart, req.items)
  {
    seq(|req.items|, n requires 0 <= n < |req.items| => LineOf(cart, req, req.items[n]))
  }

  function AllLines(cart: Cart, reqs: seq<Request>): seq<HoldItem>
    requires forall n | 0 <= n < |reqs| :: KnownItems(cart, reqs[n].items)
  {
    if reqs == [] then [] else AllLines(cart, reqs[..|reqs| - 1]) + LinesOf(cart, reqs[|reqs| - 1])
  }

  /** Items only: no delivery fee. */
  function Subtotal(lines: seq<HoldItem>): nat
  {
    if lines == [] then 0
    else Subtotal(lines[..|lines| - 1]) + lines[|lines| - 1].unitPrice * lines[|lines| - 1].quantity
  }

  predicate SameVendor(cart: Cart, items: seq<Id>, vendor: Id)
  {
    forall n | 0 <= n < |items| :: items[n] in cart && cart[items[n]].vendor == vendor
  }

  /** Why one group is refused, if it is; the checks in the order they are made. */
  function GroupRefusal(cart: Cart, shops: Shops, now: int, req: Request): Option<ResolveError>
    requires KnownItems(cart, req.items)
  {
    if req.branch !in shops then Some(BranchNotFound)
    else
      var shop := shops[req.branch];
      if !Open(shop, now) then Some(BranchNotAvailable)
      else if !SameVendor(cart, req.items, shop.vendor) then Some(VendorMismatch)
      else if req.fulfilment == Delivery(false) then Some(DeliveryRequiresSlot)
      else if req.fulfilment.Delivery? then None
      else if !shop.physical then Some(PickupRequiresPhysical)
      else if shop.minimum.Some? && Subtotal(LinesOf(cart, req)) < shop.minimum.value then Some(BelowMinimum)
      else None
  }

  /** The first refusal among the groups. */
  function FirstRefusal(cart: Cart, shops: Shops, now: int, reqs: seq<Request>): Option<ResolveError>
    requires forall n | 0 <= n < |reqs| :: KnownItems(cart, reqs[n].items)
  {
    if reqs == [] then None
    else
      var before := FirstRefusal(cart, shops, now, reqs[..|reqs| - 1]);
      if before.Some? then before else GroupRefusal(cart, shops, now, reqs[|reqs| - 1])
  }

  lemma {:induction false} KnownEverywhere(cart: Cart, reqs: seq<Request>)
    ensures KnownItems(cart, AllItems(reqs)) <==> forall n | 0 <= n < |reqs| :: KnownItems(cart, reqs[n].items)
  {
    if reqs != [] {
      var last := |reqs| - 1;
      KnownEverywhere(cart, reqs[..last]);
      var all, first, tail := AllItems(reqs), AllItems(reqs[..last]), reqs[last].items;
      assert forall n | 0 <= n < |first| :: all[n] == first[n];
      assert forall n | 0 <= n < |tail| :: all[|first| + n] == tail[n];
      assert forall n | 0 <= n < last :: reqs[..last][n] == reqs[n];
    }
  }

  lemma {:induction false} RefusalIsFirst(cart: Cart, shops: Shops, now: int, reqs: seq<Request>, n: nat)
    requires forall m | 0 <= m < |reqs| :: KnownItems(cart, reqs[m].items)
    requires n <= |reqs| && FirstRefusal(cart, shops, now, reqs[..n]).Some?
    ensures FirstRefusal(cart, shops, now, reqs) == FirstRefusal(cart, shops, now, reqs[..n])
  {
    if n == |reqs| {
      assert reqs[..n] == reqs;
    } else {
      var last := |reqs| - 1;
      assert reqs[..last][..n] == reqs[..n];
      RefusalIsFirst(cart, shops, now, reqs[..last], n);
    }
  }

  /** Does a list name anything twice? The set is smaller than the list exactly then. */
  method HasRepeat(s: seq<Id>) returns (repeated: bool)
    ensures repeated <==> !NoRepeats(s)
  {
    var seen: set<Id> := {};
    repeated := false;
    for n := 0 to |s|
      invariant seen == set m | 0 <= m < n :: s[m]
      invariant repeated <==> !NoRepeats(s[..n])
    {
      assert s[..n + 1] == s[..n] + [s[n]];
      assert s[n] in seen <==> exists m :: 0 <= m < n && s[..n][m] == s[n];
      if s[n] in seen { repeated := true; }
      seen := seen + {s[n]};
    }
    assert s[..|s|] == s;
  }

  method ResolveItems(cart: Cart, req: Request, vendor: Id) returns (lines: Option<seq<HoldItem>>)
    requires KnownItems(cart, req.items)
    ensures lines == if SameVendor(cart, req.items, vendor) then Some(LinesOf(cart, req)) else None
  {
    var done: seq<HoldItem> := [];
    for n := 0 to |req.items|
      invariant |done| == n && forall m | 0 <= m < n :: done[m] == LineOf(cart, req, req.items[m])
      invariant forall m | 0 <= m < n :: cart[req.items[m]].vendor == vendor
    {
      if cart[req.items[n]].vendor != vendor {
        return None;
      }
      done := done + [LineOf(cart, req, req.items[n])];
    }
    assert done == LinesOf(cart, req);
    lines := Some(done);
  }

  method SumLineAmounts(lines: seq<HoldItem>) returns (total: nat)
    ensures total == Subtotal(lines)
  {
    total := 0;
    for n := 0 to |lines|
      invariant total == Subtotal(lines[..n])
    {
      assert lines[..n + 1][..n] == lines[..n];
      total := total + lines[n].unitPrice * lines[n].quantity;
    }
    assert lines[..|lines|] == lines;
  }

  method ResolveGroup(cart: Cart, shops: Shops, now: int, req: Request) returns (r: Result<seq<HoldItem>, ResolveError>)
    requires KnownItems(cart, req.items)
    ensures r == match GroupRefusal(cart, shops, now, req)
                 case Some(e) => Err(e)
                 case None => Ok(LinesOf(cart, req))
  {
    if req.branch !in shops {
      return Err(BranchNotFound);
    }
    var shop := shops[req.branch];
    if !Open(shop, now) {
      return Err(BranchNotAvailable);
    }
    var lines := ResolveItems(cart, req, shop.vendor);
    if lines.None? {
      return Err(VendorMismatch);
    }
    var subtotal := SumLineAmounts(lines.value);
    if req.fulfilment.Pickup? {
      if !shop.physical {
        return Err(PickupRequiresPhysical);
      }
      if shop.minimum.Some? && subtotal < shop.minimum.value {
        return Err(BelowMinimum);
      }
    } else if !req.fulfilment.complete {
      return Err(DeliveryRequiresSlot);
    }
    r := Ok(lines.value);
  }

  /** Reserve up to its lock phase: duplicates, the cart, then every group in turn. */
  method ResolveGroups(cart: Cart, shops: Shops, now: int, reqs: seq<Request>)
    returns (r: Result<seq<HoldItem>, ResolveError>)
    ensures r.Err? && r.error == DuplicateBranch <==> !NoRepeats(Branches(reqs))
    ensures r.Err? && r.error == DuplicateCartItem <==> NoRepeats(Branches(reqs)) && !NoRepeats(AllItems(reqs))
    ensures r.Err? && r.error == CartItemNotFound
            <==> NoRepeats(Branches(reqs)) && NoRepeats(AllItems(reqs)) && !KnownItems(cart, AllItems(reqs))
    ensures NoRepeats(Branches(reqs)) && NoRepeats(AllItems(reqs)) && KnownItems(cart, AllItems(reqs)) ==>
              (forall n | 0 <= n < |reqs| :: KnownItems(cart, reqs[n].items))
              && r == match FirstRefusal(cart, shops, now, reqs)
                      case Some(e) => Err(e)
                      case None => Ok(AllLines(cart, reqs))
  {
    var twice := HasRepeat(Branches(reqs));
    if twice {
      return Err(DuplicateBranch);
    }
    twice := HasRepeat(AllItems(reqs));
    if twice {
      return Err(DuplicateCartItem);
    }
    if !KnownItems(cart, AllItems(reqs)) {
      return Err(CartItemNotFound);
    }
    KnownEverywhere(cart, reqs);
    FirstRefusalIsGroupRefusal(cart, shops, now, reqs);
    var lines: seq<HoldItem> := [];
    for n := 0 to |reqs|
      invariant FirstRefusal(cart, shops, now, reqs[..n]).None? && lines == AllLines(cart, reqs[..n])
    {
      assert reqs[..n + 1][..n] == reqs[..n];
      var one := ResolveGroup(cart, shops, now, reqs[n]);
      if one.Err? {
        RefusalIsFirst(cart, shops, now, reqs, n + 1);
        return Err(one.error);
      }
      lines := lines + one.value;
    }
    assert reqs[..|reqs|] == reqs;
    r := Ok(lines);
  }

  /** A refusal of the whole is the refusal of one of its groups. */
  lemma {:induction false} FirstRefusalIsGroupRefusal(cart: Cart, shops: Shops, now: int, reqs: seq<Request>)
    requires forall n | 0 <= n < |reqs| :: KnownItems(cart, reqs[n].items)
    ensures FirstRefusal(cart, shops, now, reqs).Some? ==>
              exists n :: 0 <= n < |reqs| && GroupRefusal(cart, shops, now, reqs[n]) == FirstRefusal(cart, shops, now, reqs)
  {
    if reqs != [] {
      var last := |reqs| - 1;
      FirstRefusalIsGroupRefusal(cart, shops, now, reqs[..last]);
      if FirstRefusal(cart, shops, now, reqs[..last]).Some? {
        var n :| 0 <= n < last && GroupRefusal(cart, shops, now, reqs[..last][n]) == FirstRefusal(cart, shops, now, reqs);
        assert reqs[..last][n] == reqs[n];
      }
    }
  }

  // ---- what the groups of a quote have in common

  /** A group that can be served: its first branch covers each of its lines, all of one vendor. */
  ghost predicate WellServed(items: seq<Line>, av: Availability, g: Group)
  {
    && g.branches != [] && g.items != [] && NoRepeats(g.items)
    && forall id | id in g.items :: exists j :: 0 <= j < |items| && ServedLine(items[j], av, g, id)
  }

  ghost predicate ServedLine(line: Line, av: Availability, g: Group, id: Id)
    requires g.branches != []
  {
    line.id == id && line.vendor == g.vendor && Covers(av, g.branches[0], line)
  }

  predicate Disjoint(a: Group, b: Group)
  {
    (a.branches != [] && b.branches != [] ==> a.branches[0] != b.branches[0])
    && forall id | id in a.items :: id !in b.items
  }

  ghost predicate AllServed(items: seq<Line>, av: Availability, groups: seq<Group>)
  {
    && (forall n | 0 <= n < |groups| :: WellServed(items, av, groups[n]))
    && forall m, n | 0 <= m < n < |groups| :: Disjoint(groups[m], groups[n])
  }

  /** A branch stocks only its own vendor's variants. */
  ghost predicate BranchesAreOwn(items: seq<Line>, av: Availability, owner: map<Id, Id>)
  {
    forall j, b | 0 <= j < |items| && Covers(av, b, items[j]) :: b in owner && owner[b] == items[j].vendor
  }

  lemma PartIsServed(items: seq<Line>, av: Availability, born: map<Id, int>, vendor: Id, groups: seq<Group>,
                     unavailable: seq<Id>)
    requires Consistent(av, born) && DistinctIds(items)
    requires Grouped(vendor, OfVendor(items, vendor), av, born, groups, unavailable)
    ensures AllServed(items, av, groups) && forall n | 0 <= n < |groups| :: groups[n].vendor == vendor
  {
    var own := OfVendor(items, vendor);
    OfVendorDistinct(items, vendor);
    GroupedIsPartition(vendor, own, av, born, groups, unavailable);
    forall n | 0 <= n < |groups| ensures WellServed(items, av, groups[n]) && groups[n].vendor == vendor {
      GroupIsServed(items, av, born, vendor, groups, unavailable, n);
    }
    forall m, n | 0 <= m < n < |groups| ensures Disjoint(groups[m], groups[n]) {
      forall id | id in groups[m].items ensures id !in groups[n].items {
        assert InGroup(groups, m, id);
        assert InGroup(groups, n, id) ==> m == n;
      }
      AgeOrderDistinct(born, Firsts(groups), ChosenBranches(own, av));
      assert Firsts(groups)[m] != Firsts(groups)[n];
    }
  }

  lemma GroupIsServed(items: seq<Line>, av: Availability, born: map<Id, int>, vendor: Id, groups: seq<Group>,
                      unavailable: seq<Id>, n: nat)
    requires Consistent(av, born) && DistinctIds(items) && n < |groups|
    requires Grouped(vendor, OfVendor(items, vendor), av, born, groups, unavailable)
    ensures WellServed(items, av, groups[n]) && groups[n].vendor == vendor
  {
    var own, g := OfVendor(items, vendor), groups[n];
    OfVendorDistinct(items, vendor);
    GroupedIsPartition(vendor, own, av, born, groups, unavailable);
    GroupHasBranchAndLine(own, av, born, vendor, groups, unavailable, n);
    forall id | id in g.items ensures exists j :: 0 <= j < |items| && ServedLine(items[j], av, g, id) {
      assert InGroup(groups, n, id);
      var k :| 0 <= k < |own| && own[k].id == id;
      OfferedBranchesCover(vendor, own, av, born, groups, unavailable, n, g.branches[0], k);
      OfVendorHas(items, vendor, own[k]);
      var j :| 0 <= j < |items| && items[j] == own[k];
      assert ServedLine(items[j], av, g, id);
    }
  }

  lemma GroupHasBranchAndLine(own: seq<Line>, av: Availability, born: map<Id, int>, vendor: Id, groups: seq<Group>,
                              unavailable: seq<Id>, n: nat)
    requires n < |groups| && Grouped(vendor, own, av, born, groups, unavailable)
    ensures groups[n].branches != [] && groups[n].items != [] && groups[n].vendor == vendor
  {
    if Covering(av, born, own) != {} {
      assert |Ids(own)| == |own|;
      assert groups[n].branches == [] ==> Covering(av, born, own) == {};
    } else {
      var b := Firsts(groups)[n];
      assert b in ChosenBranches(own, av);
      ChosenBranchesHas(own, av, b);
      var k :| 0 <= k < |own| && Choice(av, own[k]) == Some(b);
      ChoosingIdsHas(own, av, Some(b), own[k].id);
    }
  }

  lemma ServedOwner(items: seq<Line>, av: Availability, owner: map<Id, Id>, g: Group)
    requires BranchesAreOwn(items, av, owner) && WellServed(items, av, g)
    ensures g.branches[0] in owner && owner[g.branches[0]] == g.vendor
  {
    assert g.items[0] in g.items;
    var j :| 0 <= j < |items| && ServedLine(items[j], av, g, g.items[0]);
  }

  lemma IdHasOneVendor(items: seq<Line>, av: Availability, a: Group, b: Group, id: Id)
    requires DistinctIds(items) && WellServed(items, av, a) && WellServed(items, av, b)
    requires id in a.items && id in b.items
    ensures a.vendor == b.vendor
  {
    var i :| 0 <= i < |items| && ServedLine(items[i], av, a, id);
    var j :| 0 <= j < |items| && ServedLine(items[j], av, b, id);
    assert i == j || i < j || j < i;
  }

  lemma DifferentVendorsApart(items: seq<Line>, av: Availability, owner: map<Id, Id>, a: Group, b: Group)
    requires BranchesAreOwn(items, av, owner) && DistinctIds(items)
    requires WellServed(items, av, a) && WellServed(items, av, b) && a.vendor != b.vendor
    ensures Disjoint(a, b)
  {
    ServedOwner(items, av, owner, a);
    ServedOwner(items, av, owner, b);
    forall id | id in a.items ensures id !in b.items {
      if id in b.items { IdHasOneVendor(items, av, a, b, id); }
    }
  }

  /** All groups of the whole cart are well served and pairwise apart. */
  lemma {:induction false} QuoteIsServed(items: seq<Line>, av: Availability, born: map<Id, int>, owner: map<Id, Id>,
                                         parts: seq<Part>, n: nat)
    requires Consistent(av, born) && DistinctIds(items) && BranchesAreOwn(items, av, owner)
    requires PartsOf(items, av, born, parts) && n <= |parts|
    ensures AllServed(items, av, AllGroups(parts[..n]))
    ensures forall g | g in AllGroups(parts[..n]) :: exists p :: 0 <= p < n && parts[p].vendor == g.vendor
  {
    if n > 0 {
      var part := parts[n - 1];
      assert parts[..n][..n - 1] == parts[..n - 1];
      QuoteIsServed(items, av, born, owner, parts, n - 1);
      PartIsServed(items, av, born, part.vendor, part.groups, part.unavailable);
      ServedJoin(items, av, owner, AllGroups(parts[..n - 1]), part.groups, part.vendor);
    }
  }

  lemma ServedJoin(items: seq<Line>, av: Availability, owner: map<Id, Id>, first: seq<Group>, more: seq<Group>, vendor: Id)
    requires DistinctIds(items) && BranchesAreOwn(items, av, owner)
    requires AllServed(items, av, first) && AllServed(items, av, more)
    requires forall g | g in first :: g.vendor != vendor
    requires forall n | 0 <= n < |more| :: more[n].vendor == vendor
    ensures AllServed(items, av, first + more)
  {
    hide WellServed, Disjoint, BranchesAreOwn, DistinctIds;
    var all := first + more;
    forall m, n | 0 <= m < n < |all| ensures Disjoint(all[m], all[n]) {
      if m < |first| <= n {
        assert all[m] in first && all[n] == more[n - |first|];
        DifferentVendorsApart(items, av, owner, all[m], all[n]);
      } else if n < |first| {
        assert Disjoint(first[m], first[n]);
      } else {
        assert Disjoint(more[m - |first|], more[n - |first|]);
      }
    }
  }

  // ---- quote, then reserve

  /** Cart lines as quote builds them from the customer's cart. */
  predicate LinesOfCart(cart: Cart, items: seq<Line>)
  {
    && DistinctIds(items)
    && forall n | 0 <= n < |items| :: items[n].id in cart
         && var ci := cart[items[n].id];
            items[n].vendor == ci.vendor && items[n].variant == ci.variant && items[n].quantity == ci.quantity
  }

  /** The cart's unique key: one line per customer, vendor and variant. */
  predicate OneLinePerVariant(items: seq<Line>)
  {
    forall m, n | 0 <= m < n < |items| :: items[m].vendor == items[n].vendor ==> items[m].variant != items[n].variant
  }

  /** Stock rows pair a branch with a variant of the same vendor. */
  predicate StockIsOwn(db: Db, shops: Shops, items: seq<Line>)
  {
    forall j, k | 0 <= j < |items| && k in db.stock && k.variant == items[j].variant && k.branch in shops ::
      shops[k.branch].vendor == items[j].vendor
  }

  function VariantsOf(items: seq<Line>): set<Id>
  {
    set n | 0 <= n < |items| :: items[n].variant
  }

  /** The customer takes every proposed group at its suggested branch. */
  predicate TakesSuggestions(reqs: seq<Request>, groups: seq<Group>)
  {
    && |reqs| == |groups|
    && forall n | 0 <= n < |reqs| ::
         groups[n].branches != [] && reqs[n].branch == groups[n].branches[0] && reqs[n].items == groups[n].items
  }

  function Owners(shops: Shops): map<Id, Id>
  {
    map b | b in shops :: shops[b].vendor
  }

  /** Everything quote and reserve agree on when they run from the same state. */
  ghost predicate SameMoment(db: Db, shops: Shops, cart: Cart, items: seq<Line>, av: Availability, groups: seq<Group>)
  {
    && LinesOfCart(cart, items) && OneLinePerVariant(items) && StockIsOwn(db, shops, items)
    && ShowsAvailability(db, shops, VariantsOf(items), av) && AllServed(items, av, groups)
  }

  lemma CoveringStock(db: Db, shops: Shops, items: seq<Line>, av: Availability, b: Id, line: Line)
    requires ShowsAvailability(db, shops, VariantsOf(items), av) && Covers(av, b, line)
    ensures var k := StockKey(b, line.variant);
            k in db.stock && b in shops && Open(shops[b], db.now)
            && line.quantity <= db.stock[k].quantity - Held(LiveStrict(db), k)
  {
    var n :| 0 <= n < |Offers(av, line.variant)| && Offers(av, line.variant)[n].id == b
             && Offers(av, line.variant)[n].available >= line.quantity;
    assert Offers(av, line.variant)[n] in Offers(av, line.variant);
    assert IsOffer(db, shops, line.variant, Offers(av, line.variant)[n]);
  }

  lemma BranchesOwnVariants(db: Db, shops: Shops, items: seq<Line>, av: Availability)
    requires ShowsAvailability(db, shops, VariantsOf(items), av) && StockIsOwn(db, shops, items)
    ensures BranchesAreOwn(items, av, Owners(shops))
  {
    forall j, b | 0 <= j < |items| && Covers(av, b, items[j]) ensures b in shops && shops[b].vendor == items[j].vendor {
      CoveringStock(db, shops, items, av, b, items[j]);
    }
  }

  /** The groups quote forms satisfy everything below. */
  lemma QuoteGroupsAreServed(db: Db, shops: Shops, cart: Cart, items: seq<Line>, av: Availability, parts: seq<Part>)
    requires LinesOfCart(cart, items) && OneLinePerVariant(items) && StockIsOwn(db, shops, items)
    requires ShowsAvailability(db, shops, VariantsOf(items), av) && PartsOf(items, av, Births(shops), parts)
    ensures SameMoment(db, shops, cart, items, av, AllGroups(parts))
  {
    BranchesOwnVariants(db, shops, items, av);
    QuoteIsServed(items, av, Births(shops), Owners(shops), parts, |parts|);
    assert parts[..|parts|] == parts;
  }

  /** The line of `items` a served id stands for. */
  lemma LineBehind(items: seq<Line>, av: Availability, g: Group, id: Id) returns (j: nat)
    requires WellServed(items, av, g) && id in g.items
    ensures j < |items| && ServedLine(items[j], av, g, id)
  {
    j :| 0 <= j < |items| && ServedLine(items[j], av, g, id);
  }

  /** A request for a suggested group passes every check except those on the customer's own choices. */
  lemma SuggestedGroupIsResolved(db: Db, shops: Shops, cart: Cart, items: seq<Line>, av: Availability, g: Group, req: Request)
    requires LinesOfCart(cart, items) && StockIsOwn(db, shops, items)
    requires ShowsAvailability(db, shops, VariantsOf(items), av) && WellServed(items, av, g)
    requires req.branch == g.branches[0] && req.items == g.items
    ensures KnownItems(cart, req.items)
    ensures GroupRefusal(cart, shops, db.now, req)
            in {None, Some(PickupRequiresPhysical), Some(BelowMinimum), Some(DeliveryRequiresSlot)}
    ensures forall n | 0 <= n < |req.items| ::
              var line := LineOf(cart, req, req.items[n]);
              line.key in db.stock && line.quantity <= db.stock[line.key].quantity - Held(LiveStrict(db), line.key)
  {
    forall n | 0 <= n < |req.items| ensures
      var id := req.items[n];
      && id in cart && req.branch in shops && Open(shops[req.branch], db.now)
      && cart[id].vendor == shops[req.branch].vendor
      && StockKey(req.branch, cart[id].variant) in db.stock
      && cart[id].quantity <= db.stock[StockKey(req.branch, cart[id].variant)].quantity
                              - Held(LiveStrict(db), StockKey(req.branch, cart[id].variant))
    {
      assert req.items[n] in g.items;
      var j := LineBehind(items, av, g, req.items[n]);
      CoveringStock(db, shops, items, av, req.branch, items[j]);
      assert StockKey(req.branch, items[j].variant) in db.stock;
    }
    assert g.items[0] == req.items[0];
  }

  predicate DistinctKeys(lines: seq<HoldItem>)
  {
    forall m, n | 0 <= m < n < |lines| :: lines[m].key != lines[n].key
  }

  lemma {:induction false} DistinctKeysDemand(lines: seq<HoldItem>, n: nat)
    requires DistinctKeys(lines) && n < |lines|
    ensures Demand(lines, lines[n].key) == lines[n].quantity
  {
    var last := |lines| - 1;
    if n < last {
      DistinctKeysDemand(lines[..last], n);
    } else {
      NoDemandElsewhere(lines[..last], lines[n].key);
    }
  }

  lemma GroupLinesDistinct(cart: Cart, items: seq<Line>, av: Availability, g: Group, req: Request)
    requires LinesOfCart(cart, items) && OneLinePerVariant(items) && WellServed(items, av, g)
    requires req.items == g.items && KnownItems(cart, req.items)
    ensures DistinctKeys(LinesOf(cart, req))
  {
    forall m, n | 0 <= m < n < |req.items| ensures cart[req.items[m]].variant != cart[req.items[n]].variant {
      assert req.items[m] in g.items && req.items[n] in g.items;
      var i := LineBehind(items, av, g, req.items[m]);
      var j := LineBehind(items, av, g, req.items[n]);
      assert i < j || j < i;
    }
  }

  ghost predicate FromRequest(cart: Cart, req: Request, line: HoldItem)
  {
    KnownItems(cart, req.items) && line in LinesOf(cart, req)
  }

  ghost predicate FromSome(cart: Cart, reqs: seq<Request>, line: HoldItem)
  {
    exists n :: 0 <= n < |reqs| && FromRequest(cart, reqs[n], line)
  }

  lemma {:induction false} EveryLineFromSome(cart: Cart, reqs: seq<Request>, m: nat)
    requires forall n | 0 <= n < |reqs| :: KnownItems(cart, reqs[n].items)
    requires m < |AllLines(cart, reqs)|
    ensures FromSome(cart, reqs, AllLines(cart, reqs)[m])
  {
    var last := |reqs| - 1;
    var first := AllLines(cart, reqs[..last]);
    if m < |first| {
      EveryLineFromSome(cart, reqs[..last], m);
      var n :| 0 <= n < last && FromRequest(cart, reqs[..last][n], first[m]);
      assert FromRequest(cart, reqs[n], AllLines(cart, reqs)[m]);
    } else {
      assert AllLines(cart, reqs)[m] == LinesOf(cart, reqs[last])[m - |first|];
      assert FromRequest(cart, reqs[last], AllLines(cart, reqs)[m]);
    }
  }

  lemma FromSomeBranch(cart: Cart, reqs: seq<Request>, line: HoldItem)
    requires FromSome(cart, reqs, line)
    ensures line.key.branch in Branches(reqs)
  {
    var n :| 0 <= n < |reqs| && FromRequest(cart, reqs[n], line);
    assert Branches(reqs)[n] == line.key.branch;
  }

  lemma JoinDistinct(a: seq<HoldItem>, b: seq<HoldItem>)
    requires DistinctKeys(a) && DistinctKeys(b)
    requires forall m, n | 0 <= m < |a| && 0 <= n < |b| :: a[m].key != b[n].key
    ensures DistinctKeys(a + b)
  {
  }

  /** Lines of several requests have distinct keys. */
  lemma {:induction false} AllLinesDistinct(cart: Cart, reqs: seq<Request>)
    requires forall n | 0 <= n < |reqs| :: KnownItems(cart, reqs[n].items) && DistinctKeys(LinesOf(cart, reqs[n]))
    requires NoRepeats(Branches(reqs))
    ensures DistinctKeys(AllLines(cart, reqs))
  {
    if reqs != [] {
      var last := |reqs| - 1;
      var first, tail := AllLines(cart, reqs[..last]), LinesOf(cart, reqs[last]);
      assert forall n | 0 <= n < last :: Branches(reqs[..last])[n] == Branches(reqs)[n];
      AllLinesDistinct(cart, reqs[..last]);
      forall m, n | 0 <= m < |first| && 0 <= n < |tail| ensures first[m].key != tail[n].key {
        EveryLineFromSome(cart, reqs[..last], m);
        FromSomeBranch(cart, reqs[..last], first[m]);
        var k :| 0 <= k < last && Branches(reqs[..last])[k] == first[m].key.branch;
        assert Branches(reqs)[k] != Branches(reqs)[last];
      }
      JoinDistinct(first, tail);
    }
  }

  lemma JoinNoRepeats(a: seq<Id>, b: seq<Id>)
    requires NoRepeats(a) && NoRepeats(b) && forall x | x in a :: x !in b
    ensures NoRepeats(a + b)
  {
    forall m, n | 0 <= m < n < |a + b| ensures (a + b)[m] != (a + b)[n] {
      if m < |a| <= n { assert a[m] in a && b[n - |a|] in b; }
    }
  }

  lemma {:induction false} NoItemTwice(items: seq<Line>, av: Availability, groups: seq<Group>, reqs: seq<Request>)
    requires AllServed(items, av, groups) && TakesSuggestions(reqs, groups)
    ensures NoRepeats(AllItems(reqs))
    ensures forall id :: id in AllItems(reqs) <==> exists n :: InGroup(groups, n, id)
  {
    if reqs != [] {
      var last := |reqs| - 1;
      NoItemTwice(items, av, groups[..last], reqs[..last]);
      var first := AllItems(reqs[..last]);
      forall id | id in first ensures id !in reqs[last].items {
        var n :| InGroup(groups[..last], n, id);
        assert Disjoint(groups[n], groups[last]) && id in groups[n].items;
      }
      forall id ensures id in AllItems(reqs) <==> exists n :: InGroup(groups, n, id) {
        if id in first {
          var n :| InGroup(groups[..last], n, id);
          assert InGroup(groups, n, id);
        } else if id in reqs[last].items {
          assert InGroup(groups, last, id);
        }
        if n :| InGroup(groups, n, id) {
          if n < last { assert InGroup(groups[..last], n, id); }
        }
      }
      assert WellServed(items, av, groups[last]);
      JoinNoRepeats(first, reqs[last].items);
    }
  }

  lemma SuggestedBranchesDistinct(items: seq<Line>, av: Availability, groups: seq<Group>, reqs: seq<Request>)
    requires AllServed(items, av, groups) && TakesSuggestions(reqs, groups)
    ensures NoRepeats(Branches(reqs))
  {
    forall m, n | 0 <= m < n < |reqs| ensures Branches(reqs)[m] != Branches(reqs)[n] {
      assert Disjoint(groups[m], groups[n]);
    }
  }

  /**
   * Reserving every proposed group at its suggested branch, from the state quote read, is never
   * refused for a duplicate branch, a duplicate or unknown item, an unknown or closed branch or a
   * foreign vendor. It gets its stock exactly when each line still fits beside the exchange holds
   * and the holds ending at that very instant, which quote does not count; without any of those
   * it always does.
   */
  lemma QuoteThenReserve(db: Db, shops: Shops, cart: Cart, items: seq<Line>, av: Availability, groups: seq<Group>,
                         reqs: seq<Request>, rid: Id, customer: Id, expiresAt: int)
    requires Inv(db) && SameMoment(db, shops, cart, items, av, groups) && TakesSuggestions(reqs, groups)
    ensures NoRepeats(Branches(reqs)) && NoRepeats(AllItems(reqs)) && KnownItems(cart, AllItems(reqs))
    ensures forall n | 0 <= n < |reqs| :: KnownItems(cart, reqs[n].items)
              && GroupRefusal(cart, shops, db.now, reqs[n])
                 in {None, Some(PickupRequiresPhysical), Some(BelowMinimum), Some(DeliveryRequiresSlot)}
    ensures var lines := AllLines(cart, reqs);
            ReserveStep(db, rid, customer, expiresAt, lines).1 <==>
              forall m | 0 <= m < |lines| :: lines[m].quantity <= Available(db, lines[m].key)
    ensures NothingQuoteOverlooks(db) ==> ReserveStep(db, rid, customer, expiresAt, AllLines(cart, reqs)).1
  {
    SuggestedBranchesDistinct(items, av, groups, reqs);
    NoItemTwice(items, av, groups, reqs);
    forall n | 0 <= n < |reqs| ensures KnownItems(cart, reqs[n].items) {
      SuggestedGroupIsResolved(db, shops, cart, items, av, groups[n], reqs[n]);
      GroupLinesDistinct(cart, items, av, groups[n], reqs[n]);
    }
    KnownEverywhere(cart, reqs);
    SuggestedLinesAreShown(db, shops, cart, items, av, groups, reqs);
    ShownLinesReserved(db, rid, customer, expiresAt, AllLines(cart, reqs));
    forall n | 0 <= n < |reqs| ensures GroupRefusal(cart, shops, db.now, reqs[n])
                 in {None, Some(PickupRequiresPhysical), Some(BelowMinimum), Some(DeliveryRequiresSlot)}
    {
      SuggestedGroupIsResolved(db, shops, cart, items, av, groups[n], reqs[n]);
    }
  }

  /** No exchange hold, and no hold whose end is exactly now. */
  predicate NothingQuoteOverlooks(db: Db)
  {
    && (forall k | k in db.exchange :: db.exchange[k] == 0)
    && forall rid | rid in db.reservations :: db.reservations[rid].expiresAt != db.now
  }

  predicate Shown(db: Db, line: HoldItem, held: nat)
  {
    line.key in db.stock && line.quantity <= db.stock[line.key].quantity - held
  }

  lemma SuggestedLinesAreShown(db: Db, shops: Shops, cart: Cart, items: seq<Line>, av: Availability, groups: seq<Group>,
                               reqs: seq<Request>)
    requires SameMoment(db, shops, cart, items, av, groups) && TakesSuggestions(reqs, groups)
    requires NoRepeats(Branches(reqs)) && forall n | 0 <= n < |reqs| :: KnownItems(cart, reqs[n].items)
    ensures var lines := AllLines(cart, reqs);
            DistinctKeys(lines) && forall m | 0 <= m < |lines| :: Shown(db, lines[m], Held(LiveStrict(db), lines[m].key))
  {
    forall n | 0 <= n < |reqs| ensures DistinctKeys(LinesOf(cart, reqs[n]))
                               ensures forall i | 0 <= i < |reqs[n].items| ::
                                 var line := LinesOf(cart, reqs[n])[i]; Shown(db, line, Held(LiveStrict(db), line.key))
    {
      SuggestedGroupIsResolved(db, shops, cart, items, av, groups[n], reqs[n]);
      GroupLinesDistinct(cart, items, av, groups[n], reqs[n]);
    }
    AllLinesDistinct(cart, reqs);
    var lines := AllLines(cart, reqs);
    forall m | 0 <= m < |lines| ensures Shown(db, lines[m], Held(LiveStrict(db), lines[m].key)) {
      EveryLineFromSome(cart, reqs, m);
      var n :| 0 <= n < |reqs| && FromRequest(cart, reqs[n], lines[m]);
    }
  }

  lemma ShownLinesReserved(db: Db, rid: Id, customer: Id, expiresAt: int, lines: seq<HoldItem>)
    requires Inv(db) && DistinctKeys(lines)
    requires forall m | 0 <= m < |lines| :: Shown(db, lines[m], Held(LiveStrict(db), lines[m].key))
    ensures ReserveStep(db, rid, customer, expiresAt, lines).1 <==>
            forall m | 0 <= m < |lines| :: lines[m].quantity <= Available(db, lines[m].key)
    ensures NothingQuoteOverlooks(db) ==> ReserveStep(db, rid, customer, expiresAt, lines).1
  {
    ReserveSeesOnlyLiveHolds(db, rid, customer, expiresAt, lines);
    forall m | 0 <= m < |lines| ensures Demand(lines, lines[m].key) == lines[m].quantity {
      DistinctKeysDemand(lines, m);
    }
    if NothingQuoteOverlooks(db) {
      forall m | 0 <= m < |lines| ensures lines[m].quantity <= Available(db, lines[m].key) {
        QuoteShowsAvailable(db, lines[m].key);
        assert EndingNow(db) == map[];
      }
    }
  }

  /** Quote's decision: read availability, then group. It writes nothing. */
  method ProposeGroups(store: CheckoutService.Store, shops: Shops, items: seq<Line>)
    returns (groups: seq<Group>, unavailable: seq<Id>, ghost av: Availability, ghost parts: seq<Part>)
    requires forall i | i in store.items :: i.reservation in store.reservations
    ensures ShowsAvailability(store.State(), shops, VariantsOf(items), av)
    ensures PartsOf(items, av, Births(shops), parts) && groups == AllGroups(parts) && unavailable == AllUnavailable(parts)
  {
    hide PartsOf;
    var availability := BuildAvailabilityMap(store, shops, VariantsOf(items));
    groups, unavailable, parts := GroupByVendorAndBranch(items, availability, Births(shops));
    av := availability;
  }

  /** Reserve right after: every proposed group at its suggested branch, from the same state. */
  method ReserveSuggestions(store: CheckoutService.Store, shops: Shops, cart: Cart, items: seq<Line>, groups: seq<Group>,
                            reqs: seq<Request>, rid: Id, customer: Id, expiresAt: int, ghost av: Availability)
    returns (r: Result<bool, ResolveError>)
    requires Inv(store.State()) && SameMoment(store.State(), shops, cart, items, av, groups)
    requires TakesSuggestions(reqs, groups)
    modifies store
    ensures forall n | 0 <= n < |reqs| :: KnownItems(cart, reqs[n].items)
    ensures r.Err? ==> r.error in {PickupRequiresPhysical, BelowMinimum, DeliveryRequiresSlot}
                       && store.State() == old(store.State())
    ensures r.Ok? ==> (store.State(), r.value) ==
                      ReserveStep(old(store.State()), rid, customer, expiresAt, AllLines(cart, reqs))
    ensures r.Ok? && NothingQuoteOverlooks(old(store.State())) ==> r.value
  {
    hide Inv, SameMoment, ReserveStep, GroupRefusal, NothingQuoteOverlooks;
    QuoteThenReserve(store.State(), shops, cart, items, av, groups, reqs, rid, customer, expiresAt);
    var lines := ResolveGroups(cart, shops, store.now, reqs);
    FirstRefusalIsGroupRefusal(cart, shops, store.now, reqs);
    if lines.Err? {
      return Err(lines.error);
    }
    var ok := store.Reserve(rid, customer, expiresAt, lines.value);
    r := Ok(ok);
  }
}
