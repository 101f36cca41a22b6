/**
 * Money. Confirm charges once for all online branch orders it creates; afterwards an order's
 * original amounts never change, and cancellations, returns and a conversion to pickup only add
 * refunds to its ledger. Amounts are whole agorot.
 */
module Money {
  import opened Common
  import opened Holds
  import Quote

  // ---- confirm: one order per branch, one charge for the online ones

  datatype BranchOrder = BranchOrder(branch: Id, payment: PaymentMethod, lines: seq<HoldItem>, subtotal: nat,
                                     deliveryFee: Option<nat>, total: nat)

  function OfBranch(items: seq<HoldItem>, b: Id): seq<HoldItem>
  {
    if items == [] then []
    else
      var last := items[|items| - 1];
      OfBranch(items[..|items| - 1], b) + if last.key.branch == b then [last] else []
  }

  function BranchesOf(items: seq<HoldItem>): set<Id>
  {
    set n | 0 <= n < |items| :: items[n].key.branch
  }

  /** Each branch once, in the order its first item appears. */
  function FirstSeen(items: seq<HoldItem>): seq<Id>
  {
    if items == [] then []
    else
      var before, b := FirstSeen(items[..|items| - 1]), items[|items| - 1].key.branch;
      if b in before then before else before + [b]
  }

  predicate NoRepeats(s: seq<Id>)
  {
    forall m, n | 0 <= m < n < |s| :: s[m] != s[n]
  }

  lemma {:induction false} FirstSeenLists(items: seq<HoldItem>)
    ensures NoRepeats(FirstSeen(items)) && forall b :: b in FirstSeen(items) <==> b in BranchesOf(items)
  {
    if items != [] {
      var n := |items| - 1;
      FirstSeenLists(items[..n]);
      assert forall m | 0 <= m < n :: items[..n][m] == items[m];
      assert items[n].key.branch in BranchesOf(items);
      forall b ensures b in BranchesOf(items) <==> b in BranchesOf(items[..n]) || b == items[n].key.branch {
        if b in BranchesOf(items) {
          var m :| 0 <= m < |items| && items[m].key.branch == b;
          if m < n { assert items[..n][m].key.branch == b; }
        }
        if b in BranchesOf(items[..n]) {
          var m :| 0 <= m < n && items[..n][m].key.branch == b;
          assert items[m].key.branch == b;
        }
      }
    }
  }

  lemma {:induction false} OfBranchNotEmpty(items: seq<HoldItem>, b: Id)
    ensures OfBranch(items, b) != [] <==> b in BranchesOf(items)
    ensures forall n | 0 <= n < |OfBranch(items, b)| :: OfBranch(items, b)[n].key.branch == b && OfBranch(items, b)[n] in items
  {
    if items != [] {
      var n := |items| - 1;
      OfBranchNotEmpty(items[..n], b);
      assert items == items[..n] + [items[n]];
      if b in BranchesOf(items) {
        var m :| 0 <= m < |items| && items[m].key.branch == b;
        if m < n { assert items[..n][m].key.branch == b; }
      }
      if b in BranchesOf(items[..n]) {
        var m :| 0 <= m < n && items[..n][m].key.branch == b;
        assert items[m].key.branch == b;
      }
      if items[n].key.branch == b { assert items[n].key.branch in BranchesOf(items); }
    }
  }

  /** The order confirm writes for branch `b`: payment as its first line says, fee from its slot. */
  function OrderFor(items: seq<HoldItem>, fees: map<Id, nat>, b: Id): BranchOrder
    requires OfBranch(items, b) != []
  {
    var lines := OfBranch(items, b);
    var fee := if b in fees then Some(fees[b]) else None;
    BranchOrder(b, lines[0].payment, lines, Quote.Subtotal(lines), fee,
                Quote.Subtotal(lines) + if fee.Some? then fee.value else 0)
  }

  /** What the online orders of `orders` come to. */
  function OnlineTotals(orders: seq<BranchOrder>): nat
  {
    if orders == [] then 0
    else
      var last := orders[|orders| - 1];
      OnlineTotals(orders[..|orders| - 1]) + if last.payment == Online then last.total else 0
  }

  ghost predicate AreOrdersOf(items: seq<HoldItem>, fees: map<Id, nat>, orders: seq<BranchOrder>)
  {
    && |orders| == |FirstSeen(items)|
    && forall n | 0 <= n < |orders| ::
         OfBranch(items, FirstSeen(items)[n]) != [] && orders[n] == OrderFor(items, fees, FirstSeen(items)[n])
  }

  ghost predicate Collected(items: seq<HoldItem>, order: seq<Id>, byBranch: map<Id, seq<HoldItem>>)
  {
    && order == FirstSeen(items) && byBranch.Keys == BranchesOf(items)
    && forall b | b in byBranch :: byBranch[b] == OfBranch(items, b)
  }

  lemma CollectOneMore(items: seq<HoldItem>, n: nat, order: seq<Id>, byBranch: map<Id, seq<HoldItem>>)
    requires n < |items| && Collected(items[..n], order, byBranch)
    ensures var b := items[n].key.branch;
            Collected(items[..n + 1], if b in byBranch then order else order + [b],
                      byBranch[b := (if b in byBranch then byBranch[b] else []) + [items[n]]])
  {
    var b := items[n].key.branch;
    assert items[..n + 1][..n] == items[..n];
    FirstSeenLists(items[..n]);
    BranchesOneMore(items, n);
    if b !in byBranch { OfBranchNotEmpty(items[..n], b); }
  }

  lemma BranchesOneMore(items: seq<HoldItem>, n: nat)
    requires n < |items|
    ensures BranchesOf(items[..n + 1]) == BranchesOf(items[..n]) + {items[n].key.branch}
  {
    assert items[..n + 1][n] == items[n];
    assert forall m | 0 <= m < n :: items[..n + 1][m] == items[..n][m];
    forall b | b in BranchesOf(items[..n]) ensures b in BranchesOf(items[..n + 1]) {
      var m :| 0 <= m < n && items[..n][m].key.branch == b;
      assert items[..n + 1][m].key.branch == b;
    }
  }

  lemma CollectedNothing()
    ensures Collected([], [], map[])
  {
  }

  /** Confirm's first loop: items by branch, branches in order of first appearance. */
  method ItemsByBranch(items: seq<HoldItem>) returns (order: seq<Id>, byBranch: map<Id, seq<HoldItem>>)
    ensures Collected(items, order, byBranch)
  {
    hide *;
    order, byBranch := [], map[];
    CollectedNothing();
    assert items[..0] == [];
    for n := 0 to |items|
      invariant Collected(items[..n], order, byBranch)
    {
      CollectOneMore(items, n, order, byBranch);
      var b := items[n].key.branch;
      var list := if b in byBranch then byBranch[b] else [];
      if b !in byBranch { order := order + [b]; }
      byBranch := byBranch[b := list + [items[n]]];
    }
    assert items[..|items|] == items;
  }

  lemma CollectedOrder(items: seq<HoldItem>, order: seq<Id>, byBranch: map<Id, seq<HoldItem>>)
    requires Collected(items, order, byBranch)
    ensures order == FirstSeen(items)
    ensures forall n | 0 <= n < |order| ::
              order[n] in byBranch && byBranch[order[n]] == OfBranch(items, order[n]) && OfBranch(items, order[n]) != []
  {
    FirstSeenLists(items);
    forall n | 0 <= n < |order| ensures order[n] in byBranch && OfBranch(items, order[n]) != [] {
      assert order[n] in order;
      OfBranchNotEmpty(items, order[n]);
    }
  }

  /** Confirm's second loop: what the customer is charged online, before any order row is written. */
  method OnlineCharge(items: seq<HoldItem>, fees: map<Id, nat>, order: seq<Id>, byBranch: map<Id, seq<HoldItem>>,
                      ghost orders: seq<BranchOrder>)
    returns (charged: nat)
    requires AreOrdersOf(items, fees, orders) && order == FirstSeen(items)
    requires forall n | 0 <= n < |order| :: order[n] in byBranch && byBranch[order[n]] == OfBranch(items, order[n])
    ensures charged == OnlineTotals(orders)
  {
    charged := 0;
    assert orders[..0] == [];
    for n := 0 to |order|
      invariant charged == OnlineTotals(orders[..n])
    {
      assert orders[..n + 1][..n] == orders[..n];
      var lines := byBranch[order[n]];
      if lines[0].payment == Online {
        var subtotal := Quote.SumLineAmounts(lines);
        charged := charged + subtotal + if order[n] in fees then fees[order[n]] else 0;
      }
    }
    assert orders[..|orders|] == orders;
  }

  /** Confirm's money: group, charge, then write one order per branch. */
  method ConfirmOrders(items: seq<HoldItem>, fees: map<Id, nat>) returns (charged: nat, orders: seq<BranchOrder>)
    ensures AreOrdersOf(items, fees, orders)
    ensures charged == OnlineTotals(orders)
  {
    hide *;
    var order, byBranch := ItemsByBranch(items);
    CollectedOrder(items, order, byBranch);
    ghost var planned := PlannedOrders(items, fees);
    charged := OnlineCharge(items, fees, order, byBranch, planned);
    orders := [];
    for n := 0 to |order|
      invariant orders == planned[..n]
    {
      var one := WriteOrder(items, fees, order[n], byBranch[order[n]]);
      orders := orders + [one];
      assert planned[..n + 1] == planned[..n] + [planned[n]];
    }
    assert planned[..|order|] == planned;
  }

  ghost function PlannedOrders(items: seq<HoldItem>, fees: map<Id, nat>): (orders: seq<BranchOrder>)
    ensures AreOrdersOf(items, fees, orders)
    ensures |orders| == |FirstSeen(items)|
    ensures forall n | 0 <= n < |orders| ::
              OfBranch(items, FirstSeen(items)[n]) != [] && orders[n] == OrderFor(items, fees, FirstSeen(items)[n])
  {
    SeenHaveLines(items);
    seq(|FirstSeen(items)|, n requires 0 <= n < |FirstSeen(items)| => OrderFor(items, fees, FirstSeen(items)[n]))
  }

  lemma SeenHaveLines(items: seq<HoldItem>)
    ensures forall n | 0 <= n < |FirstSeen(items)| :: OfBranch(items, FirstSeen(items)[n]) != []
  {
    FirstSeenLists(items);
    forall n | 0 <= n < |FirstSeen(items)| ensures OfBranch(items, FirstSeen(items)[n]) != [] {
      assert FirstSeen(items)[n] in FirstSeen(items);
      OfBranchNotEmpty(items, FirstSeen(items)[n]);
    }
  }

  method WriteOrder(ghost items: seq<HoldItem>, fees: map<Id, nat>, b: Id, lines: seq<HoldItem>) returns (o: BranchOrder)
    requires lines != [] && lines == OfBranch(items, b)
    ensures o == OrderFor(items, fees, b)
  {
    var subtotal := Quote.SumLineAmounts(lines);
    var fee := if b in fees then Some(fees[b]) else None;
    o := BranchOrder(b, lines[0].payment, lines, subtotal, fee, subtotal + if fee.Some? then fee.value else 0);
  }

  // ---- the orders hold exactly the reserved items

  function LinesOver(items: seq<HoldItem>, branches: seq<Id>): seq<HoldItem>
  {
    if branches == [] then []
    else LinesOver(items, branches[..|branches| - 1]) + OfBranch(items, branches[|branches| - 1])
  }

  function AllLinesOf(orders: seq<BranchOrder>): seq<HoldItem>
  {
    if orders == [] then [] else AllLinesOf(orders[..|orders| - 1]) + orders[|orders| - 1].lines
  }

  lemma OfBranchGrows(items: seq<HoldItem>, b: Id)
    requires items != []
    ensures var n := |items| - 1;
            OfBranch(items, b) == OfBranch(items[..n], b) + if items[n].key.branch == b then [items[n]] else []
  {
  }

  lemma {:induction false} LinesOverGrow(items: seq<HoldItem>, branches: seq<Id>)
    requires items != [] && NoRepeats(branches)
    ensures var n := |items| - 1;
            multiset(LinesOver(items, branches)) == multiset(LinesOver(items[..n], branches))
              + if items[n].key.branch in branches then multiset{items[n]} else multiset{}
  {
    hide OfBranch;
    var n, k := |items| - 1, |branches| - 1;
    if branches != [] {
      LinesOverGrow(items, branches[..k]);
      OfBranchGrows(items, branches[k]);
      assert branches == branches[..k] + [branches[k]];
    }
  }

  lemma {:induction false} LinesOverAll(items: seq<HoldItem>, branches: seq<Id>)
    requires NoRepeats(branches) && forall b | b in BranchesOf(items) :: b in branches
    ensures multiset(LinesOver(items, branches)) == multiset(items)
  {
    if items == [] {
      NoLinesOver(branches);
    } else {
      var n := |items| - 1;
      assert items[n].key.branch in BranchesOf(items);
      BranchesOneMore(items, n);
      assert items[..n + 1] == items == items[..n] + [items[n]];
      LinesOverAll(items[..n], branches);
      LinesOverGrow(items, branches);
    }
  }

  lemma {:induction false} NoLinesOver(branches: seq<Id>)
    ensures LinesOver([], branches) == []
  {
    if branches != [] { NoLinesOver(branches[..|branches| - 1]); }
  }

  lemma {:induction false} OrderLines(items: seq<HoldItem>, fees: map<Id, nat>, orders: seq<BranchOrder>, n: nat)
    requires AreOrdersOf(items, fees, orders) && n <= |orders|
    ensures AllLinesOf(orders[..n]) == LinesOver(items, FirstSeen(items)[..n])
  {
    if n > 0 {
      var first := FirstSeen(items);
      assert orders[..n][..n - 1] == orders[..n - 1] && first[..n][..n - 1] == first[..n - 1];
      OrderLines(items, fees, orders, n - 1);
    }
  }

  /** No reserved item is lost, doubled or invented, and each branch gets one order. */
  lemma OrdersHoldTheItems(items: seq<HoldItem>, fees: map<Id, nat>, orders: seq<BranchOrder>)
    requires AreOrdersOf(items, fees, orders)
    ensures multiset(AllLinesOf(orders)) == multiset(items)
    ensures forall m, n | 0 <= m < n < |orders| :: orders[m].branch != orders[n].branch
    ensures forall n, i | 0 <= n < |orders| && 0 <= i < |orders[n].lines| :: orders[n].lines[i].key.branch == orders[n].branch
  {
    FirstSeenLists(items);
    OrderLines(items, fees, orders, |orders|);
    assert orders[..|orders|] == orders && FirstSeen(items)[..|orders|] == FirstSeen(items);
    LinesOverAll(items, FirstSeen(items));
    forall n, i | 0 <= n < |orders| && 0 <= i < |orders[n].lines| ensures orders[n].lines[i].key.branch == orders[n].branch {
      OfBranchNotEmpty(items, orders[n].branch);
    }
  }

  // ---- what was charged, item by item

  predicate UniformPayment(items: seq<HoldItem>)
  {
    forall m, n | 0 <= m < n < |items| && items[m].key.branch == items[n].key.branch :: items[m].payment == items[n].payment
  }

  function Amount(item: HoldItem): nat
  {
    item.unitPrice * item.quantity
  }

  function OnlineOnly(items: seq<HoldItem>): nat
  {
    if items == [] then 0
    else
      var last := items[|items| - 1];
      OnlineOnly(items[..|items| - 1]) + if last.payment == Online then Amount(last) else 0
  }

  function OnlineOver(items: seq<HoldItem>, branches: seq<Id>): nat
  {
    if branches == [] then 0
    else OnlineOver(items, branches[..|branches| - 1]) + OnlineOnly(OfBranch(items, branches[|branches| - 1]))
  }

  /** Delivery fees of the branches whose order is online. */
  function OnlineFees(orders: seq<BranchOrder>): nat
  {
    if orders == [] then 0
    else
      var last := orders[|orders| - 1];
      OnlineFees(orders[..|orders| - 1])
      + if last.payment == Online && last.deliveryFee.Some? then last.deliveryFee.value else 0
  }

  lemma {:induction false} OnlineOverGrows(items: seq<HoldItem>, branches: seq<Id>)
    requires items != [] && NoRepeats(branches)
    ensures var n := |items| - 1;
            OnlineOver(items, branches) == OnlineOver(items[..n], branches)
              + if items[n].key.branch in branches && items[n].payment == Online
                then Amount(items[n]) else 0
  {
    hide Amount, OfBranch, OnlineOnly;
    var n, k := |items| - 1, |branches| - 1;
    if branches != [] {
      OnlineOverGrows(items, branches[..k]);
      assert branches == branches[..k] + [branches[k]];
      OnlineOnlyGrows(items, branches[k]);
      assert items[n].key.branch in branches <==> items[n].key.branch in branches[..k] || items[n].key.branch == branches[k];
      assert branches[k] !in branches[..k];
    }
  }

  lemma OnlineOnlyGrows(items: seq<HoldItem>, b: Id)
    requires items != []
    ensures var n := |items| - 1;
            OnlineOnly(OfBranch(items, b)) == OnlineOnly(OfBranch(items[..n], b))
              + if items[n].key.branch == b && items[n].payment == Online then Amount(items[n]) else 0
  {
    hide Amount;
    var n := |items| - 1;
    if items[n].key.branch == b {
      var all := OfBranch(items, b);
      assert all == OfBranch(items[..n], b) + [items[n]];
      assert all[..|all| - 1] == OfBranch(items[..n], b) && all[|all| - 1] == items[n];
    } else {
      assert OfBranch(items, b) == OfBranch(items[..n], b);
    }
  }

  lemma {:induction false} OnlineOverAll(items: seq<HoldItem>, branches: seq<Id>)
    requires NoRepeats(branches) && forall b | b in BranchesOf(items) :: b in branches
    ensures OnlineOver(items, branches) == OnlineOnly(items)
  {
    if items == [] {
      NothingOver(branches);
    } else {
      var n := |items| - 1;
      assert items[n].key.branch in BranchesOf(items);
      forall b | b in BranchesOf(items[..n]) ensures b in branches {
        var m :| 0 <= m < n && items[..n][m].key.branch == b;
        assert items[m].key.branch in BranchesOf(items);
      }
      OnlineOverAll(items[..n], branches);
      OnlineOverGrows(items, branches);
    }
  }

  lemma {:induction false} NothingOver(branches: seq<Id>)
    ensures OnlineOver([], branches) == 0
  {
    if branches != [] { NothingOver(branches[..|branches| - 1]); }
  }

  /** With one payment method per branch a branch's lines are all online or none is. */
  lemma {:induction false} AllOrNothing(lines: seq<HoldItem>, payment: PaymentMethod)
    requires forall n | 0 <= n < |lines| :: lines[n].payment == payment
    ensures OnlineOnly(lines) == if payment == Online then Quote.Subtotal(lines) else 0
  {
    if lines != [] { AllOrNothing(lines[..|lines| - 1], payment); }
  }

  lemma UniformBranch(items: seq<HoldItem>, b: Id)
    requires UniformPayment(items) && OfBranch(items, b) != []
    ensures forall n | 0 <= n < |OfBranch(items, b)| :: OfBranch(items, b)[n].payment == OfBranch(items, b)[0].payment
  {
    OfBranchNotEmpty(items, b);
    var lines := OfBranch(items, b);
    forall n | 0 <= n < |lines| ensures lines[n].payment == lines[0].payment {
      var i :| 0 <= i < |items| && items[i] == lines[n];
      var j :| 0 <= j < |items| && items[j] == lines[0];
      assert i == j || i < j || j < i;
    }
  }

  lemma {:induction false} TotalsAreOnlineLines(items: seq<HoldItem>, fees: map<Id, nat>, orders: seq<BranchOrder>, n: nat)
    requires AreOrdersOf(items, fees, orders) && UniformPayment(items) && n <= |orders|
    ensures OnlineTotals(orders[..n]) == OnlineOver(items, FirstSeen(items)[..n]) + OnlineFees(orders[..n])
  {
    if n > 0 {
      var first := FirstSeen(items);
      assert orders[..n][..n - 1] == orders[..n - 1] && first[..n][..n - 1] == first[..n - 1];
      TotalsAreOnlineLines(items, fees, orders, n - 1);
      UniformBranch(items, first[n - 1]);
      AllOrNothing(OfBranch(items, first[n - 1]), OfBranch(items, first[n - 1])[0].payment);
    }
  }

  /**
   * The one charge is the sum of the online items' amounts, plus the delivery fees of the online
   * orders: no online item is left out, no cash item is charged.
   */
  lemma ChargedIsOnlineItems(items: seq<HoldItem>, fees: map<Id, nat>, orders: seq<BranchOrder>)
    requires AreOrdersOf(items, fees, orders) && UniformPayment(items)
    ensures OnlineTotals(orders) == OnlineOnly(items) + OnlineFees(orders)
  {
    FirstSeenLists(items);
    TotalsAreOnlineLines(items, fees, orders, |orders|);
    assert orders[..|orders|] == orders && FirstSeen(items)[..|orders|] == FirstSeen(items);
    OnlineOverAll(items, FirstSeen(items));
  }

  /**
   * Without it the first line, of variant `v`, decides for the whole branch, and the charge misses the
   * online line of `w`.
   */
  lemma MixedPaymentMischarges(b: Id, v: Id, w: Id)
    ensures var items := [HoldItem(StockKey(b, v), 1, 100, CashOnDelivery), HoldItem(StockKey(b, w), 1, 50, Online)];
            !UniformPayment(items) && OnlineOnly(items) == 50
            && forall orders: seq<BranchOrder> | AreOrdersOf(items, map[], orders) :: OnlineTotals(orders) == 0
  {
    var cash, online := HoldItem(StockKey(b, v), 1, 100, CashOnDelivery), HoldItem(StockKey(b, w), 1, 50, Online);
    var items := [cash, online];
    assert items[..1] == [cash] && [cash][..0] == [];
    assert FirstSeen([cash]) == [b] by { assert FirstSeen([]) == []; }
    assert OfBranch([cash], b) == [cash] by { assert OfBranch([], b) == []; }
    assert OfBranch(items, b) == [cash] + [online];
    assert OnlineOnly([cash]) == 0 by { assert OnlineOnly([]) == 0; }
    assert Amount(online) == 50;
    assert items[0].payment != items[1].payment;
    forall orders: seq<BranchOrder> | AreOrdersOf(items, map[], orders) ensures OnlineTotals(orders) == 0 {
      assert |orders| == 1 && orders[0].payment == CashOnDelivery;
      assert orders[..0] == [];
      assert OnlineTotals(orders[..0]) == 0;
    }
  }

  /** Reserve accepts each branch in one group only, and a group has one payment method. */
  lemma ReserveMakesPaymentUniform(cart: Quote.Cart, reqs: seq<Quote.Request>)
    requires forall n | 0 <= n < |reqs| :: Quote.KnownItems(cart, reqs[n].items)
    requires NoRepeats(Quote.Branches(reqs))
    ensures UniformPayment(Quote.AllLines(cart, reqs))
  {
    var lines := Quote.AllLines(cart, reqs);
    forall m, n | 0 <= m < n < |lines| && lines[m].key.branch == lines[n].key.branch
      ensures lines[m].payment == lines[n].payment
    {
      Quote.EveryLineFromSome(cart, reqs, m);
      Quote.EveryLineFromSome(cart, reqs, n);
      var i :| 0 <= i < |reqs| && Quote.FromRequest(cart, reqs[i], lines[m]);
      var j :| 0 <= j < |reqs| && Quote.FromRequest(cart, reqs[j], lines[n]);
      assert Quote.Branches(reqs)[i] == lines[m].key.branch && Quote.Branches(reqs)[j] == lines[n].key.branch;
      assert i == j;
    }
  }

  // ---- an order's ledger

  datatype Item = Item(unitPrice: nat, quantity: nat, cancelled: bool)

  /** A refund of one item, or of the delivery fee. */
  datatype Refund = Refund(item: Option<nat>, amount: nat)

  /** `pickup` is the current fulfilment method; `closed` means the status is terminal. */
  datatype Order = Order(items: seq<Item>, deliveryFee: Option<nat>, online: bool, pickup: bool, closed: bool,
                         refunds: seq<Refund>)

  function Price(i: Item): nat
  {
    i.unitPrice * i.quantity
  }

  function SumOf(items: seq<Item>, cancelledToo: bool): nat
  {
    if items == [] then 0
    else
      var last := items[|items| - 1];
      SumOf(items[..|items| - 1], cancelledToo) + if last.cancelled && !cancelledToo then 0 else Price(last)
  }

  function Fee(o: Order): nat
  {
    if o.deliveryFee.Some? then o.deliveryFee.value else 0
  }

  /** The immutable total. */
  function Total(o: Order): nat
  {
    SumOf(o.items, true) + Fee(o)
  }

  function CancelledTotal(items: seq<Item>): nat
  {
    if items == [] then 0
    else
      var last := items[|items| - 1];
      CancelledTotal(items[..|items| - 1]) + if last.cancelled then Price(last) else 0
  }

  function ComputeAmountDue(total: int, items: seq<Item>, deliveryFeeRefunded: bool, deliveryFee: Option<nat>): int
  {
    var due := total - CancelledTotal(items);
    if deliveryFeeRefunded && deliveryFee.Some? then due - deliveryFee.value else due
  }

  function ComputeAmountRefunded(refunds: seq<Refund>): nat
  {
    if refunds == [] then 0
    else ComputeAmountRefunded(refunds[..|refunds| - 1]) + refunds[|refunds| - 1].amount
  }

  function ComputeRemainingRefundable(total: int, refunds: seq<Refund>): int
  {
    total - ComputeAmountRefunded(refunds)
  }

  predicate FeeRefunded(o: Order)
  {
    exists n :: 0 <= n < |o.refunds| && o.refunds[n].item.None?
  }

  lemma {:induction false} CancelledAndNot(items: seq<Item>)
    ensures SumOf(items, true) == SumOf(items, false) + CancelledTotal(items)
  {
    if items != [] { CancelledAndNot(items[..|items| - 1]); }
  }

  /** What is due is exactly the items still wanted plus the fee unless it was refunded. */
  lemma AmountDueIsWhatIsLeft(o: Order)
    ensures ComputeAmountDue(Total(o), o.items, FeeRefunded(o), o.deliveryFee)
            == SumOf(o.items, false) + if FeeRefunded(o) then 0 else Fee(o)
    ensures 0 <= ComputeAmountDue(Total(o), o.items, FeeRefunded(o), o.deliveryFee) <= Total(o)
  {
    CancelledAndNot(o.items);
  }

  /** At most one refund per item, none above its price, and one of the fee, none above it. */
  predicate LedgerOk(o: Order)
  {
    && (forall m, n | 0 <= m < n < |o.refunds| :: o.refunds[m].item != o.refunds[n].item)
    && forall n | 0 <= n < |o.refunds| ::
         match o.refunds[n].item
         case Some(i) => i < |o.items| && o.refunds[n].amount <= Price(o.items[i])
         case None => o.refunds[n].amount <= Fee(o)
  }

  /** The refunds on one target. */
  function RefundedOn(refunds: seq<Refund>, target: Option<nat>): nat
  {
    if refunds == [] then 0
    else
      var last := refunds[|refunds| - 1];
      RefundedOn(refunds[..|refunds| - 1], target) + if last.item == target then last.amount else 0
  }

  function RefundedOnItems(refunds: seq<Refund>, n: nat): nat
  {
    if n == 0 then 0 else RefundedOnItems(refunds, n - 1) + RefundedOn(refunds, Some(n - 1))
  }

  lemma {:induction false} OneMoreRefund(refunds: seq<Refund>, n: nat)
    requires refunds != []
    ensures var k := |refunds| - 1;
            RefundedOnItems(refunds, n) == RefundedOnItems(refunds[..k], n)
              + if refunds[k].item.Some? && refunds[k].item.value < n then refunds[k].amount else 0
  {
    if n > 0 { OneMoreRefund(refunds, n - 1); }
  }

  lemma {:induction false} RefundsByTarget(refunds: seq<Refund>, n: nat)
    requires forall k | 0 <= k < |refunds| :: refunds[k].item.Some? ==> refunds[k].item.value < n
    ensures ComputeAmountRefunded(refunds) == RefundedOnItems(refunds, n) + RefundedOn(refunds, None)
  {
    if refunds == [] {
      NothingRefunded(n);
    } else {
      RefundsByTarget(refunds[..|refunds| - 1], n);
      OneMoreRefund(refunds, n);
    }
  }

  lemma {:induction false} NothingRefunded(n: nat)
    ensures RefundedOnItems([], n) == 0
  {
    if n > 0 { NothingRefunded(n - 1); }
  }

  /** With at most one refund on a target, that refund is all there is on it. */
  lemma {:induction false} RefundedAtMost(refunds: seq<Refund>, target: Option<nat>, bound: nat)
    requires forall m, n | 0 <= m < n < |refunds| :: refunds[m].item != refunds[n].item
    requires forall n | 0 <= n < |refunds| && refunds[n].item == target :: refunds[n].amount <= bound
    ensures RefundedOn(refunds, target) <= bound
  {
    if refunds != [] {
      var k := |refunds| - 1;
      if refunds[k].item == target {
        NotRefunded(refunds[..k], target);
      } else {
        RefundedAtMost(refunds[..k], target, bound);
      }
    }
  }

  lemma {:induction false} NotRefunded(refunds: seq<Refund>, target: Option<nat>)
    requires forall n | 0 <= n < |refunds| :: refunds[n].item != target
    ensures RefundedOn(refunds, target) == 0
  {
    if refunds != [] { NotRefunded(refunds[..|refunds| - 1], target); }
  }

  lemma {:induction false} ItemsCoverRefunds(o: Order, n: nat)
    requires LedgerOk(o) && n <= |o.items|
    ensures RefundedOnItems(o.refunds, n) <= SumOf(o.items[..n], true)
  {
    if n > 0 {
      ItemsCoverRefunds(o, n - 1);
      assert o.items[..n][..n - 1] == o.items[..n - 1];
      RefundedAtMost(o.refunds, Some(n - 1), Price(o.items[n - 1]));
    }
  }

  /** Refunds never exceed the original total, so what can still be refunded stays between zero and it. */
  lemma RemainingStaysInBounds(o: Order)
    requires LedgerOk(o)
    ensures 0 <= ComputeRemainingRefundable(Total(o), o.refunds) <= Total(o)
  {
    RefundsByTarget(o.refunds, |o.items|);
    ItemsCoverRefunds(o, |o.items|);
    assert o.items[..|o.items|] == o.items;
    RefundedAtMost(o.refunds, None, Fee(o));
  }

  // ---- the refund paths keep the ledger in order

  /**
   * Cancelling items refunds each of them online; when none is left the order closes, and an online
   * delivery's fee goes back.
   */
  function CancelItem(o: Order, i: nat): Order
    requires i < |o.items|
  {
    o.(items := o.items[i := o.items[i].(cancelled := true)],
       refunds := if o.online then o.refunds + [Refund(Some(i), Price(o.items[i]))] else o.refunds)
  }

  predicate NoneActive(o: Order)
  {
    forall n | 0 <= n < |o.items| :: o.items[n].cancelled
  }

  function CloseIfEmpty(o: Order): Order
  {
    if !NoneActive(o) then o
    else if o.online && !o.pickup && o.deliveryFee.Some?
    then o.(closed := true, refunds := o.refunds + [Refund(None, o.deliveryFee.value)])
    else o.(closed := true)
  }

  function ConvertToPickup(o: Order): Order
  {
    var changed := o.(pickup := true);
    if Fee(o) > 0 then changed.(refunds := o.refunds + [Refund(None, Fee(o))]) else changed
  }

  /** A returned item is refunded up to its price; the item's unique index refuses a second refund. */
  function ReturnItem(o: Order, i: nat, amount: nat): Order
  {
    o.(refunds := o.refunds + [Refund(Some(i), amount)])
  }

  /** One cancellation may take several items; it closes the order when it leaves none. */
  function CancelAll(o: Order, items: seq<nat>): Order
    requires forall n | 0 <= n < |items| :: items[n] < |o.items|
    ensures |CancelAll(o, items).items| == |o.items|
  {
    if items == [] then o else CancelItem(CancelAll(o, items[..|items| - 1]), items[|items| - 1])
  }

  datatype MoneyOp = Cancel(items: seq<nat>) | Complete | Convert | Return(i: nat, amount: nat)

  predicate ItemRefunded(o: Order, i: nat)
  {
    exists n :: 0 <= n < |o.refunds| && o.refunds[n].item == Some(i)
  }

  /** Distinct items of the order that are still active. */
  predicate ActiveItems(o: Order, items: seq<nat>)
  {
    && items != [] && (forall m, n | 0 <= m < n < |items| :: items[m] != items[n])
    && forall n | 0 <= n < |items| :: items[n] < |o.items| && !o.items[items[n]].cancelled
  }

  /** What each service checks first: active items, an open order, a delivery, an unrefunded item. */
  predicate Allowed(o: Order, op: MoneyOp)
  {
    match op
    case Cancel(items) => !o.closed && ActiveItems(o, items)
    case Complete => !o.closed
    case Convert => !o.pickup && !o.closed
    case Return(i, amount) =>
      o.closed && i < |o.items| && !o.items[i].cancelled && !ItemRefunded(o, i) && amount <= Price(o.items[i])
  }

  function Apply(o: Order, op: MoneyOp): Order
    requires Allowed(o, op)
  {
    match op
    case Cancel(items) => CloseIfEmpty(CancelAll(o, items))
    case Complete => o.(closed := true)
    case Convert => ConvertToPickup(o)
    case Return(i, amount) => ReturnItem(o, i, amount)
  }

  /** While open, only cancelled items were refunded, and the fee only by converting. */
  predicate OrderInv(o: Order)
  {
    && LedgerOk(o)
    && (!o.closed ==> forall n | 0 <= n < |o.refunds| ::
          match o.refunds[n].item
          case Some(i) => i < |o.items| && o.items[i].cancelled
          case None => o.pickup)
  }

  lemma ApplyKeepsInv(o: Order, op: MoneyOp)
    requires OrderInv(o) && Allowed(o, op)
    ensures OrderInv(Apply(o, op)) && Total(Apply(o, op)) == Total(o)
  {
    hide Price;
    match op
    case Cancel(items) =>
      CancelAllKeepsInv(o, items);
      CloseKeepsInv(CancelAll(o, items));
    case Complete =>
    case Convert => ConvertKeepsInv(o);
    case Return(i, amount) => ReturnKeepsInv(o, i, amount);
  }

  lemma AddRefund(o: Order, after: Order, r: Refund)
    requires LedgerOk(o) && after.refunds == o.refunds + [r]
    requires Fee(after) == Fee(o) && |after.items| == |o.items|
    requires forall i | 0 <= i < |o.items| :: Price(after.items[i]) == Price(o.items[i])
    requires forall n | 0 <= n < |o.refunds| :: o.refunds[n].item != r.item
    requires match r.item case Some(i) => i < |o.items| && r.amount <= Price(o.items[i]) case None => r.amount <= Fee(o)
    ensures LedgerOk(after)
  {
    hide Price;
  }

  lemma CancelKeepsInv(o: Order, i: nat)
    requires OrderInv(o) && !o.closed && i < |o.items| && !o.items[i].cancelled
    ensures OrderInv(CancelItem(o, i)) && Total(CancelItem(o, i)) == Total(o)
  {
    var after := CancelItem(o, i);
    SamePrices(o.items, after.items);
    if o.online { AddRefund(o, after, Refund(Some(i), Price(o.items[i]))); }
  }

  lemma {:induction false} CancelAllKeepsInv(o: Order, items: seq<nat>)
    requires OrderInv(o) && !o.closed && (items != [] ==> ActiveItems(o, items))
    ensures OrderInv(CancelAll(o, items)) && Total(CancelAll(o, items)) == Total(o) && !CancelAll(o, items).closed
    ensures forall i | 0 <= i < |o.items| && i !in items :: CancelAll(o, items).items[i] == o.items[i]
  {
    if items != [] {
      var n := |items| - 1;
      CancelAllKeepsInv(o, items[..n]);
      CancelKeepsInv(CancelAll(o, items[..n]), items[n]);
    }
  }

  lemma {:induction false} SamePrices(a: seq<Item>, b: seq<Item>)
    requires |a| == |b| && forall n | 0 <= n < |a| :: Price(a[n]) == Price(b[n])
    ensures SumOf(a, true) == SumOf(b, true)
  {
    if a != [] { SamePrices(a[..|a| - 1], b[..|b| - 1]); }
  }

  lemma CloseKeepsInv(o: Order)
    requires OrderInv(o) && !o.closed
    ensures OrderInv(CloseIfEmpty(o)) && Total(CloseIfEmpty(o)) == Total(o)
  {
    var after := CloseIfEmpty(o);
    if NoneActive(o) && o.online && !o.pickup && o.deliveryFee.Some? {
      AddRefund(o, after, Refund(None, o.deliveryFee.value));
    }
  }

  lemma ConvertKeepsInv(o: Order)
    requires OrderInv(o) && Allowed(o, Convert)
    ensures OrderInv(ConvertToPickup(o)) && Total(ConvertToPickup(o)) == Total(o)
  {
    if Fee(o) > 0 { AddRefund(o, ConvertToPickup(o), Refund(None, Fee(o))); }
  }

  lemma ReturnKeepsInv(o: Order, i: nat, amount: nat)
    requires OrderInv(o) && Allowed(o, Return(i, amount))
    ensures OrderInv(ReturnItem(o, i, amount)) && Total(ReturnItem(o, i, amount)) == Total(o)
  {
    AddRefund(o, ReturnItem(o, i, amount), Refund(Some(i), amount));
  }

  ghost predicate Runs(o: Order, ops: seq<MoneyOp>)
    decreases |ops|
  {
    ops == [] || (Allowed(o, ops[0]) && Runs(Apply(o, ops[0]), ops[1..]))
  }

  ghost function After(o: Order, ops: seq<MoneyOp>): Order
    requires Runs(o, ops)
    decreases |ops|
  {
    if ops == [] then o else After(Apply(o, ops[0]), ops[1..])
  }

  /** Over an order's whole life no item and no fee is refunded twice, and refunds stay within the original total. */
  lemma {:induction false} RefundsNeverExceedTotal(o: Order, ops: seq<MoneyOp>)
    requires OrderInv(o) && Runs(o, ops)
    ensures OrderInv(After(o, ops)) && Total(After(o, ops)) == Total(o)
    ensures 0 <= ComputeRemainingRefundable(Total(o), After(o, ops).refunds) <= Total(o)
    decreases |ops|
  {
    if ops == [] {
      RemainingStaysInBounds(o);
    } else {
      ApplyKeepsInv(o, ops[0]);
      RefundsNeverExceedTotal(Apply(o, ops[0]), ops[1..]);
    }
  }
}
