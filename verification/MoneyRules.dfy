/**
 * The rules of an order's money on its rows: what confirm writes for a branch, what each refund path may do and does,
 * and that for online orders the two computations of what is left agree.
 */
module MoneyRules {
  import opened Common
  import opened Holds
  import Quote
  import opened Money

  // ---- what confirm writes

  lemma SubtotalOneMore(lines: seq<HoldItem>, line: HoldItem)
    ensures Quote.Subtotal([]) == 0
    ensures Quote.Subtotal(lines + [line]) == Quote.Subtotal(lines) + line.unitPrice * line.quantity
  {
    assert (lines + [line])[..|lines|] == lines;
  }

  lemma {:induction false} FirstOfBranch(items: seq<HoldItem>, b: Id) returns (i: nat)
    requires OfBranch(items, b) != []
    ensures i < |items| && items[i] == OfBranch(items, b)[0] && items[i].key.branch == b
    ensures forall j | 0 <= j < i :: items[j].key.branch != b
  {
    var last := |items| - 1;
    if OfBranch(items[..last], b) != [] {
      i := FirstOfBranch(items[..last], b);
    } else {
      i := last;
      forall j | 0 <= j < last ensures items[j].key.branch != b {
        OfBranchNotEmpty(items[..last], b);
        assert items[..last][j] == items[j];
      }
    }
  }

  /**
   * A branch's order has the payment of its first item, the fee of its delivery slot if there is one,
   * and a total of items and fee.
   */
  lemma OrderIsFor(items: seq<HoldItem>, fees: map<Id, nat>, orders: seq<BranchOrder>, n: nat) returns (i: nat)
    requires AreOrdersOf(items, fees, orders) && n < |orders|
    ensures var o := orders[n];
            && i < |items| && items[i].key.branch == o.branch && items[i].payment == o.payment
            && (forall j | 0 <= j < i :: items[j].key.branch != o.branch)
            && (forall line | line in o.lines :: line in items && line.key.branch == o.branch)
            && o.deliveryFee == (if o.branch in fees then Some(fees[o.branch]) else None)
            && o.subtotal == Quote.Subtotal(o.lines)
            && o.total == o.subtotal + if o.branch in fees then fees[o.branch] else 0
  {
    var b := FirstSeen(items)[n];
    i := FirstOfBranch(items, b);
    OfBranchNotEmpty(items, b);
  }

  lemma {:induction false} SeenBefore(items: seq<HoldItem>, m: nat, n: nat) returns (i: nat)
    requires m < n < |FirstSeen(items)|
    ensures i < |items| && items[i].key.branch == FirstSeen(items)[m]
    ensures forall j | 0 <= j <= i :: items[j].key.branch != FirstSeen(items)[n]
  {
    var last := |items| - 1;
    var before := FirstSeen(items[..last]);
    if n < |before| {
      i := SeenBefore(items[..last], m, n);
      assert items[..last][i] == items[i] && forall j | 0 <= j <= i :: items[..last][j] == items[j];
    } else {
      FirstSeenLists(items[..last]);
      assert before[m] in before;
      i :| 0 <= i < last && items[..last][i].key.branch == before[m];
      assert items[..last][i] == items[i];
      forall j | 0 <= j < last ensures items[j].key.branch != FirstSeen(items)[n] {
        assert items[..last][j].key.branch in BranchesOf(items[..last]) && items[..last][j] == items[j];
      }
    }
  }

  /** The orders stand in the order in which their branches first appear among the items. */
  lemma OrdersFollowItems(items: seq<HoldItem>, fees: map<Id, nat>, orders: seq<BranchOrder>, m: nat, n: nat)
    returns (i: nat)
    requires AreOrdersOf(items, fees, orders) && m < n < |orders|
    ensures i < |items| && items[i].key.branch == orders[m].branch
    ensures forall j | 0 <= j <= i :: items[j].key.branch != orders[n].branch
  {
    i := SeenBefore(items, m, n);
  }

  // ---- what each path may do

  predicate HasRefund(o: Order, target: Option<nat>)
  {
    exists n | 0 <= n < |o.refunds| :: o.refunds[n].item == target
  }

  /**
   * Cancelling needs an open order and items that are still wanted, conversion an open delivery, a
   * return a closed order and an item kept and not yet refunded.
   */
  lemma AllowedIff(o: Order, items: seq<nat>, i: nat, amount: nat)
    ensures Allowed(o, Cancel(items)) <==>
            && !o.closed && items != []
            && (forall k | k in items :: k < |o.items| && !o.items[k].cancelled)
            && forall m, n | 0 <= m < n < |items| :: items[m] != items[n]
    ensures Allowed(o, Complete) <==> !o.closed
    ensures Allowed(o, Convert) <==> !o.closed && !o.pickup
    ensures Allowed(o, Return(i, amount)) <==>
            && o.closed && i < |o.items| && !o.items[i].cancelled && !HasRefund(o, Some(i))
            && amount <= o.items[i].unitPrice * o.items[i].quantity
  {
    if n :| 0 <= n < |o.refunds| && o.refunds[n].item == Some(i) { assert ItemRefunded(o, i); }
  }

  /** Each cancelled item in turn, for its whole price. */
  function ItemRefunds(o: Order, items: seq<nat>): seq<Refund>
    requires forall k | k in items :: k < |o.items|
  {
    seq(|items|, n requires 0 <= n < |items| =>
      assert items[n] in items;
      Refund(Some(items[n]), o.items[items[n]].unitPrice * o.items[items[n]].quantity))
  }

  /** Exactly the items named are marked, and an online order refunds each of them whole. */
  predicate MarksAndRefunds(o: Order, after: Order, items: seq<nat>)
    requires forall k | k in items :: k < |o.items|
  {
    && after == o.(items := after.items, refunds := after.refunds)
    && |after.items| == |o.items|
    && (forall k | 0 <= k < |o.items| ::
          after.items[k] == Item(o.items[k].unitPrice, o.items[k].quantity, o.items[k].cancelled || k in items))
    && after.refunds == o.refunds + if o.online then ItemRefunds(o, items) else []
  }

  lemma {:induction false} CancelAllDoes(o: Order, items: seq<nat>)
    requires forall k | k in items :: k < |o.items|
    ensures forall n | 0 <= n < |items| :: items[n] < |o.items|
    ensures MarksAndRefunds(o, CancelAll(o, items), items)
  {
    hide MarksAndRefunds, CancelItem, ItemRefunds;
    assert forall n | 0 <= n < |items| :: items[n] in items;
    if items == [] {
      NothingMarked(o);
    } else {
      var last := |items| - 1;
      assert items == items[..last] + [items[last]];
      CancelAllDoes(o, items[..last]);
      MarkOneMore(o, CancelAll(o, items[..last]), items[..last], items[last]);
      CancelLast(o, items);
    }
  }

  lemma NothingMarked(o: Order)
    ensures MarksAndRefunds(o, o, [])
  {
  }

  lemma MarkOneMore(o: Order, mid: Order, items: seq<nat>, i: nat)
    requires i < |o.items| && (forall k | k in items :: k < |o.items|) && MarksAndRefunds(o, mid, items)
    ensures forall k | k in items + [i] :: k < |o.items|
    ensures MarksAndRefunds(o, CancelItem(mid, i), items + [i])
  {
    hide CancelItem, ItemRefunds;
    CancelOneDoes(mid, i);
    OneMoreItemRefund(o, items, i);
  }

  lemma CancelLast(o: Order, items: seq<nat>)
    requires items != [] && forall n | 0 <= n < |items| :: items[n] < |o.items|
    ensures CancelAll(o, items) == CancelItem(CancelAll(o, items[..|items| - 1]), items[|items| - 1])
  {
  }

  lemma CancelOneDoes(o: Order, i: nat)
    requires i < |o.items|
    ensures CancelItem(o, i) ==
            o.(items := o.items[i := Item(o.items[i].unitPrice, o.items[i].quantity, true)],
               refunds := o.refunds
                          + if o.online then [Refund(Some(i), o.items[i].unitPrice * o.items[i].quantity)] else [])
  {
  }

  lemma OneMoreItemRefund(o: Order, items: seq<nat>, i: nat)
    requires i < |o.items| && forall k | k in items :: k < |o.items|
    ensures forall k | k in items + [i] :: k < |o.items|
    ensures ItemRefunds(o, items + [i]) ==
            ItemRefunds(o, items) + [Refund(Some(i), o.items[i].unitPrice * o.items[i].quantity)]
  {
    var all := items + [i];
    assert forall n | 0 <= n < |items| :: all[n] == items[n];
  }

  /**
   * What each path writes. Cancelling marks exactly the items named and refunds each for its whole price
   * if the order was paid online; an order left without items closes, and an online delivery's fee goes
   * back. Converting turns the delivery into a pickup and gives a fee back. Nothing else changes.
   */
  lemma CancelDoes(o: Order, items: seq<nat>)
    requires Allowed(o, Cancel(items))
    ensures forall k | k in items :: k < |o.items|
    ensures var after := Apply(o, Cancel(items));
            var emptied := forall k | 0 <= k < |o.items| :: o.items[k].cancelled || k in items;
            && after == o.(items := after.items, refunds := after.refunds, closed := emptied)
            && |after.items| == |o.items|
            && (forall k | 0 <= k < |o.items| ::
                  after.items[k] == Item(o.items[k].unitPrice, o.items[k].quantity, o.items[k].cancelled || k in items))
            && after.refunds ==
               o.refunds + (if o.online then ItemRefunds(o, items) else [])
               + match o.deliveryFee
                 case Some(fee) => if emptied && o.online && !o.pickup then [Refund(None, fee)] else []
                 case None => []
  {
    AllowedIff(o, items, 0, 0);
    CancelAllDoes(o, items);
    var mid := CancelAll(o, items);
    assert NoneActive(mid) <==> forall k | 0 <= k < |o.items| :: o.items[k].cancelled || k in items;
  }

  lemma OtherPathsDo(o: Order, i: nat, amount: nat)
    ensures Allowed(o, Complete) ==> Apply(o, Complete) == o.(closed := true)
    ensures Allowed(o, Convert) ==>
              Apply(o, Convert) ==
              o.(pickup := true,
                 refunds := o.refunds + match o.deliveryFee
                                        case Some(fee) => if fee > 0 then [Refund(None, fee)] else []
                                        case None => [])
    ensures Allowed(o, Return(i, amount)) ==>
              Apply(o, Return(i, amount)) == o.(refunds := o.refunds + [Refund(Some(i), amount)])
  {
  }

  // ---- nothing is left out

  predicate Gives(o: Order, target: Option<nat>, amount: nat)
  {
    exists n | 0 <= n < |o.refunds| :: o.refunds[n] == Refund(target, amount)
  }

  predicate EmptiedOut(o: Order)
  {
    o.items != [] && forall i | 0 <= i < |o.items| :: o.items[i].cancelled
  }

  /**
   * Whoever paid online has every cancelled item back, whole; nobody else has an item back before the
   * order is closed.
   */
  predicate ItemsSettled(o: Order)
  {
    && (o.online ==> forall i | 0 <= i < |o.items| && o.items[i].cancelled ::
          Gives(o, Some(i), o.items[i].unitPrice * o.items[i].quantity))
    && (!o.online && !o.closed ==> forall n | 0 <= n < |o.refunds| :: o.refunds[n].item == None)
  }

  /** The fee comes back whole, when the delivery became a pickup or an online delivery came to nothing. */
  predicate FeeSettled(o: Order)
  {
    && (o.pickup && Fee(o) > 0 ==> Gives(o, None, Fee(o)))
    && (o.online && !o.pickup && o.deliveryFee.Some? && EmptiedOut(o) ==> o.closed && Gives(o, None, Fee(o)))
    && (forall n | 0 <= n < |o.refunds| && o.refunds[n].item == None :: o.refunds[n].amount == Fee(o))
  }

  predicate Settled(o: Order)
  {
    ItemsSettled(o) && FeeSettled(o)
  }

  lemma MoreRefundsGive(o: Order, after: Order, more: seq<Refund>, target: Option<nat>, amount: nat)
    requires after.refunds == o.refunds + more
    ensures Gives(o, target, amount) ==> Gives(after, target, amount)
    ensures Refund(target, amount) in more ==> Gives(after, target, amount)
  {
    if Gives(o, target, amount) {
      var n :| 0 <= n < |o.refunds| && o.refunds[n] == Refund(target, amount);
      assert after.refunds[n] == Refund(target, amount);
    }
    if Refund(target, amount) in more {
      var n :| 0 <= n < |more| && more[n] == Refund(target, amount);
      assert after.refunds[|o.refunds| + n] == Refund(target, amount);
    }
  }

  /** The refunds a cancellation adds: its items', and perhaps the fee. */
  lemma CancelAdds(o: Order, items: seq<nat>) returns (own: seq<Refund>, fee: seq<Refund>)
    requires Allowed(o, Cancel(items))
    ensures forall k | k in items :: k < |o.items|
    ensures own == if o.online then ItemRefunds(o, items) else []
    ensures fee == if Apply(o, Cancel(items)).closed && o.online && !o.pickup && o.deliveryFee.Some?
                   then [Refund(None, Fee(o))] else []
    ensures Apply(o, Cancel(items)).refunds == o.refunds + (own + fee)
  {
    hide Apply, Allowed, ItemRefunds;
    CancelDoes(o, items);
    own := if o.online then ItemRefunds(o, items) else [];
    fee := if Apply(o, Cancel(items)).closed && o.online && !o.pickup && o.deliveryFee.Some?
           then [Refund(None, Fee(o))] else [];
  }

  lemma CancelSettlesItems(o: Order, items: seq<nat>)
    requires ItemsSettled(o) && Allowed(o, Cancel(items))
    ensures ItemsSettled(Apply(o, Cancel(items)))
  {
    hide Apply, Allowed, Gives, ItemRefunds;
    AllowedIff(o, items, 0, 0);
    CancelDoes(o, items);
    var own, fee := CancelAdds(o, items);
    ItemRefundsAre(o, items);
    var after := Apply(o, Cancel(items));
    forall i | o.online && 0 <= i < |after.items| && after.items[i].cancelled
      ensures Gives(after, Some(i), after.items[i].unitPrice * after.items[i].quantity)
    {
      var amount := o.items[i].unitPrice * o.items[i].quantity;
      MoreRefundsGive(o, after, own + fee, Some(i), amount);
      if i in items { assert Refund(Some(i), amount) in own; }
    }
  }

  lemma CancelSettlesFee(o: Order, items: seq<nat>)
    requires FeeSettled(o) && Allowed(o, Cancel(items))
    ensures FeeSettled(Apply(o, Cancel(items)))
  {
    hide Apply, Allowed, Gives, ItemRefunds;
    CancelDoes(o, items);
    var own, fee := CancelAdds(o, items);
    ItemRefundsAre(o, items);
    var after := Apply(o, Cancel(items));
    MoreRefundsGive(o, after, own + fee, None, Fee(o));
    forall n | 0 <= n < |after.refunds| && after.refunds[n].item == None ensures after.refunds[n].amount == Fee(after) {
      if n >= |o.refunds| { assert after.refunds[n] == (own + fee)[n - |o.refunds|]; }
    }
  }

  lemma ItemRefundsAre(o: Order, items: seq<nat>)
    requires forall k | k in items :: k < |o.items|
    ensures forall n | 0 <= n < |ItemRefunds(o, items)| :: ItemRefunds(o, items)[n].item.Some?
    ensures forall i | i in items :: Refund(Some(i), o.items[i].unitPrice * o.items[i].quantity) in ItemRefunds(o, items)
  {
    forall i | i in items ensures Refund(Some(i), o.items[i].unitPrice * o.items[i].quantity) in ItemRefunds(o, items) {
      var n :| 0 <= n < |items| && items[n] == i;
      assert ItemRefunds(o, items)[n] == Refund(Some(i), o.items[i].unitPrice * o.items[i].quantity);
    }
  }

  lemma StepKeepsSettled(o: Order, op: MoneyOp)
    requires Settled(o) && Allowed(o, op)
    ensures Settled(Apply(o, op))
  {
    var after := Apply(o, op);
    match op
    case Cancel(items) =>
      CancelSettlesItems(o, items);
      CancelSettlesFee(o, items);
    case Complete =>
      forall target, amount ensures Gives(after, target, amount) <==> Gives(o, target, amount) {
      }
    case Convert =>
      forall target, amount ensures Gives(o, target, amount) ==> Gives(after, target, amount) {
        MoreRefundsGive(o, after, after.refunds[|o.refunds|..], target, amount);
      }
      if Fee(o) > 0 { assert after.refunds[|o.refunds|] == Refund(None, Fee(o)); }
    case Return(i, amount) =>
      forall target, a ensures Gives(o, target, a) ==> Gives(after, target, a) {
        MoreRefundsGive(o, after, [Refund(Some(i), amount)], target, a);
      }
  }

  /** An order as confirm writes it: nothing cancelled or refunded, and pickup exactly where no fee was agreed. */
  predicate New(o: Order)
  {
    !o.closed && o.refunds == [] && (o.pickup <==> o.deliveryFee.None?)
    && o.items != [] && forall i | 0 <= i < |o.items| :: !o.items[i].cancelled
  }

  lemma NewIsSettled(o: Order)
    requires New(o)
    ensures Settled(o)
  {
    assert !o.items[0].cancelled;
  }

  lemma {:induction false} SettledThroughout(o: Order, ops: seq<MoneyOp>)
    requires Settled(o) && Runs(o, ops)
    ensures Settled(After(o, ops))
    decreases |ops|
  {
    hide Settled;
    if ops != [] {
      StepKeepsSettled(o, ops[0]);
      SettledThroughout(Apply(o, ops[0]), ops[1..]);
    }
  }

  /**
   * Over an order's whole life the refunds owed are made, and whole: each cancelled item of an order
   * paid online, the fee of a delivery that became a pickup, and the fee of an online delivery that lost
   * all its items, which is then closed.
   */
  lemma RefundsAreMade(o: Order, ops: seq<MoneyOp>, i: nat)
    requires New(o) && Runs(o, ops)
    ensures var last := After(o, ops);
            && (last.online && i < |last.items| && last.items[i].cancelled ==>
                  Gives(last, Some(i), last.items[i].unitPrice * last.items[i].quantity))
            && (last.pickup && last.deliveryFee.Some? && last.deliveryFee.value > 0 ==> Gives(last, None, last.deliveryFee.value))
            && (last.online && !last.pickup && last.deliveryFee.Some? && EmptiedOut(last) ==>
                  last.closed && Gives(last, None, last.deliveryFee.value))
  {
    NewIsSettled(o);
    SettledThroughout(o, ops);
  }

  // ---- the two computations of what is left

  lemma {:induction false} RefundedOnceIs(refunds: seq<Refund>, target: Option<nat>, amount: nat)
    requires forall m, n | 0 <= m < n < |refunds| :: refunds[m].item != refunds[n].item
    requires exists n :: 0 <= n < |refunds| && refunds[n] == Refund(target, amount)
    ensures RefundedOn(refunds, target) == amount
  {
    var k := |refunds| - 1;
    if refunds[k].item == target {
      NotRefunded(refunds[..k], target);
    } else {
      var n :| 0 <= n < |refunds| && refunds[n] == Refund(target, amount);
      assert refunds[..k][n] == Refund(target, amount);
      RefundedOnceIs(refunds[..k], target, amount);
    }
  }

  /** No item of the order that was not cancelled has been refunded: there was no return. */
  predicate NoReturns(o: Order)
  {
    forall n | 0 <= n < |o.refunds| ::
      o.refunds[n].item.Some? ==> o.refunds[n].item.value < |o.items| && o.items[o.refunds[n].item.value].cancelled
  }

  lemma {:induction false} ItemsRefundedAre(o: Order, n: nat)
    requires LedgerOk(o) && Settled(o) && o.online && NoReturns(o) && n <= |o.items|
    ensures RefundedOnItems(o.refunds, n) == CancelledTotal(o.items[..n])
  {
    if n > 0 {
      ItemsRefundedAre(o, n - 1);
      assert o.items[..n][..n - 1] == o.items[..n - 1];
      if o.items[n - 1].cancelled {
        assert Gives(o, Some(n - 1), o.items[n - 1].unitPrice * o.items[n - 1].quantity);
        RefundedOnceIs(o.refunds, Some(n - 1), o.items[n - 1].unitPrice * o.items[n - 1].quantity);
      } else {
        NotRefunded(o.refunds, Some(n - 1));
      }
    }
  }

  /**
   * Without returns, what is due on an online order is exactly what could still be refunded: the customer has paid for
   * what is still wanted, no more and no less.
   */
  lemma DueIsRemaining(o: Order)
    requires LedgerOk(o) && Settled(o) && o.online && NoReturns(o)
    ensures ComputeAmountDue(Total(o), o.items, FeeRefunded(o), o.deliveryFee)
            == ComputeRemainingRefundable(Total(o), o.refunds)
  {
    RefundsByTarget(o.refunds, |o.items|);
    ItemsRefundedAre(o, |o.items|);
    assert o.items[..|o.items|] == o.items;
    if FeeRefunded(o) {
      var n :| 0 <= n < |o.refunds| && o.refunds[n].item.None?;
      assert o.refunds[n] == Refund(None, Fee(o));
      RefundedOnceIs(o.refunds, None, Fee(o));
    } else {
      NotRefunded(o.refunds, None);
    }
  }

  /**
   * Hence, while an online order is open, what is due and what can still be refunded are one number;
   * cancelled whole, both are nothing.
   */
  lemma OnlineMoneyAgrees(o: Order, ops: seq<MoneyOp>)
    requires New(o) && o.online && Runs(o, ops)
    ensures var last := After(o, ops);
            var due := ComputeAmountDue(Total(last), last.items, FeeRefunded(last), last.deliveryFee);
            && (!last.closed || NoReturns(last) ==> due == ComputeRemainingRefundable(Total(last), last.refunds))
            && (EmptiedOut(last) && NoReturns(last) ==> due == 0)
  {
    hide Settled;
    NewIsSettled(o);
    RefundsNeverExceedTotal(o, ops);
    SettledThroughout(o, ops);
    var last := After(o, ops);
    if !last.closed { OpenMeansNoReturns(last); }
    if NoReturns(last) {
      OnlineStays(o, ops);
      DueIsRemaining(last);
      if EmptiedOut(last) { AllCancelledDueNothing(last); }
    }
  }

  lemma OpenMeansNoReturns(o: Order)
    requires OrderInv(o) && !o.closed
    ensures NoReturns(o)
  {
  }

  lemma {:induction false} OnlineStays(o: Order, ops: seq<MoneyOp>)
    requires o.items != [] && Runs(o, ops)
    ensures After(o, ops).online == o.online && After(o, ops).items != []
    decreases |ops|
  {
    if ops != [] {
      if ops[0].Cancel? { CancelDoes(o, ops[0].items); }
      OnlineStays(Apply(o, ops[0]), ops[1..]);
    }
  }

  lemma AllCancelledDueNothing(o: Order)
    requires Settled(o) && o.online && EmptiedOut(o)
    ensures ComputeAmountDue(Total(o), o.items, FeeRefunded(o), o.deliveryFee) == 0
  {
    AmountDueIsWhatIsLeft(o);
    NothingWanted(o.items);
    if Fee(o) > 0 {
      assert Gives(o, None, Fee(o));
      var n :| 0 <= n < |o.refunds| && o.refunds[n] == Refund(None, Fee(o));
      assert FeeRefunded(o);
    }
  }

  lemma {:induction false} NothingWanted(items: seq<Item>)
    requires forall i | 0 <= i < |items| :: items[i].cancelled
    ensures SumOf(items, false) == 0
  {
    if items != [] { NothingWanted(items[..|items| - 1]); }
  }

  /**
   * The total is price times quantity over all items, and the fee; cancelling an item lowers what is due
   * by exactly its price times its quantity.
   */
  lemma {:induction false} CancellingLowersDue(o: Order, i: nat)
    requires i < |o.items| && !o.items[i].cancelled
    ensures var fewer := o.items[i := o.items[i].(cancelled := true)];
            && SumOf(fewer, true) == SumOf(o.items, true)
            && CancelledTotal(fewer) == CancelledTotal(o.items) + o.items[i].unitPrice * o.items[i].quantity
            && forall total, refunded ::
                 ComputeAmountDue(total, fewer, refunded, o.deliveryFee)
                 == ComputeAmountDue(total, o.items, refunded, o.deliveryFee) - o.items[i].unitPrice * o.items[i].quantity
    decreases |o.items|
  {
    var fewer := o.items[i := o.items[i].(cancelled := true)];
    var last := |o.items| - 1;
    if i < last {
      CancellingLowersDue(o.(items := o.items[..last]), i);
      assert fewer[..last] == o.items[..last][i := o.items[i].(cancelled := true)];
    } else {
      assert fewer[..last] == o.items[..last];
    }
  }
}
