/**
 * What browsing means on the products' own figures: which product comes before which, what a page holds,
 * and which offer a card shows.
 */
module BrowseRules {
  import opened Common
  import opened Browse
  import LockOrder

  // ---- the order of products

  /**
   * Under the trend filter more stores come first. Then the chosen order: cheaper, dearer, or more discounting
   * stores and then cheaper. Then the newer product, and last the greater id.
   */
  predicate ComesFirst(f: Facts, g: Facts, sort: SortBy, filter: Filter)
  {
    if filter == Trend && f.storeCount != g.storeCount then f.storeCount > g.storeCount
    else if sort == PriceAscending && f.sortPrice != g.sortPrice then f.sortPrice < g.sortPrice
    else if sort == PriceDescending && f.sortPrice != g.sortPrice then f.sortPrice > g.sortPrice
    else if sort == Discounts && f.discountedStoreCount != g.discountedStoreCount
    then f.discountedStoreCount > g.discountedStoreCount
    else if sort == Discounts && f.sortPrice != g.sortPrice then f.sortPrice < g.sortPrice
    else if f.createdAt != g.createdAt then f.createdAt > g.createdAt
    else LockOrder.Before(g.id, f.id)
  }

  lemma PrependedParts(p: Part, q: Part, a: Key, b: Key)
    ensures KeyBefore([p] + a, [q] + b) <==> if p == q then KeyBefore(a, b) else PartBefore(p, q)
  {
    assert ([p] + a)[1..] == a && ([q] + b)[1..] == b;
  }

  /** Keys compare as the products' figures do. */
  lemma KeysOrderProducts(f: Facts, g: Facts, sort: SortBy, filter: Filter)
    ensures KeyBefore(SortKey(f, sort, filter), SortKey(g, sort, filter)) <==> ComesFirst(f, g, sort, filter)
  {
    hide KeyBefore;
    var lastF, lastG := [Str(f.id)], [Str(g.id)];
    LastPart(f.id, g.id);
    var newF, newG := [Num(-f.createdAt)] + lastF, [Num(-g.createdAt)] + lastG;
    PrependedParts(Num(-f.createdAt), Num(-g.createdAt), lastF, lastG);
    var priceF, priceG := [Num(f.sortPrice)] + newF, [Num(g.sortPrice)] + newG;
    PrependedParts(Num(f.sortPrice), Num(g.sortPrice), newF, newG);
    var dearF, dearG := [Num(-f.sortPrice)] + newF, [Num(-g.sortPrice)] + newG;
    PrependedParts(Num(-f.sortPrice), Num(-g.sortPrice), newF, newG);
    var mostF, mostG := Num(-(f.discountedStoreCount as int)), Num(-(g.discountedStoreCount as int));
    PrependedParts(mostF, mostG, priceF, priceG);
    var bySortF := match sort
      case PriceAscending => priceF case PriceDescending => dearF case Discounts => [mostF] + priceF case Newest => newF;
    var bySortG := match sort
      case PriceAscending => priceG case PriceDescending => dearG case Discounts => [mostG] + priceG case Newest => newG;
    PrependedParts(Num(-(f.storeCount as int)), Num(-(g.storeCount as int)), bySortF, bySortG);
    KeyIs(f, sort, filter);
    KeyIs(g, sort, filter);
  }

  lemma LastPart(s: string, t: string)
    ensures KeyBefore([Str(s)], [Str(t)]) <==> LockOrder.Before(t, s)
  {
    LockOrder.BeforeIrreflexive(s);
  }

  lemma KeyIs(f: Facts, sort: SortBy, filter: Filter)
    ensures var newest := [Num(-f.createdAt)] + [Str(f.id)];
            var price := [Num(f.sortPrice)] + newest;
            var bySort := match sort
              case PriceAscending => price
              case PriceDescending => [Num(-f.sortPrice)] + newest
              case Discounts => [Num(-(f.discountedStoreCount as int))] + price
              case Newest => newest;
            SortKey(f, sort, filter) == if filter == Trend then [Num(-(f.storeCount as int))] + bySort else bySort
  {
  }

  /**
   * The listing of a query as products: the ones whose text matches, with a discount or with more than one store
   * if the filter asks for it, each once, and each before all it comes first of.
   */
  lemma ListingMeans(rows: seq<Row>, facts: seq<Facts>, q: Query) returns (listed: seq<Facts>)
    requires IsListingOf(rows, facts, q)
    requires forall m, n | 0 <= m < n < |facts| :: facts[m].id != facts[n].id
    ensures |listed| == |rows| && forall n | 0 <= n < |rows| :: rows[n].id == listed[n].id && listed[n] in facts
    ensures forall f | f in facts ::
              f in listed <==> && f.searchMatches && (q.filter == OnlyDiscounts ==> f.discountedStoreCount > 0)
                               && (q.filter == Trend ==> f.storeCount > 1)
    ensures forall m, n | 0 <= m < n < |listed| ::
              listed[m].id != listed[n].id && ComesFirst(listed[m], listed[n], q.sort, q.filter)
  {
    hide KeyBefore, SameShape, SortKey, ComesFirst;
    listed := Products(rows, facts, q);
    forall f | f in facts ensures f in listed <==> Matches(f, q.filter) {
      if Matches(f, q.filter) {
        var k :| 0 <= k < |facts| && facts[k] == f;
        assert RowOf(f, q.sort, q.filter) in rows;
        var n :| 0 <= n < |rows| && rows[n] == RowOf(f, q.sort, q.filter);
        assert listed[n].id == f.id;
        var j :| 0 <= j < |facts| && facts[j] == listed[n];
        assert j == k;
      }
      if f in listed { var n :| 0 <= n < |listed| && listed[n] == f; }
    }
    forall m, n | 0 <= m < n < |listed|
      ensures listed[m].id != listed[n].id && ComesFirst(listed[m], listed[n], q.sort, q.filter)
    {
      KeysOrderProducts(listed[m], listed[n], q.sort, q.filter);
      OneProductOneRow(rows, facts, listed, q, m, n);
    }
  }

  lemma OneProductOneRow(rows: seq<Row>, facts: seq<Facts>, listed: seq<Facts>, q: Query, m: nat, n: nat)
    requires Listing(rows) && |listed| == |rows| && m < n < |rows|
    requires forall i, j | 0 <= i < j < |facts| :: facts[i].id != facts[j].id
    requires forall i | 0 <= i < |rows| :: listed[i] in facts && rows[i] == RowOf(listed[i], q.sort, q.filter)
    ensures listed[m].id != listed[n].id
  {
    hide KeyBefore, SameShape, SortKey;
    if listed[m].id == listed[n].id {
      var i :| 0 <= i < |facts| && facts[i] == listed[m];
      var j :| 0 <= j < |facts| && facts[j] == listed[n];
      assert i == j;
      KeyIrreflexive(rows[m].key);
    }
  }

  lemma {:induction false} Products(rows: seq<Row>, facts: seq<Facts>, q: Query) returns (listed: seq<Facts>)
    requires forall x | x in rows ::
               exists n :: 0 <= n < |facts| && Matches(facts[n], q.filter) && x == RowOf(facts[n], q.sort, q.filter)
    ensures |listed| == |rows|
    ensures forall n | 0 <= n < |rows| ::
              listed[n] in facts && Matches(listed[n], q.filter) && rows[n] == RowOf(listed[n], q.sort, q.filter)
  {
    hide SortKey;
    if rows == [] {
      listed := [];
    } else {
      assert rows == [rows[0]] + rows[1..];
      assert forall x | x in rows[1..] :: x in rows;
      var rest := Products(rows[1..], facts, q);
      assert rows[0] in rows;
      var n :| 0 <= n < |facts| && Matches(facts[n], q.filter) && rows[0] == RowOf(facts[n], q.sort, q.filter);
      listed := [facts[n]] + rest;
    }
  }

  // ---- pages

  /**
   * A page has no more rows than were asked for, and a next cursor, its own last key, exactly while rows
   * are left behind it.
   */
  lemma PageIsFull(rows: seq<Row>, cursor: Option<Key>, size: nat)
    requires Listing(rows) && CursorFits(cursor, rows)
    ensures var page, next := PageOf(rows, cursor, size), NextCursor(rows, cursor, size);
            && |page| <= size
            && (next.Some? ==> |page| == size > 0 && next.value == page[|page| - 1].key)
            && (size > 0 ==> (next.None? <==> forall row | row in rows && Past(cursor, row.key) :: row in page))
  {
    hide KeyBefore, SameShape, Listing, StartOf, Past, CursorFits;
    PageCut(rows, cursor, size);
    var start, page := StartOf(rows, cursor), PageOf(rows, cursor, size);
    if size > 0 && HasMore(rows, cursor, size) {
      NextIsLast(rows, cursor, size);
      PastIsSuffix(rows, cursor, start + size);
      InPageIff(rows, cursor, size, start + size);
      assert rows[start + size] in rows && rows[start + size] !in page;
    }
    forall row | size > 0 && !HasMore(rows, cursor, size) && row in rows && Past(cursor, row.key) ensures row in page {
      var n :| 0 <= n < |rows| && rows[n] == row;
      PastIsSuffix(rows, cursor, n);
      assert rows[start..][n - start] == row;
    }
  }

  // ---- the card

  /**
   * The card's offer is in stock if any is, and among those nothing is cheaper; at the same price its
   * store is as old as any, and of the same age none has a smaller id. Stores are counted once each, a
   * store as discounting if it has an offer in stock below its base price.
   */
  lemma CardShows(offers: seq<Offer>, card: Card, o: Offer)
    requires IsAggregate(offers, card.lowestPrice, card.storeCount, card.discountedStoreCount)
    requires IsCheapest(offers, card.cheapest) && card.lowestPrice == card.cheapest.price
    requires o in offers
    ensures card.cheapest in offers
    ensures o.available > 0 ==> card.cheapest.available > 0
    ensures o.available > 0 || card.cheapest.available == 0 ==>
              && card.lowestPrice <= o.price
              && (o.price == card.lowestPrice ==>
                    && card.cheapest.vendorCreatedAt <= o.vendorCreatedAt
                    && (o.vendorCreatedAt == card.cheapest.vendorCreatedAt ==>
                          o.id == card.cheapest.id || LockOrder.Before(card.cheapest.id, o.id)))
    ensures card.storeCount == |set n | 0 <= n < |offers| :: offers[n].vendor|
    ensures card.discountedStoreCount ==
            |set n | 0 <= n < |offers| && offers[n].available > 0 && offers[n].price < offers[n].basePrice :: offers[n].vendor|
  {
    var n :| 0 <= n < |offers| && offers[n] == o;
    LockOrder.BeforeTotal(o.id, card.cheapest.id);
    assert !(o.available > 0 || card.cheapest.available == 0) || !Cheaper(o, card.cheapest);
    assert DiscountingVendors(offers) ==
        set k | 0 <= k < |offers| && offers[k].available > 0 && offers[k].price < offers[k].basePrice :: offers[k].vendor;
  }

  // ---- numbers as text

  /** The number a decimal numeral stands for. */
  function ValueOf(s: string): int
  {
    if s == "" then 0 else ValueOf(s[..|s| - 1]) * 10 + (s[|s| - 1] as int - '0' as int)
  }

  /** `String(n)`: decimal digits that stand for the number, without a leading zero. */
  lemma {:induction false} DigitsAreDecimal(n: nat)
    ensures ValueOf(Digits(n)) == n && Digits(n) != ""
    ensures forall c | c in Digits(n) :: '0' <= c <= '9'
    ensures n > 0 ==> Digits(n)[0] != '0'
  {
    var all := "0123456789";
    assert forall d | 0 <= d < 10 :: all[d] as int == '0' as int + d;
    if n < 10 {
      assert Digits(n)[..0] == "";
    } else {
      DigitsAreDecimal(n / 10);
      var head := Digits(n / 10);
      assert Digits(n)[..|Digits(n)| - 1] == head;
    }
  }
}
