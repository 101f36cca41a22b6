/**
 * Cursor-paginated browsing. Products are ordered by a key that ends in the product id; a cursor
 * is the last key of a page. The facts products are sorted by are the ones their cards show.
 */
module Browse {
  import opened Common
  import LockOrder

  // ---- sort keys

  datatype Part = Num(n: int) | Str(s: string)

  type Key = seq<Part>

  predicate SameShape(a: Key, b: Key)
  {
    |a| == |b| && forall i | 0 <= i < |a| :: a[i].Num? == b[i].Num?
  }

  /** Numbers ascend, ids descend by code units. */
  predicate PartBefore(x: Part, y: Part)
  {
    match (x, y)
    case (Num(m), Num(n)) => m < n
    case (Str(s), Str(t)) => LockOrder.Before(t, s)
    case _ => false
  }

  predicate KeyBefore(a: Key, b: Key)
  {
    if a == [] || b == [] then false
    else if a[0] == b[0] then KeyBefore(a[1..], b[1..])
    else PartBefore(a[0], b[0])
  }

  lemma PartOrder(x: Part, y: Part, z: Part)
    requires x.Num? == y.Num? == z.Num?
    ensures !PartBefore(x, x)
    ensures PartBefore(x, y) && PartBefore(y, z) ==> PartBefore(x, z)
    ensures PartBefore(x, y) || x == y || PartBefore(y, x)
    ensures !(PartBefore(x, y) && PartBefore(y, x))
  {
    if x.Str? {
      LockOrder.BeforeIrreflexive(x.s);
      LockOrder.BeforeTotal(x.s, y.s);
      if PartBefore(x, y) && PartBefore(y, z) { LockOrder.BeforeTransitive(z.s, y.s, x.s); }
      if PartBefore(x, y) && PartBefore(y, x) { LockOrder.BeforeTransitive(x.s, y.s, x.s); }
    }
  }

  lemma {:induction false} KeyIrreflexive(a: Key)
    ensures !KeyBefore(a, a)
  {
    if a != [] { KeyIrreflexive(a[1..]); }
  }

  lemma {:induction false} KeyTransitive(a: Key, b: Key, c: Key)
    requires SameShape(a, b) && SameShape(b, c) && KeyBefore(a, b) && KeyBefore(b, c)
    ensures KeyBefore(a, c)
  {
    PartOrder(a[0], b[0], c[0]);
    if a[0] == b[0] == c[0] { KeyTransitive(a[1..], b[1..], c[1..]); }
  }

  lemma {:induction false} KeyTotal(a: Key, b: Key)
    requires SameShape(a, b)
    ensures KeyBefore(a, b) || a == b || KeyBefore(b, a)
  {
    if a != [] {
      PartOrder(a[0], b[0], a[0]);
      assert a == [a[0]] + a[1..] && b == [b[0]] + b[1..];
      if a[0] == b[0] { KeyTotal(a[1..], b[1..]); }
    }
  }

  lemma KeyAsymmetric(a: Key, b: Key)
    requires SameShape(a, b) && KeyBefore(a, b)
    ensures !KeyBefore(b, a)
  {
    KeyIrreflexive(a);
    if KeyBefore(b, a) { KeyTransitive(a, b, a); }
  }

  function Digits(n: nat): string
  {
    if n < 10 then ["0123456789"[n]] else Digits(n / 10) + ["0123456789"[n % 10]]
  }

  /** A part as text; a part that is missing reads as the word. */
  function TextOf(p: Option<Part>): string
  {
    match p
    case None => "undefined"
    case Some(Num(n)) => if n < 0 then "-" + Digits(-n) else Digits(n)
    case Some(Str(s)) => s
  }

  function PartAt(a: Key, i: nat): Option<Part>
  {
    if i < |a| then Some(a[i]) else None
  }

  /**
   * The comparison as the code makes it, of any two keys, from part `i` on: the first parts that differ
   * decide, numbers among themselves by value and anything else as text, descending.
   */
  function Comparison(a: Key, b: Key, i: nat): int
    decreases |a| + |b| - i
  {
    var x, y := PartAt(a, i), PartAt(b, i);
    if |a| <= i && |b| <= i then 0
    else if x == y then Comparison(a, b, i + 1)
    else if x.Some? && y.Some? && x.value.Num? && y.value.Num? then x.value.n - y.value.n
    else if LockOrder.Before(TextOf(x), TextOf(y)) then 1
    else -1
  }

  lemma {:induction false} ComparisonFrom(a: Key, b: Key, i: nat)
    requires SameShape(a, b) && i <= |a|
    ensures Comparison(a, b, i) < 0 <==> KeyBefore(a[i..], b[i..])
    ensures Comparison(a, b, i) > 0 <==> KeyBefore(b[i..], a[i..])
    decreases |a| - i
  {
    if i < |a| {
      ComparisonFrom(a, b, i + 1);
      assert a[i..][1..] == a[i + 1..] && b[i..][1..] == b[i + 1..];
      PartOrder(a[i], b[i], a[i]);
    }
  }

  /** On keys of one shape the comparison is the strict total order of the keys. */
  lemma ComparisonIsOrder(a: Key, b: Key)
    requires SameShape(a, b)
    ensures Comparison(a, b, 0) < 0 <==> KeyBefore(a, b)
    ensures Comparison(a, b, 0) > 0 <==> KeyBefore(b, a)
  {
    ComparisonFrom(a, b, 0);
    assert a[0..] == a && b[0..] == b;
  }

  /** The comparison loop, on any two keys: a negative, zero or positive answer. */
  method CompareKeys(a: Key, b: Key) returns (r: int)
    ensures r == Comparison(a, b, 0) && (r == 0 <==> a == b)
    ensures SameShape(a, b) ==> (r < 0 <==> KeyBefore(a, b)) && (r > 0 <==> KeyBefore(b, a))
  {
    if SameShape(a, b) { ComparisonIsOrder(a, b); }
    for i := 0 to if |a| < |b| then |b| else |a|
      invariant i <= |a| && i <= |b| && a[..i] == b[..i] && Comparison(a, b, 0) == Comparison(a, b, i)
    {
      var x, y := PartAt(a, i), PartAt(b, i);
      if x != y {
        if x.Some? && y.Some? && x.value.Num? && y.value.Num? {
          return x.value.n - y.value.n;
        }
        var less := LockOrder.Before(TextOf(x), TextOf(y));
        return if less then 1 else -1;
      }
      assert a[..i + 1] == a[..i] + [a[i]] && b[..i + 1] == b[..i] + [b[i]];
    }
    assert a == a[..|a|] && b == b[..|b|];
    r := 0;
  }

  // ---- facts and their keys

  datatype SortBy = Newest | PriceAscending | PriceDescending | Discounts

  datatype Filter = NoFilter | Trend | OnlyDiscounts

  /** `searchMatches` says whether the product's text matches the requested category, if any. */
  datatype Facts = Facts(id: string, createdAt: int, sortPrice: int, storeCount: nat, discountedStoreCount: nat,
                         searchMatches: bool)

  function SortKey(f: Facts, sort: SortBy, filter: Filter): Key
  {
    var newest := [Num(-f.createdAt)];
    var bySort :=
      match sort
      case PriceAscending => [Num(f.sortPrice)] + newest
      case PriceDescending => [Num(-f.sortPrice)] + newest
      case Discounts => [Num(-(f.discountedStoreCount as int)), Num(f.sortPrice)] + newest
      case Newest => newest;
    var primary := if filter == Trend then [Num(-(f.storeCount as int))] else [];
    primary + bySort + [Str(f.id)]
  }

  /** Keys of one query have one shape, and differ whenever the products do. */
  lemma KeysComparable(f: Facts, g: Facts, sort: SortBy, filter: Filter)
    ensures SameShape(SortKey(f, sort, filter), SortKey(g, sort, filter))
    ensures SortKey(f, sort, filter) == SortKey(g, sort, filter) ==> f.id == g.id
  {
    var a, b := SortKey(f, sort, filter), SortKey(g, sort, filter);
    assert a[|a| - 1] == Str(f.id) && b[|b| - 1] == Str(g.id);
  }

  predicate Matches(f: Facts, filter: Filter)
  {
    && f.searchMatches
    && (filter == OnlyDiscounts ==> f.discountedStoreCount > 0)
    && (filter == Trend ==> f.storeCount > 1)
  }

  // ---- one listing, sorted

  datatype Row = Row(key: Key, id: string)

  /** A sorted listing: keys strictly ascend and all have one shape. */
  predicate Listing(rows: seq<Row>)
  {
    && (forall m, n | 0 <= m < |rows| && 0 <= n < |rows| :: SameShape(rows[m].key, rows[n].key))
    && forall m, n | 0 <= m < n < |rows| :: KeyBefore(rows[m].key, rows[n].key)
  }

  predicate Fits(row: Row, rows: seq<Row>)
  {
    forall n | 0 <= n < |rows| :: SameShape(row.key, rows[n].key) && row.key != rows[n].key
  }

  lemma InsertKeepsListing(row: Row, rows: seq<Row>, i: nat)
    requires Listing(rows) && Fits(row, rows) && i <= |rows|
    requires forall m | 0 <= m < i :: KeyBefore(rows[m].key, row.key)
    requires i < |rows| ==> KeyBefore(row.key, rows[i].key)
    ensures Listing(rows[..i] + [row] + rows[i..])
    ensures forall x :: x in rows[..i] + [row] + rows[i..] <==> x == row || x in rows
  {
    hide KeyBefore, SameShape;
    forall m | i <= m < |rows| ensures KeyBefore(row.key, rows[m].key) {
      if m > i { KeyTransitive(row.key, rows[i].key, rows[m].key); }
    }
    assert rows == rows[..i] + rows[i..];
    ShapesAgree(row, rows, i);
  }

  lemma ShapesAgree(row: Row, rows: seq<Row>, i: nat)
    requires Listing(rows) && Fits(row, rows) && i <= |rows|
    ensures var r := rows[..i] + [row] + rows[i..];
            forall m, n | 0 <= m < |r| && 0 <= n < |r| :: SameShape(r[m].key, r[n].key)
  {
    var r := rows[..i] + [row] + rows[i..];
    forall m | 0 <= m < |r| ensures SameShape(r[m].key, row.key) && SameShape(row.key, r[m].key) {
      if m != i { assert r[m] == rows[if m < i then m else m - 1]; }
    }
  }

  method InsertRow(row: Row, rows: seq<Row>) returns (r: seq<Row>)
    requires Listing(rows) && Fits(row, rows)
    ensures Listing(r) && forall x :: x in r <==> x == row || x in rows
  {
    hide KeyBefore, Listing;
    var i := 0;
    while i < |rows|
      invariant i <= |rows| && forall m | 0 <= m < i :: KeyBefore(rows[m].key, row.key)
      decreases |rows| - i
    {
      var c := CompareKeys(row.key, rows[i].key);
      if c < 0 {
        break;
      }
      i := i + 1;
    }
    InsertKeepsListing(row, rows, i);
    r := rows[..i] + [row] + rows[i..];
  }

  /** The matching products in order. */
  method Order(facts: seq<Facts>, sort: SortBy, filter: Filter) returns (rows: seq<Row>)
    requires forall m, n | 0 <= m < n < |facts| :: facts[m].id != facts[n].id
    ensures Listing(rows)
    ensures forall x :: x in rows <==>
              exists n :: 0 <= n < |facts| && Matches(facts[n], filter) && x == RowOf(facts[n], sort, filter)
  {
    rows := [];
    for n := 0 to |facts|
      invariant Listing(rows)
      invariant forall x :: x in rows <==>
                  exists m :: 0 <= m < n && Matches(facts[m], filter) && x == RowOf(facts[m], sort, filter)
    {
      if Matches(facts[n], filter) {
        var row := RowOf(facts[n], sort, filter);
        forall k | 0 <= k < |rows| ensures SameShape(row.key, rows[k].key) && row.key != rows[k].key {
          assert rows[k] in rows;
          var m :| 0 <= m < n && Matches(facts[m], filter) && rows[k] == RowOf(facts[m], sort, filter);
          KeysComparable(facts[n], facts[m], sort, filter);
        }
        rows := InsertRow(row, rows);
      }
    }
  }

  function RowOf(f: Facts, sort: SortBy, filter: Filter): Row
  {
    Row(SortKey(f, sort, filter), f.id)
  }

  // ---- pages

  predicate Past(cursor: Option<Key>, k: Key)
  {
    cursor.None? || Comparison(k, cursor.value, 0) > 0
  }

  lemma PastIsAfter(c: Key, k: Key)
    requires SameShape(c, k)
    ensures Past(Some(c), k) <==> KeyBefore(c, k)
  {
    ComparisonIsOrder(k, c);
  }

  predicate CursorFits(cursor: Option<Key>, rows: seq<Row>)
  {
    cursor.Some? ==> forall n | 0 <= n < |rows| :: SameShape(cursor.value, rows[n].key)
  }

  /** The first row past the cursor, or the end. */
  function StartOf(rows: seq<Row>, cursor: Option<Key>): (start: nat)
    ensures start <= |rows|
    ensures forall n | 0 <= n < start :: !Past(cursor, rows[n].key)
    ensures start < |rows| ==> Past(cursor, rows[start].key)
  {
    if rows == [] || Past(cursor, rows[0].key) then 0 else 1 + StartOf(rows[1..], cursor)
  }

  function PageOf(rows: seq<Row>, cursor: Option<Key>, size: nat): seq<Row>
  {
    var start := StartOf(rows, cursor);
    if start + size <= |rows| then rows[start..start + size] else rows[start..]
  }

  predicate HasMore(rows: seq<Row>, cursor: Option<Key>, size: nat)
  {
    StartOf(rows, cursor) + size < |rows|
  }

  function NextCursor(rows: seq<Row>, cursor: Option<Key>, size: nat): Option<Key>
  {
    var page := PageOf(rows, cursor, size);
    if HasMore(rows, cursor, size) && page != [] then Some(page[|page| - 1].key) else None
  }

  lemma {:induction false} StartIs(rows: seq<Row>, cursor: Option<Key>, n: nat)
    requires n <= |rows| && (forall m | 0 <= m < n :: !Past(cursor, rows[m].key))
    requires n < |rows| ==> Past(cursor, rows[n].key)
    ensures StartOf(rows, cursor) == n
  {
    if n > 0 { StartIs(rows[1..], cursor, n - 1); }
  }

  lemma PageCut(rows: seq<Row>, cursor: Option<Key>, size: nat)
    ensures var start := StartOf(rows, cursor);
            if HasMore(rows, cursor, size) then start + size < |rows| && PageOf(rows, cursor, size) == rows[start..start + size]
            else PageOf(rows, cursor, size) == rows[start..] && NextCursor(rows, cursor, size) == None
  {
    hide StartOf;
    if StartOf(rows, cursor) + size == |rows| { assert rows[StartOf(rows, cursor)..|rows|] == rows[StartOf(rows, cursor)..]; }
  }

  lemma NextIsLast(rows: seq<Row>, cursor: Option<Key>, size: nat)
    requires size > 0 && HasMore(rows, cursor, size)
    ensures StartOf(rows, cursor) + size - 1 < |rows|
    ensures NextCursor(rows, cursor, size) == Some(rows[StartOf(rows, cursor) + size - 1].key)
  {
    hide StartOf;
    var page := PageOf(rows, cursor, size);
    assert page[|page| - 1] == rows[StartOf(rows, cursor) + size - 1];
  }

  lemma NoRoomNoNext(rows: seq<Row>, cursor: Option<Key>)
    ensures PageOf(rows, cursor, 0) == [] && NextCursor(rows, cursor, 0) == None
  {
  }

  /** One request: find where to go on, cut a page, and say whether there is more. */
  method TakePage(rows: seq<Row>, cursor: Option<Key>, size: nat) returns (page: seq<Row>, next: Option<Key>)
    requires Listing(rows)
    ensures page == PageOf(rows, cursor, size) && next == NextCursor(rows, cursor, size)
  {
    hide KeyBefore, Listing, PageOf, NextCursor, StartOf;
    var start := 0;
    if cursor.Some? {
      while start < |rows|
        invariant start <= |rows| && forall m | 0 <= m < start :: !Past(cursor, rows[m].key)
      {
        var c := CompareKeys(rows[start].key, cursor.value);
        if c > 0 {
          break;
        }
        start := start + 1;
      }
    }
    StartIs(rows, cursor, start);
    PageCut(rows, cursor, size);
    if HasMore(rows, cursor, size) && size > 0 { NextIsLast(rows, cursor, size); }
    if size == 0 { NoRoomNoNext(rows, cursor); }
    var remaining := rows[start..];
    page := if size <= |remaining| then remaining[..size] else remaining;
    var hasMore := |remaining| > |page|;
    next := if hasMore && page != [] then Some(page[|page| - 1].key) else None;
  }

  /** Everything past a cursor follows the first row past it. */
  lemma PastIsSuffix(rows: seq<Row>, cursor: Option<Key>, n: nat)
    requires Listing(rows) && CursorFits(cursor, rows) && n < |rows|
    ensures Past(cursor, rows[n].key) <==> StartOf(rows, cursor) <= n
  {
    var start := StartOf(rows, cursor);
    if start < n && cursor.Some? {
      PastIsAfter(cursor.value, rows[start].key);
      PastIsAfter(cursor.value, rows[n].key);
      KeyTransitive(cursor.value, rows[start].key, rows[n].key);
    }
  }

  lemma InSlice(rows: seq<Row>, lo: nat, hi: nat, n: nat)
    requires lo <= hi <= |rows| && n < |rows| && forall m | 0 <= m < |rows| && rows[m] == rows[n] :: m == n
    ensures rows[n] in rows[lo..hi] <==> lo <= n < hi
  {
    if lo <= n < hi { assert rows[lo..hi][n - lo] == rows[n]; }
    if rows[n] in rows[lo..hi] {
      var k :| 0 <= k < hi - lo && rows[lo..hi][k] == rows[n];
      assert rows[lo + k] == rows[n];
    }
  }

  lemma InPageIff(rows: seq<Row>, cursor: Option<Key>, size: nat, n: nat)
    requires Listing(rows) && n < |rows|
    ensures rows[n] in PageOf(rows, cursor, size)
            <==> StartOf(rows, cursor) <= n && (n < StartOf(rows, cursor) + size || !HasMore(rows, cursor, size))
  {
    hide *;
    RowAtOneIndex(rows, rows[n], n);
    PageCut(rows, cursor, size);
    var start := StartOf(rows, cursor);
    if HasMore(rows, cursor, size) {
      InSlice(rows, start, start + size, n);
    } else {
      InSlice(rows, start, |rows|, n);
      assert rows[start..|rows|] == rows[start..];
    }
  }

  lemma PositionDecides(rows: seq<Row>, m: nat, n: nat)
    requires Listing(rows) && m < |rows| && n < |rows|
    ensures KeyBefore(rows[m].key, rows[n].key) <==> m < n
  {
    if m == n {
      KeyIrreflexive(rows[m].key);
    } else if n < m {
      KeyAsymmetric(rows[n].key, rows[m].key);
    }
  }

  lemma ShapesOfListing(rows: seq<Row>, m: nat, n: nat)
    requires Listing(rows) && m < |rows| && n < |rows|
    ensures SameShape(rows[m].key, rows[n].key)
  {
  }

  lemma PastNextIff(rows: seq<Row>, cursor: Option<Key>, size: nat, n: nat)
    requires Listing(rows) && n < |rows| && size > 0 && HasMore(rows, cursor, size)
    ensures NextCursor(rows, cursor, size).Some?
    ensures Past(NextCursor(rows, cursor, size), rows[n].key) <==> StartOf(rows, cursor) + size <= n
  {
    hide KeyBefore, SameShape, Listing, StartOf, NextCursor, Past;
    NextIsLast(rows, cursor, size);
    var last := StartOf(rows, cursor) + size - 1;
    PositionDecides(rows, last, n);
    ShapesOfListing(rows, last, n);
    PastIsAfter(rows[last].key, rows[n].key);
  }

  /** A page holds exactly the rows past its cursor and not past the next one. */
  lemma PageIsInterval(rows: seq<Row>, cursor: Option<Key>, size: nat, row: Row)
    requires Listing(rows) && CursorFits(cursor, rows) && size > 0
    ensures row in PageOf(rows, cursor, size) <==>
            row in rows && Past(cursor, row.key)
            && (NextCursor(rows, cursor, size).None? || !Past(NextCursor(rows, cursor, size), row.key))
  {
    if row in rows {
      var n :| 0 <= n < |rows| && rows[n] == row;
      PastIsSuffix(rows, cursor, n);
      InPageIff(rows, cursor, size, n);
      if HasMore(rows, cursor, size) { PastNextIff(rows, cursor, size, n); }
    } else {
      var start, page := StartOf(rows, cursor), PageOf(rows, cursor, size);
      forall k | 0 <= k < |page| ensures page[k] in rows {
        assert page[k] == rows[start + k];
      }
    }
  }

  lemma RowAtOneIndex(rows: seq<Row>, row: Row, n: nat)
    requires Listing(rows) && n < |rows| && rows[n] == row
    ensures forall m | 0 <= m < |rows| && rows[m] == row :: m == n
  {
    KeyIrreflexive(row.key);
  }

  // ---- following the cursor to the end

  /**
   * A customer's walk: `listings[t]` is the listing when page `t` is asked for, `cursors[t]` what
   * is sent. It goes on while a next cursor comes back and stops at the first page without one.
   */
  datatype Walk = Walk(listings: seq<seq<Row>>, cursors: seq<Option<Key>>, size: nat)

  function Page(w: Walk, t: nat): seq<Row>
    requires t < |w.listings| && t < |w.cursors|
  {
    PageOf(w.listings[t], w.cursors[t], w.size)
  }

  function Next(w: Walk, t: nat): Option<Key>
    requires t < |w.listings| && t < |w.cursors|
  {
    NextCursor(w.listings[t], w.cursors[t], w.size)
  }

  ghost predicate Complete(w: Walk)
  {
    && |w.listings| == |w.cursors| > 0 && w.size > 0
    && (forall t | 0 <= t < |w.listings| :: Listing(w.listings[t]) && CursorFits(w.cursors[t], w.listings[t]))
    && w.cursors[0] == None
    && (forall t | 0 <= t < |w.listings| - 1 :: Next(w, t).Some? && w.cursors[t + 1] == Next(w, t))
    && Next(w, |w.listings| - 1) == None
  }

  /** Keys of every listing and cursor of the walk have one shape. */
  ghost predicate OneShape(w: Walk, k: Key)
  {
    && (forall t, n | 0 <= t < |w.listings| && 0 <= n < |w.listings[t]| :: SameShape(k, w.listings[t][n].key))
    && forall t | 0 <= t < |w.cursors| && w.cursors[t].Some? :: SameShape(k, w.cursors[t].value)
  }

  lemma NextIsLastOfPage(w: Walk, t: nat)
    requires Complete(w) && t < |w.listings| - 1
    ensures Next(w, t).Some? && Past(w.cursors[t], Next(w, t).value)
  {
    hide Listing, StartOf, CursorFits, Past, PageOf;
    assert Next(w, t).Some?;
    var rows, start := w.listings[t], StartOf(w.listings[t], w.cursors[t]);
    NextIsLast(rows, w.cursors[t], w.size);
    PastIsSuffix(rows, w.cursors[t], start + w.size - 1);
  }

  /** A key past a later cursor is past every earlier one. */
  lemma {:induction false} CursorsAdvance(w: Walk, k: Key, t: nat, u: nat)
    requires Complete(w) && OneShape(w, k) && t <= u < |w.cursors| && Past(w.cursors[u], k)
    ensures Past(w.cursors[t], k)
    decreases u
  {
    hide KeyBefore, Listing, NextCursor, StartOf, Next, CursorFits, Comparison;
    if t < u {
      NextIsLastOfPage(w, u - 1);
      if w.cursors[u - 1].Some? {
        PastIsAfter(w.cursors[u - 1].value, w.cursors[u].value);
        PastIsAfter(w.cursors[u - 1].value, k);
        PastIsAfter(w.cursors[u].value, k);
        KeyTransitive(w.cursors[u - 1].value, w.cursors[u].value, k);
      }
      CursorsAdvance(w, k, t, u - 1);
    }
  }

  lemma OnPageIff(w: Walk, row: Row, t: nat)
    requires Complete(w) && t < |w.listings| && row in w.listings[t]
    ensures row in Page(w, t) <==> Past(w.cursors[t], row.key)
                                   && (t + 1 < |w.listings| ==> !Past(w.cursors[t + 1], row.key))
  {
    PageIsInterval(w.listings[t], w.cursors[t], w.size, row);
    assert if t + 1 < |w.listings| then Next(w, t).Some? && w.cursors[t + 1] == Next(w, t) else Next(w, t) == None;
  }

  /** The page a row with a constant key falls on. */
  lemma {:induction false} SomePage(w: Walk, row: Row, t: nat) returns (u: nat)
    requires Complete(w) && OneShape(w, row.key) && t < |w.listings| && Past(w.cursors[t], row.key)
    requires forall s | 0 <= s < |w.listings| :: row in w.listings[s]
    ensures t <= u < |w.listings| && row in Page(w, u)
    decreases |w.listings| - t
  {
    OnPageIff(w, row, t);
    if t + 1 < |w.listings| && Past(w.cursors[t + 1], row.key) {
      u := SomePage(w, row, t + 1);
    } else {
      u := t;
    }
  }

  lemma OnOnePageOnly(w: Walk, row: Row, t: nat, u: nat)
    requires Complete(w) && OneShape(w, row.key) && t < u < |w.listings|
    requires row in w.listings[t] && row in w.listings[u]
    ensures !(row in Page(w, t) && row in Page(w, u))
  {
    OnPageIff(w, row, t);
    OnPageIff(w, row, u);
    if Past(w.cursors[u], row.key) { CursorsAdvance(w, row.key, t + 1, u); }
  }

  lemma PageHasNoRepeat(rows: seq<Row>, cursor: Option<Key>, size: nat, m: nat, n: nat)
    requires Listing(rows) && m < n < |PageOf(rows, cursor, size)|
    ensures PageOf(rows, cursor, size)[m] != PageOf(rows, cursor, size)[n]
  {
    hide *;
    var start := StartOf(rows, cursor);
    PageCut(rows, cursor, size);
    PositionDecides(rows, start + m, start + n);
    KeyIrreflexive(rows[start + m].key);
  }

  /**
   * A product that is listed with the same key throughout the walk is shown on exactly one page and
   * once there, whatever else is added, removed or re-priced between the requests.
   */
  lemma ShownExactlyOnce(w: Walk, row: Row)
    requires Complete(w) && OneShape(w, row.key)
    requires forall t | 0 <= t < |w.listings| :: row in w.listings[t]
    ensures exists t :: 0 <= t < |w.listings| && row in Page(w, t)
    ensures forall t, u | 0 <= t < u < |w.listings| :: !(row in Page(w, t) && row in Page(w, u))
    ensures forall t, m, n | 0 <= t < |w.listings| && 0 <= m < n < |Page(w, t)| :: Page(w, t)[m] != Page(w, t)[n]
  {
    var first := SomePage(w, row, 0);
    forall t, u | 0 <= t < u < |w.listings| ensures !(row in Page(w, t) && row in Page(w, u)) {
      OnOnePageOnly(w, row, t, u);
    }
    forall t, m, n | 0 <= t < |w.listings| && 0 <= m < n < |Page(w, t)| ensures Page(w, t)[m] != Page(w, t)[n] {
      PageHasNoRepeat(w.listings[t], w.cursors[t], w.size, m, n);
    }
  }

  // ---- the same listing all along

  function Pages(rows: seq<Row>, cursor: Option<Key>, size: nat, fuel: nat): seq<Row>
    decreases fuel
  {
    if fuel == 0 then []
    else
      var next := NextCursor(rows, cursor, size);
      PageOf(rows, cursor, size) + if next.None? then [] else Pages(rows, next, size, fuel - 1)
  }

  lemma NextStart(rows: seq<Row>, cursor: Option<Key>, size: nat)
    requires Listing(rows) && size > 0 && HasMore(rows, cursor, size)
    ensures NextCursor(rows, cursor, size).Some?
    ensures StartOf(rows, NextCursor(rows, cursor, size)) == StartOf(rows, cursor) + size
  {
    var next := NextCursor(rows, cursor, size);
    forall n | 0 <= n < |rows| ensures Past(next, rows[n].key) <==> StartOf(rows, cursor) + size <= n {
      PastNextIff(rows, cursor, size, n);
    }
    StartIs(rows, next, StartOf(rows, cursor) + size);
  }

  lemma PagesOnce(rows: seq<Row>, cursor: Option<Key>, size: nat, fuel: nat)
    requires fuel > 0
    ensures var next := NextCursor(rows, cursor, size);
            Pages(rows, cursor, size, fuel)
            == PageOf(rows, cursor, size) + if next.None? then [] else Pages(rows, next, size, fuel - 1)
  {
  }

  lemma {:induction false} PagesAreSuffix(rows: seq<Row>, cursor: Option<Key>, size: nat, fuel: nat)
    requires Listing(rows) && size > 0 && |rows| < StartOf(rows, cursor) + fuel
    ensures Pages(rows, cursor, size, fuel) == rows[StartOf(rows, cursor)..]
    decreases fuel
  {
    hide *;
    var start := StartOf(rows, cursor);
    PageCut(rows, cursor, size);
    PagesOnce(rows, cursor, size, fuel);
    if HasMore(rows, cursor, size) {
      NextStart(rows, cursor, size);
      PagesAreSuffix(rows, NextCursor(rows, cursor, size), size, fuel - 1);
      assert rows[start..] == rows[start..start + size] + rows[start + size..];
    } else {
      assert rows[start..] + [] == rows[start..];
    }
  }

  /** On an unchanged listing the pages, one after the other, are the listing: no repeat, no gap. */
  lemma PagesAreTheListing(rows: seq<Row>, size: nat)
    requires Listing(rows) && size > 0
    ensures Pages(rows, None, size, |rows| + 1) == rows
  {
    StartIs(rows, None, 0);
    PagesAreSuffix(rows, None, size, |rows| + 1);
  }

  // ---- one browse request

  /** The query a cursor belongs to. */
  datatype Query = Query(sort: SortBy, filter: Filter, category: Option<string>)

  datatype Cursor = Cursor(query: Query, key: Key)

  datatype BrowseError = InvalidCursor

  datatype Response = Response(page: seq<Row>, total: nat, next: Option<Cursor>)

  /** The sorted listing of a query, pinned down by what it contains. */
  ghost predicate IsListingOf(rows: seq<Row>, facts: seq<Facts>, q: Query)
  {
    && Listing(rows)
    && forall x :: x in rows <==>
         exists n :: 0 <= n < |facts| && Matches(facts[n], q.filter) && x == RowOf(facts[n], q.sort, q.filter)
  }

  /**
   * A cursor of another query is refused, and one without a key; otherwise the page is cut from the
   * query's listing, also for a key no page of the query ever gave out.
   */
  method BrowsePage(facts: seq<Facts>, q: Query, cursor: Option<Cursor>, size: nat)
    returns (r: Result<Response, BrowseError>, ghost rows: seq<Row>)
    requires forall m, n | 0 <= m < n < |facts| :: facts[m].id != facts[n].id
    ensures r.Err? <==> cursor.Some? && (cursor.value.query != q || cursor.value.key == [])
    ensures r.Ok? ==> IsListingOf(rows, facts, q) && r.value.total == |rows|
    ensures r.Ok? ==>
              var after := if cursor.Some? then Some(cursor.value.key) else None;
              r.value.page == PageOf(rows, after, size)
              && r.value.next == match NextCursor(rows, after, size)
                                 case Some(k) => Some(Cursor(q, k))
                                 case None => None
  {
    rows := [];
    if cursor.Some? && (cursor.value.query != q || cursor.value.key == []) {
      return Err(InvalidCursor), [];
    }
    var ordered := Order(facts, q.sort, q.filter);
    rows := ordered;
    var after := if cursor.Some? then Some(cursor.value.key) else None;
    var page, next := TakePage(ordered, after, size);
    r := Ok(Response(page, |ordered|, if next.Some? then Some(Cursor(q, next.value)) else None));
  }

  /** The listing is determined by the products and the query, in whatever order the products are read. */
  lemma ListingIgnoresOrder(facts: seq<Facts>, others: seq<Facts>, q: Query, a: seq<Row>, b: seq<Row>)
    requires forall f :: f in facts <==> f in others
    requires IsListingOf(a, facts, q) && IsListingOf(b, others, q)
    ensures a == b
  {
    forall x ensures x in a <==> x in b {
      if x in a { RowOfEither(facts, others, q, x); }
      if x in b { RowOfEither(others, facts, q, x); }
    }
    ListingIsOne(a, b);
  }

  lemma RowOfEither(facts: seq<Facts>, others: seq<Facts>, q: Query, x: Row)
    requires forall f | f in facts :: f in others
    requires exists n :: 0 <= n < |facts| && Matches(facts[n], q.filter) && x == RowOf(facts[n], q.sort, q.filter)
    ensures exists n :: 0 <= n < |others| && Matches(others[n], q.filter) && x == RowOf(others[n], q.sort, q.filter)
  {
    var n :| 0 <= n < |facts| && Matches(facts[n], q.filter) && x == RowOf(facts[n], q.sort, q.filter);
    assert facts[n] in others;
  }

  lemma {:induction false} ListingIsOne(a: seq<Row>, b: seq<Row>)
    requires Listing(a) && Listing(b) && forall x :: x in a <==> x in b
    ensures a == b
  {
    hide KeyBefore, SameShape;
    RowsIn(a);
    RowsIn(b);
    if a == [] {
      assert b == [];
    } else {
      HeadsAgree(a, b);
      forall x ensures x in a[1..] <==> x in b[1..] {
        TailWithoutHead(a, x);
        TailWithoutHead(b, x);
      }
      ListingIsOne(a[1..], b[1..]);
      assert a == [a[0]] + a[1..] && b == [b[0]] + b[1..];
    }
  }

  lemma HeadsAgree(a: seq<Row>, b: seq<Row>)
    requires Listing(a) && Listing(b) && a != [] && forall x :: x in a <==> x in b
    ensures b != [] && a[0] == b[0]
  {
    assert a[0] in b && b != [] && b[0] in a;
    var m :| 0 <= m < |b| && b[m] == a[0];
    var n :| 0 <= n < |a| && a[n] == b[0];
    PositionDecides(a, 0, n);
    PositionDecides(b, 0, m);
    if m > 0 && n > 0 { KeyAsymmetric(a[0].key, b[0].key); }
  }

  lemma RowsIn(s: seq<Row>)
    ensures s == [] || s[0] in s
  {
  }

  lemma TailWithoutHead(s: seq<Row>, x: Row)
    requires s != [] && Listing(s)
    ensures x in s[1..] <==> x in s && x != s[0]
  {
    hide KeyBefore, SameShape;
    assert s == [s[0]] + s[1..];
    if x in s[1..] {
      var n :| 0 <= n < |s[1..]| && s[1..][n] == x;
      PositionDecides(s, 0, n + 1);
      KeyIrreflexive(s[0].key);
    }
  }

  // ---- the facts and the card

  /** One eligible offer of a product; prices are in agorot. */
  datatype Offer = Offer(id: string, vendor: Id, vendorCreatedAt: int, price: nat, basePrice: nat, available: nat)

  /** What the card shows of price and stores. */
  datatype Card = Card(lowestPrice: nat, storeCount: nat, discountedStoreCount: nat, hasDiscount: bool, cheapest: Offer)

  predicate Discounted(o: Offer)
  {
    o.available > 0 && o.price < o.basePrice
  }

  /** MIN over the in-stock offers, or over all when none is in stock. */
  predicate IsLowestPrice(offers: seq<Offer>, price: nat)
  {
    var inStock := exists n :: 0 <= n < |offers| && offers[n].available > 0;
    && (exists n :: 0 <= n < |offers| && (inStock ==> offers[n].available > 0) && offers[n].price == price)
    && forall n | 0 <= n < |offers| && (inStock ==> offers[n].available > 0) :: price <= offers[n].price
  }

  function Vendors(offers: seq<Offer>): set<Id>
  {
    set n | 0 <= n < |offers| :: offers[n].vendor
  }

  function DiscountingVendors(offers: seq<Offer>): set<Id>
  {
    set n | 0 <= n < |offers| && Discounted(offers[n]) :: offers[n].vendor
  }

  /** The aggregate query's row for one product. */
  ghost predicate IsAggregate(offers: seq<Offer>, sortPrice: nat, storeCount: nat, discountedStoreCount: nat)
  {
    && IsLowestPrice(offers, sortPrice)
    && storeCount == |Vendors(offers)| && discountedStoreCount == |DiscountingVendors(offers)|
  }

  predicate Cheaper(a: Offer, b: Offer)
  {
    a.price < b.price
    || (a.price == b.price && (a.vendorCreatedAt < b.vendorCreatedAt
                               || (a.vendorCreatedAt == b.vendorCreatedAt && LockOrder.Before(a.id, b.id))))
  }

  lemma CheaperOrder(a: Offer, b: Offer, c: Offer)
    ensures !Cheaper(a, a)
    ensures Cheaper(a, b) && Cheaper(b, c) ==> Cheaper(a, c)
  {
    LockOrder.BeforeIrreflexive(a.id);
    if LockOrder.Before(a.id, b.id) && LockOrder.Before(b.id, c.id) { LockOrder.BeforeTransitive(a.id, b.id, c.id); }
  }

  /** The first of the pool once sorted: none is cheaper, and ties go to the older store, then the smaller id. */
  method CheapestOf(pool: seq<Offer>) returns (cheapest: Offer)
    requires pool != []
    ensures cheapest in pool && forall n | 0 <= n < |pool| :: !Cheaper(pool[n], cheapest)
  {
    cheapest := pool[0];
    CheaperOrder(cheapest, cheapest, cheapest);
    for n := 1 to |pool|
      invariant cheapest in pool && forall m | 0 <= m < n :: !Cheaper(pool[m], cheapest)
    {
      if Cheaper(pool[n], cheapest) {
        forall m | 0 <= m <= n ensures !Cheaper(pool[m], pool[n]) {
          CheaperOrder(pool[m], pool[n], cheapest);
        }
        cheapest := pool[n];
      }
    }
  }

  /** No card without an eligible offer; otherwise its figures are the ones the listing is sorted by. */
  method BuildCard(offers: seq<Offer>) returns (card: Option<Card>)
    ensures card.None? <==> offers == []
    ensures card.Some? ==>
              IsAggregate(offers, card.value.lowestPrice, card.value.storeCount, card.value.discountedStoreCount)
              && (card.value.hasDiscount <==> exists n :: 0 <= n < |offers| && Discounted(offers[n]))
              && IsCheapest(offers, card.value.cheapest) && card.value.lowestPrice == card.value.cheapest.price
  {
    if offers == [] {
      return None;
    }
    var cheapestPerVendor: map<Id, Offer> := map[];
    var inStock: seq<Offer> := [];
    var discounting: set<Id> := {};
    for n := 0 to |offers|
      invariant cheapestPerVendor.Keys == Vendors(offers[..n]) && discounting == DiscountingVendors(offers[..n])
      invariant forall o :: o in inStock <==> o in offers[..n] && o.available > 0
    {
      var o := offers[n];
      assert offers[..n + 1] == offers[..n] + [o];
      OneMoreOffer(offers, n);
      if o.vendor !in cheapestPerVendor || Cheaper(o, cheapestPerVendor[o.vendor]) {
        cheapestPerVendor := cheapestPerVendor[o.vendor := o];
      }
      if o.available > 0 { inStock := inStock + [o]; }
      if Discounted(o) { discounting := discounting + {o.vendor}; }
    }
    assert offers[..|offers|] == offers;
    var pool := if inStock != [] then inStock else offers;
    var cheapest := CheapestOf(pool);
    LowestOfPool(offers, inStock, cheapest);
    DiscountShows(offers);
    CheapestOfPool(offers, inStock, cheapest);
    card := Some(Card(cheapest.price, |cheapestPerVendor|, |discounting|, |discounting| > 0, cheapest));
  }

  lemma OneMoreOffer(offers: seq<Offer>, n: nat)
    requires n < |offers|
    ensures Vendors(offers[..n + 1]) == Vendors(offers[..n]) + {offers[n].vendor}
    ensures DiscountingVendors(offers[..n + 1])
            == DiscountingVendors(offers[..n]) + (if Discounted(offers[n]) then {offers[n].vendor} else {})
  {
    var a, b := offers[..n], offers[..n + 1];
    assert forall m | 0 <= m < n :: b[m] == a[m];
    assert b[n] == offers[n];
    forall v | v in Vendors(a) ensures v in Vendors(b) {
      var m :| 0 <= m < |a| && a[m].vendor == v;
      assert b[m].vendor == v;
    }
    forall v | v in DiscountingVendors(a) ensures v in DiscountingVendors(b) {
      var m :| 0 <= m < |a| && Discounted(a[m]) && a[m].vendor == v;
      assert Discounted(b[m]) && b[m].vendor == v;
    }
  }

  /** The offer the card links to: the cheapest in stock, or of all when none is in stock. */
  predicate IsCheapest(offers: seq<Offer>, cheapest: Offer)
  {
    var inStock := exists n :: 0 <= n < |offers| && offers[n].available > 0;
    && cheapest in offers && (inStock ==> cheapest.available > 0)
    && forall n | 0 <= n < |offers| && (inStock ==> offers[n].available > 0) :: !Cheaper(offers[n], cheapest)
  }

  lemma CheapestOfPool(offers: seq<Offer>, inStock: seq<Offer>, cheapest: Offer)
    requires offers != [] && forall o :: o in inStock <==> o in offers && o.available > 0
    requires var pool := if inStock != [] then inStock else offers;
             cheapest in pool && forall n | 0 <= n < |pool| :: !Cheaper(pool[n], cheapest)
    ensures IsCheapest(offers, cheapest)
  {
    var some := exists n :: 0 <= n < |offers| && offers[n].available > 0;
    if inStock != [] { assert inStock[0] in inStock; }
    forall n | 0 <= n < |offers| && (some ==> offers[n].available > 0) ensures !Cheaper(offers[n], cheapest) {
      if some {
        assert offers[n] in inStock;
        var m :| 0 <= m < |inStock| && inStock[m] == offers[n];
      }
    }
  }

  lemma LowestOfPool(offers: seq<Offer>, inStock: seq<Offer>, cheapest: Offer)
    requires offers != [] && forall o :: o in inStock <==> o in offers && o.available > 0
    requires var pool := if inStock != [] then inStock else offers;
             cheapest in pool && forall n | 0 <= n < |pool| :: !Cheaper(pool[n], cheapest)
    ensures IsLowestPrice(offers, cheapest.price)
  {
    var some := exists n :: 0 <= n < |offers| && offers[n].available > 0;
    assert some <==> inStock != [] by {
      if inStock != [] { assert inStock[0] in inStock; }
      if n :| 0 <= n < |offers| && offers[n].available > 0 { assert offers[n] in inStock; }
    }
    forall n | 0 <= n < |offers| && (some ==> offers[n].available > 0) ensures cheapest.price <= offers[n].price {
      if some {
        assert offers[n] in inStock;
        var m :| 0 <= m < |inStock| && inStock[m] == offers[n];
      }
    }
    assert cheapest in offers;
  }

  lemma DiscountShows(offers: seq<Offer>)
    ensures |DiscountingVendors(offers)| > 0 <==> exists n :: 0 <= n < |offers| && Discounted(offers[n])
  {
    if n :| 0 <= n < |offers| && Discounted(offers[n]) {
      assert offers[n].vendor in DiscountingVendors(offers);
    }
    if DiscountingVendors(offers) != {} {
      var v :| v in DiscountingVendors(offers);
    }
  }

  /** The aggregate is unique, so what the listing sorts by is exactly what the card says. */
  lemma SortedByWhatIsShown(offers: seq<Offer>, card: Card, sortPrice: nat, storeCount: nat, discountedStoreCount: nat)
    requires IsAggregate(offers, card.lowestPrice, card.storeCount, card.discountedStoreCount)
    requires IsAggregate(offers, sortPrice, storeCount, discountedStoreCount)
    ensures card.lowestPrice == sortPrice && card.storeCount == storeCount
            && card.discountedStoreCount == discountedStoreCount
  {
    var inStock := exists n :: 0 <= n < |offers| && offers[n].available > 0;
    var m :| 0 <= m < |offers| && (inStock ==> offers[m].available > 0) && offers[m].price == card.lowestPrice;
    var n :| 0 <= n < |offers| && (inStock ==> offers[n].available > 0) && offers[n].price == sortPrice;
  }
}
