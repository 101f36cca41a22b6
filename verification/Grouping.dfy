/**
 * Which branch serves which cart line. One vendor's lines go to a single branch when some branch
 * covers them all; otherwise every line goes to the branch with most stock for it.
 */
module Grouping {
  import opened Common

  datatype Line = Line(id: Id, vendor: Id, variant: Id, quantity: nat)

  /** One branch's free stock of one variant. */
  datatype Branch = Branch(id: Id, available: int, createdAt: int)

  type Availability = map<Id, seq<Branch>>

  datatype Group = Group(vendor: Id, items: seq<Id>, fragmented: bool, branches: seq<Id>)

  function Offers(av: Availability, variant: Id): seq<Branch>
  {
    if variant in av then av[variant] else []
  }

  /** At most one entry per branch and variant, and every entry carries its branch's creation time. */
  ghost predicate Consistent(av: Availability, born: map<Id, int>)
  {
    forall v | v in av ::
      (forall n | 0 <= n < |av[v]| :: av[v][n].id in born && av[v][n].createdAt == born[av[v][n].id])
      && forall m, n | 0 <= m < n < |av[v]| :: av[v][m].id != av[v][n].id
  }

  predicate DistinctIds(items: seq<Line>)
  {
    forall m, n | 0 <= m < n < |items| :: items[m].id != items[n].id
  }

  // ---- orders and sorting

  /** A sort key: a leading number, then creation time, then id. */
  datatype Entry = Entry(major: int, createdAt: int, id: Id)

  predicate Earlier(a: Entry, b: Entry)
  {
    a.major < b.major
    || (a.major == b.major && (a.createdAt < b.createdAt || (a.createdAt == b.createdAt && a.id < b.id)))
  }

  predicate Ascending(s: seq<Entry>)
  {
    forall m, n | 0 <= m < n < |s| :: Earlier(s[m], s[n])
  }

  function Insert(e: Entry, s: seq<Entry>): seq<Entry>
  {
    if s == [] || Earlier(e, s[0]) then [e] + s else [s[0]] + Insert(e, s[1..])
  }

  lemma {:induction false} InsertSorts(e: Entry, s: seq<Entry>)
    requires Ascending(s) && e !in s
    ensures Ascending(Insert(e, s))
    ensures forall x :: x in Insert(e, s) <==> x == e || x in s
  {
    if s != [] && !Earlier(e, s[0]) {
      InsertSorts(e, s[1..]);
      assert s == [s[0]] + s[1..];
      var rest := Insert(e, s[1..]);
      forall n | 0 <= n < |rest| ensures Earlier(s[0], rest[n]) {
        assert rest[n] in rest;
        if rest[n] != e {
          var m :| 0 <= m < |s[1..]| && s[1..][m] == rest[n];
        }
      }
    }
  }

  /** Two ascending lists of the same entries are the same list. */
  lemma {:induction false} SortedOnce(a: seq<Entry>, b: seq<Entry>)
    requires Ascending(a) && Ascending(b) && forall x :: x in a <==> x in b
    ensures a == b
  {
    if a == [] {
      HeadIsIn(b);
    } else {
      assert a[0] in b && b != [] && b[0] in a;
      assert a[0] == b[0] by {
        var m :| 0 <= m < |b| && b[m] == a[0];
        var n :| 0 <= n < |a| && a[n] == b[0];
      }
      forall x ensures x in a[1..] <==> x in b[1..] {
        TailWithoutHead(a, x);
        TailWithoutHead(b, x);
      }
      SortedOnce(a[1..], b[1..]);
      assert a == [a[0]] + a[1..] && b == [b[0]] + b[1..];
    }
  }

  lemma HeadIsIn(s: seq<Entry>)
    ensures s == [] || s[0] in s
  {
  }

  lemma TailWithoutHead(s: seq<Entry>, x: Entry)
    requires s != [] && Ascending(s)
    ensures x in s[1..] <==> x in s && x != s[0]
  {
    assert s == [s[0]] + s[1..];
    if x in s[1..] {
      var n :| 0 <= n < |s[1..]| && s[1..][n] == x;
      assert s[n + 1] == x;
    }
  }

  /** Branches in suggested order: oldest first, then by id. */
  function ByAge(born: map<Id, int>, b: Id): Entry
  {
    Entry(0, if b in born then born[b] else 0, b)
  }

  function AgeKeys(born: map<Id, int>, s: seq<Id>): seq<Entry>
  {
    seq(|s|, n requires 0 <= n < |s| => ByAge(born, s[n]))
  }

  ghost predicate InAgeOrder(born: map<Id, int>, s: seq<Id>, branches: set<Id>)
  {
    Ascending(AgeKeys(born, s)) && branches == set n | 0 <= n < |s| :: s[n]
  }

  lemma AgeOrderOnce(born: map<Id, int>, a: seq<Id>, b: seq<Id>, branches: set<Id>)
    requires InAgeOrder(born, a, branches) && InAgeOrder(born, b, branches)
    ensures a == b
  {
    var ka, kb := AgeKeys(born, a), AgeKeys(born, b);
    assert forall x | x in ka :: x == ByAge(born, x.id) && x.id in branches;
    assert forall x | x in kb :: x == ByAge(born, x.id) && x.id in branches;
    forall i | i in branches ensures ByAge(born, i) in ka && ByAge(born, i) in kb {
      var m :| 0 <= m < |a| && a[m] == i;
      var n :| 0 <= n < |b| && b[n] == i;
      assert ka[m] == ByAge(born, i) && kb[n] == ByAge(born, i);
    }
    SortedOnce(ka, kb);
    forall n | 0 <= n < |a| ensures a[n] == b[n] {
      assert ka[n].id == a[n] && kb[n].id == b[n];
    }
  }

  // ---- what the result must be

  ghost predicate Covers(av: Availability, b: Id, line: Line)
  {
    exists n :: 0 <= n < |Offers(av, line.variant)| && Offers(av, line.variant)[n].id == b
                && Offers(av, line.variant)[n].available >= line.quantity
  }

  ghost predicate CoversAll(av: Availability, b: Id, items: seq<Line>)
  {
    forall n | 0 <= n < |items| :: Covers(av, b, items[n])
  }

  ghost function Covering(av: Availability, born: map<Id, int>, items: seq<Line>): set<Id>
  {
    set b | b in born && items != [] && CoversAll(av, b, items)
  }

  /** Most stock first, then oldest, then id. */
  function ByStock(x: Branch): Entry
  {
    Entry(-x.available, x.createdAt, x.id)
  }

  ghost predicate Best(av: Availability, line: Line, x: Branch)
  {
    && x in Offers(av, line.variant) && x.available >= line.quantity
    && forall c | c in Offers(av, line.variant) && c.available >= line.quantity :: c == x || Earlier(ByStock(x), ByStock(c))
  }

  /** The branch a line falls to when no branch covers everything. */
  ghost function Choice(av: Availability, line: Line): Option<Id>
  {
    if exists x :: Best(av, line, x) then
      var x :| Best(av, line, x);
      Some(x.id)
    else None
  }

  ghost function ChosenBranches(items: seq<Line>, av: Availability): set<Id>
  {
    if items == [] then {}
    else
      var last := |items| - 1;
      var c := Choice(av, items[last]);
      ChosenBranches(items[..last], av) + if c.Some? then {c.value} else {}
  }

  /** The lines whose choice is `choice`, in cart order. */
  ghost function ChoosingIds(items: seq<Line>, av: Availability, choice: Option<Id>): seq<Id>
  {
    if items == [] then []
    else
      var last := |items| - 1;
      ChoosingIds(items[..last], av, choice) + if Choice(av, items[last]) == choice then [items[last].id] else []
  }

  function Ids(items: seq<Line>): seq<Id>
  {
    seq(|items|, n requires 0 <= n < |items| => items[n].id)
  }

  function Firsts(groups: seq<Group>): seq<Id>
  {
    seq(|groups|, n requires 0 <= n < |groups| => if groups[n].branches == [] then 0 else groups[n].branches[0])
  }

  ghost predicate Together(vendor: Id, items: seq<Line>, av: Availability, born: map<Id, int>, groups: seq<Group>)
  {
    && |groups| == 1 && groups[0] == Group(vendor, Ids(items), false, groups[0].branches)
    && InAgeOrder(born, groups[0].branches, Covering(av, born, items))
  }

  ghost predicate Apart(vendor: Id, items: seq<Line>, av: Availability, born: map<Id, int>, groups: seq<Group>)
  {
    && InAgeOrder(born, Firsts(groups), ChosenBranches(items, av))
    && forall n | 0 <= n < |groups| :: groups[n] ==
         Group(vendor, ChoosingIds(items, av, Some(Firsts(groups)[n])), true, [Firsts(groups)[n]])
  }

  /** The one grouping of `items` the rules allow. */
  ghost predicate Grouped(vendor: Id, items: seq<Line>, av: Availability, born: map<Id, int>,
                          groups: seq<Group>, unavailable: seq<Id>)
  {
    if Covering(av, born, items) != {} then Together(vendor, items, av, born, groups) && unavailable == []
    else Apart(vendor, items, av, born, groups) && unavailable == ChoosingIds(items, av, None)
  }

  // ---- facts about choices

  lemma BetterThan(av: Availability, line: Line, x: Branch, c: Branch)
    requires Best(av, line, x) && c in Offers(av, line.variant) && c.available >= line.quantity
    ensures c == x || Earlier(ByStock(x), ByStock(c))
  {
  }

  lemma BestIsOne(av: Availability, line: Line, x: Branch)
    requires Best(av, line, x)
    ensures Choice(av, line) == Some(x.id)
  {
    var y :| Best(av, line, y) && Choice(av, line) == Some(y.id);
    assert Best(av, line, y);
    BetterThan(av, line, x, y);
    BetterThan(av, line, y, x);
  }

  /** A line has a choice exactly when some branch covers it. */
  lemma ChoiceIffCovered(av: Availability, line: Line)
    ensures Choice(av, line).Some? <==> exists b :: Covers(av, b, line)
    ensures Choice(av, line).Some? ==> Covers(av, Choice(av, line).value, line)
  {
    var all := Offers(av, line.variant);
    if b :| Covers(av, b, line) {
      var n :| 0 <= n < |all| && all[n].id == b && all[n].available >= line.quantity;
      var x := BestOf(av, line, |all|, n);
    }
    if Choice(av, line).Some? {
      var x :| Best(av, line, x) && Choice(av, line) == Some(x.id);
      assert Covers(av, x.id, line);
    }
  }

  /**
   * The rule for a line on its own, on the entries. None: no entry has enough. A branch: it has an entry
   * with enough, and no other with enough has more stock, or as much and is older, or as much and as old
   * with a smaller id.
   */
  ghost predicate MostStock(av: Availability, line: Line, choice: Option<Id>)
  {
    match choice
    case None => line.variant in av ==> forall c | c in av[line.variant] :: c.available < line.quantity
    case Some(b) =>
      line.variant in av
      && exists x :: x in av[line.variant] && x.id == b && line.quantity <= x.available
           && forall c | c in av[line.variant] && line.quantity <= c.available ::
                && c.available <= x.available
                && (c.available == x.available ==> x.createdAt <= c.createdAt)
                && (c.available == x.available && c.createdAt == x.createdAt ==> x.id <= c.id)
  }

  lemma ChoiceIsMostStock(av: Availability, line: Line)
    ensures MostStock(av, line, Choice(av, line))
  {
    hide MostStock, Covers;
    ChoiceIffCovered(av, line);
    if Choice(av, line).Some? {
      var x :| Best(av, line, x) && Choice(av, line) == Some(x.id);
      BestHasMostStock(av, line, x);
    } else {
      NoneHasEnough(av, line);
    }
  }

  lemma BestHasMostStock(av: Availability, line: Line, x: Branch)
    requires Best(av, line, x)
    ensures MostStock(av, line, Some(x.id))
  {
    assert x in av[line.variant];
  }

  lemma NoneHasEnough(av: Availability, line: Line)
    requires forall b :: !Covers(av, b, line)
    ensures MostStock(av, line, None)
  {
    var all := Offers(av, line.variant);
    forall c | c in all ensures c.available < line.quantity {
      var n :| 0 <= n < |all| && all[n] == c;
      assert !Covers(av, c.id, line);
    }
  }

  /** The branch has an entry for the line's variant with at least its quantity. */
  ghost predicate HasEnough(av: Availability, b: Id, line: Line)
  {
    line.variant in av && exists x :: x in av[line.variant] && x.id == b && line.quantity <= x.available
  }

  lemma CoversMeans(av: Availability, b: Id, line: Line)
    ensures Covers(av, b, line) <==> HasEnough(av, b, line)
  {
    var all := Offers(av, line.variant);
    if x :| x in all && x.id == b && line.quantity <= x.available {
      var n :| 0 <= n < |all| && all[n] == x;
    }
  }

  /** Among the first `upTo` entries, one of which has enough, there is a best. */
  lemma {:induction false} BestOf(av: Availability, line: Line, upTo: nat, n: nat) returns (x: Branch)
    requires n < upTo <= |Offers(av, line.variant)| && Offers(av, line.variant)[n].available >= line.quantity
    ensures x in Offers(av, line.variant)[..upTo] && x.available >= line.quantity
    ensures forall c | c in Offers(av, line.variant)[..upTo] && c.available >= line.quantity ::
              c == x || Earlier(ByStock(x), ByStock(c))
    ensures upTo == |Offers(av, line.variant)| ==> Best(av, line, x)
    decreases upTo
  {
    var all := Offers(av, line.variant);
    var last := all[upTo - 1];
    assert all[..upTo] == all[..upTo - 1] + [last];
    assert all[..|all|] == all;
    if m :| 0 <= m < upTo - 1 && all[m].available >= line.quantity {
      x := BestOf(av, line, upTo - 1, m);
      if last.available >= line.quantity && !Earlier(ByStock(x), ByStock(last)) { x := last; }
    } else {
      x := last;
    }
  }

  lemma {:induction false} ChoosingIdsHas(items: seq<Line>, av: Availability, choice: Option<Id>, id: Id)
    ensures id in ChoosingIds(items, av, choice)
            <==> exists n :: 0 <= n < |items| && items[n].id == id && Choice(av, items[n]) == choice
  {
    if items != [] {
      var last := |items| - 1;
      ChoosingIdsHas(items[..last], av, choice, id);
      assert forall n | 0 <= n < last :: items[..last][n] == items[n];
      if n :| 0 <= n < |items| && items[n].id == id && Choice(av, items[n]) == choice {
        if n < last { assert items[..last][n].id == id; }
      }
    }
  }

  lemma {:induction false} ChosenBranchesHas(items: seq<Line>, av: Availability, b: Id)
    ensures b in ChosenBranches(items, av) <==> exists n :: 0 <= n < |items| && Choice(av, items[n]) == Some(b)
  {
    if items != [] {
      var last := |items| - 1;
      ChosenBranchesHas(items[..last], av, b);
      assert forall n | 0 <= n < last :: items[..last][n] == items[n];
      if n :| 0 <= n < |items| && Choice(av, items[n]) == Some(b) {
        if n < last { assert Choice(av, items[..last][n]) == Some(b); }
      }
    }
  }

  lemma CoverersAreKnown(av: Availability, born: map<Id, int>, b: Id, line: Line)
    requires Consistent(av, born) && Covers(av, b, line)
    ensures b in born
  {
  }

  predicate NoRepeats(s: seq<Id>)
  {
    forall m, n | 0 <= m < n < |s| :: s[m] != s[n]
  }

  lemma {:induction false} ChoosingIdsOnce(items: seq<Line>, av: Availability, choice: Option<Id>)
    requires DistinctIds(items)
    ensures NoRepeats(ChoosingIds(items, av, choice))
  {
    if items != [] {
      var last := |items| - 1;
      ChoosingIdsOnce(items[..last], av, choice);
      ChoosingIdsHas(items[..last], av, choice, items[last].id);
    }
  }

  // ---- what a grouping means to the customer

  predicate InGroup(groups: seq<Group>, n: int, id: Id)
  {
    0 <= n < |groups| && id in groups[n].items
  }

  /** Every id of `ids` sits in exactly one group or is unavailable, once; nothing else does. */
  ghost predicate Partition(ids: set<Id>, groups: seq<Group>, unavailable: seq<Id>)
  {
    && NoRepeats(unavailable) && (forall n | 0 <= n < |groups| :: NoRepeats(groups[n].items))
    && (forall id :: id in ids <==> id in unavailable || exists n :: InGroup(groups, n, id))
    && (forall n, id | InGroup(groups, n, id) :: id !in unavailable)
    && (forall m, n, id | InGroup(groups, m, id) && InGroup(groups, n, id) :: m == n)
  }

  function IdSet(items: seq<Line>): set<Id>
  {
    set n | 0 <= n < |items| :: items[n].id
  }

  lemma AgeOrderDistinct(born: map<Id, int>, s: seq<Id>, branches: set<Id>)
    requires InAgeOrder(born, s, branches)
    ensures NoRepeats(s)
  {
    forall m, n | 0 <= m < n < |s| ensures s[m] != s[n] {
      assert Earlier(AgeKeys(born, s)[m], AgeKeys(born, s)[n]);
    }
  }

  /** A grouping loses no line and serves none twice. */
  lemma GroupedIsPartition(vendor: Id, items: seq<Line>, av: Availability, born: map<Id, int>,
                           groups: seq<Group>, unavailable: seq<Id>)
    requires DistinctIds(items) && Grouped(vendor, items, av, born, groups, unavailable)
    ensures Partition(IdSet(items), groups, unavailable)
  {
    if Covering(av, born, items) != {} {
      assert forall n | 0 <= n < |items| :: Ids(items)[n] == items[n].id;
      assert forall id :: id in IdSet(items) <==> InGroup(groups, 0, id);
    } else {
      ApartIsPartition(vendor, items, av, born, groups, unavailable);
    }
  }

  ghost predicate Chose(items: seq<Line>, av: Availability, id: Id, choice: Option<Id>)
  {
    exists j :: 0 <= j < |items| && items[j].id == id && Choice(av, items[j]) == choice
  }

  lemma ChoseOnce(items: seq<Line>, av: Availability, id: Id, c: Option<Id>, d: Option<Id>)
    requires DistinctIds(items) && Chose(items, av, id, c) && Chose(items, av, id, d)
    ensures c == d
  {
    var i :| 0 <= i < |items| && items[i].id == id && Choice(av, items[i]) == c;
    var j :| 0 <= j < |items| && items[j].id == id && Choice(av, items[j]) == d;
    assert i < j || j < i || i == j;
  }

  lemma InApartGroup(vendor: Id, items: seq<Line>, av: Availability, born: map<Id, int>, groups: seq<Group>, n: int, id: Id)
    requires Apart(vendor, items, av, born, groups)
    ensures InGroup(groups, n, id) <==> 0 <= n < |groups| && Chose(items, av, id, Some(Firsts(groups)[n]))
  {
    if 0 <= n < |groups| { ChoosingIdsHas(items, av, Some(Firsts(groups)[n]), id); }
  }

  lemma LineIsPlaced(vendor: Id, items: seq<Line>, av: Availability, born: map<Id, int>, groups: seq<Group>, j: nat)
    requires Apart(vendor, items, av, born, groups) && j < |items|
    ensures Choice(av, items[j]) == None ==> items[j].id in ChoosingIds(items, av, None)
    ensures Choice(av, items[j]).Some? ==> exists n :: InGroup(groups, n, items[j].id)
  {
    if Choice(av, items[j]).Some? {
      ChosenBranchesHas(items, av, Choice(av, items[j]).value);
      var n :| 0 <= n < |Firsts(groups)| && Firsts(groups)[n] == Choice(av, items[j]).value;
      InApartGroup(vendor, items, av, born, groups, n, items[j].id);
    } else {
      ChoosingIdsHas(items, av, None, items[j].id);
    }
  }

  lemma ApartIsPartition(vendor: Id, items: seq<Line>, av: Availability, born: map<Id, int>,
                         groups: seq<Group>, unavailable: seq<Id>)
    requires DistinctIds(items) && Apart(vendor, items, av, born, groups) && unavailable == ChoosingIds(items, av, None)
    ensures Partition(IdSet(items), groups, unavailable)
  {
    var firsts := Firsts(groups);
    AgeOrderDistinct(born, firsts, ChosenBranches(items, av));
    ChoosingIdsOnce(items, av, None);
    forall n | 0 <= n < |groups| ensures NoRepeats(groups[n].items) {
      ChoosingIdsOnce(items, av, Some(firsts[n]));
    }
    hide Apart, Choice, ChoosingIds, InGroup, Chose;
    forall n, id | InGroup(groups, n, id) ensures 0 <= n < |groups| && Chose(items, av, id, Some(firsts[n])) {
      InApartGroup(vendor, items, av, born, groups, n, id);
    }
    forall id ensures id in unavailable <==> Chose(items, av, id, None) {
      ChosenNothing(items, av, id);
    }
    forall n, id | InGroup(groups, n, id) ensures id !in unavailable {
      if id in unavailable { ChoseOnce(items, av, id, None, Some(firsts[n])); }
    }
    forall m, n, id | InGroup(groups, m, id) && InGroup(groups, n, id) ensures m == n {
      ChoseOnce(items, av, id, Some(firsts[m]), Some(firsts[n]));
    }
    forall id ensures id in IdSet(items) <==> id in unavailable || exists n :: InGroup(groups, n, id) {
      if id in IdSet(items) {
        var j :| 0 <= j < |items| && items[j].id == id;
        LineIsPlaced(vendor, items, av, born, groups, j);
      }
      forall c | Chose(items, av, id, c) ensures id in IdSet(items) {
        ChoseIsLine(items, av, id, c);
      }
    }
  }

  lemma ChosenNothing(items: seq<Line>, av: Availability, id: Id)
    ensures id in ChoosingIds(items, av, None) <==> Chose(items, av, id, None)
  {
    ChoosingIdsHas(items, av, None, id);
  }

  lemma ChoseIsLine(items: seq<Line>, av: Availability, id: Id, c: Option<Id>)
    requires Chose(items, av, id, c)
    ensures id in IdSet(items)
  {
    var j :| 0 <= j < |items| && items[j].id == id && Choice(av, items[j]) == c;
  }

  /** Every branch offered for a group covers each of the group's lines. */
  lemma OfferedBranchesCover(vendor: Id, items: seq<Line>, av: Availability, born: map<Id, int>,
                             groups: seq<Group>, unavailable: seq<Id>, n: nat, b: Id, j: nat)
    requires DistinctIds(items) && Grouped(vendor, items, av, born, groups, unavailable)
    requires j < |items| && InGroup(groups, n, items[j].id) && b in groups[n].branches
    ensures Covers(av, b, items[j]) && HasEnough(av, b, items[j])
  {
    CoversMeans(av, b, items[j]);
    if Covering(av, born, items) != {} {
      assert b in Covering(av, born, items);
    } else {
      var id := items[j].id;
      InApartGroup(vendor, items, av, born, groups, n, id);
      assert Chose(items, av, id, Choice(av, items[j]));
      ChoseOnce(items, av, id, Choice(av, items[j]), Some(Firsts(groups)[n]));
      ChoiceIffCovered(av, items[j]);
    }
  }

  /** A line is unavailable exactly when no branch has enough of it. */
  lemma UnavailableIffUncovered(vendor: Id, items: seq<Line>, av: Availability, born: map<Id, int>,
                                groups: seq<Group>, unavailable: seq<Id>, j: nat)
    requires Consistent(av, born) && DistinctIds(items) && Grouped(vendor, items, av, born, groups, unavailable)
    requires j < |items|
    ensures items[j].id in unavailable <==> forall b :: !Covers(av, b, items[j])
    ensures items[j].id in unavailable <==>
            (items[j].variant in av ==> forall x | x in av[items[j].variant] :: x.available < items[j].quantity)
  {
    ChoiceIsMostStock(av, items[j]);
    ChoiceIffCovered(av, items[j]);
    if Covering(av, born, items) != {} {
      var b :| b in Covering(av, born, items);
      assert Covers(av, b, items[j]);
    } else {
      var id := items[j].id;
      ChosenNothing(items, av, id);
      assert Chose(items, av, id, Choice(av, items[j]));
      if Chose(items, av, id, None) { ChoseOnce(items, av, id, Choice(av, items[j]), None); }
      ChoiceIffCovered(av, items[j]);
    }
  }

  lemma CoversAllMeans(av: Availability, b: Id, items: seq<Line>)
    ensures CoversAll(av, b, items) <==> forall j | 0 <= j < |items| :: HasEnough(av, b, items[j])
  {
    hide Covers, HasEnough;
    forall j | 0 <= j < |items| ensures Covers(av, b, items[j]) <==> HasEnough(av, b, items[j]) {
      CoversMeans(av, b, items[j]);
    }
  }

  /** The lines stay together exactly when some branch covers them all, and then every such branch is offered. */
  lemma TogetherIffCovered(vendor: Id, items: seq<Line>, av: Availability, born: map<Id, int>,
                           groups: seq<Group>, unavailable: seq<Id>)
    requires Consistent(av, born) && items != [] && Grouped(vendor, items, av, born, groups, unavailable)
    ensures (exists n :: 0 <= n < |groups| && !groups[n].fragmented) <==> exists b :: CoversAll(av, b, items)
    ensures forall n, b | 0 <= n < |groups| && !groups[n].fragmented :: b in groups[n].branches <==> CoversAll(av, b, items)
    ensures forall b :: CoversAll(av, b, items) <==> forall j | 0 <= j < |items| :: HasEnough(av, b, items[j])
  {
    hide Consistent, Covers, HasEnough;
    forall b ensures b in Covering(av, born, items) <==> CoversAll(av, b, items) {
      if CoversAll(av, b, items) { CoverersAreKnown(av, born, b, items[0]); }
    }
    forall b ensures CoversAll(av, b, items) <==> forall j | 0 <= j < |items| :: HasEnough(av, b, items[j]) {
      CoversAllMeans(av, b, items);
    }
    if Covering(av, born, items) != {} {
      assert !groups[0].fragmented;
    }
  }

  /**
   * Once split, each served line sits at one branch that has enough, and no branch with enough has more
   * stock, or as much and is older, or as much and as old with a smaller id. No branch gets two groups.
   */
  lemma SplitLinesGoWhereStockIsMost(vendor: Id, items: seq<Line>, av: Availability, born: map<Id, int>,
                                     groups: seq<Group>, unavailable: seq<Id>, n: nat, j: nat)
    requires DistinctIds(items) && Grouped(vendor, items, av, born, groups, unavailable)
    requires n < |groups| && groups[n].fragmented && j < |items| && InGroup(groups, n, items[j].id)
    ensures |groups[n].branches| == 1 && MostStock(av, items[j], Some(groups[n].branches[0]))
    ensures forall m, k | 0 <= m < k < |groups| :: groups[m].branches != groups[k].branches
  {
    var id := items[j].id;
    InApartGroup(vendor, items, av, born, groups, n, id);
    assert Chose(items, av, id, Choice(av, items[j]));
    ChoseOnce(items, av, id, Choice(av, items[j]), Some(Firsts(groups)[n]));
    ChoiceIsMostStock(av, items[j]);
    AgeOrderDistinct(born, Firsts(groups), ChosenBranches(items, av));
    forall m, k | 0 <= m < k < |groups| ensures groups[m].branches != groups[k].branches {
      assert Firsts(groups)[m] != Firsts(groups)[k];
    }
  }

  lemma AgeOrderMeans(born: map<Id, int>, s: seq<Id>, branches: set<Id>)
    requires InAgeOrder(born, s, branches) && branches <= born.Keys
    ensures forall b | b in s :: b in born
    ensures forall m, n | 0 <= m < n < |s| :: born[s[m]] < born[s[n]] || (born[s[m]] == born[s[n]] && s[m] < s[n])
  {
    forall b | b in s ensures b in born {
      var n :| 0 <= n < |s| && s[n] == b;
    }
    forall m, n | 0 <= m < n < |s|
      ensures born[s[m]] < born[s[n]] || (born[s[m]] == born[s[n]] && s[m] < s[n])
    {
      assert Earlier(AgeKeys(born, s)[m], AgeKeys(born, s)[n]);
    }
  }

  /** Branches are offered oldest first, then by id; so are the groups of a split cart by their branch. */
  lemma OldestBranchFirst(vendor: Id, items: seq<Line>, av: Availability, born: map<Id, int>,
                          groups: seq<Group>, unavailable: seq<Id>)
    requires Consistent(av, born) && Grouped(vendor, items, av, born, groups, unavailable)
    ensures forall n, b | 0 <= n < |groups| && b in groups[n].branches :: b in born
    ensures forall g, m, n | 0 <= g < |groups| && 0 <= m < n < |groups[g].branches| ::
              var b, c := groups[g].branches[m], groups[g].branches[n];
              born[b] < born[c] || (born[b] == born[c] && b < c)
    ensures forall m, n | 0 <= m < n < |groups| ::
              && groups[m].branches != [] && groups[n].branches != []
              && var b, c := groups[m].branches[0], groups[n].branches[0];
                 born[b] < born[c] || (born[b] == born[c] && b < c)
  {
    if Covering(av, born, items) != {} {
      AgeOrderMeans(born, groups[0].branches, Covering(av, born, items));
    } else {
      forall b | b in ChosenBranches(items, av) ensures b in born {
        ChosenBranchesHas(items, av, b);
        var n :| 0 <= n < |items| && Choice(av, items[n]) == Some(b);
        ChoiceIffCovered(av, items[n]);
        CoverersAreKnown(av, born, b, items[n]);
      }
      AgeOrderMeans(born, Firsts(groups), ChosenBranches(items, av));
      forall n, b | 0 <= n < |groups| && b in groups[n].branches ensures b in born {
        assert Firsts(groups)[n] == b && b in Firsts(groups);
      }
    }
  }

  /** The ids of `ids` occur in `items` in the same order. */
  predicate InCartOrder(ids: seq<Id>, items: seq<Line>)
  {
    forall p, q | 0 <= p < q < |ids| :: StandsBefore(items, ids[p], ids[q])
  }

  predicate StandsBefore(items: seq<Line>, a: Id, b: Id)
  {
    exists m, n | 0 <= m < n < |items| :: items[m].id == a && items[n].id == b
  }

  lemma {:induction false} ChoosingKeepsOrder(items: seq<Line>, av: Availability, choice: Option<Id>)
    ensures InCartOrder(ChoosingIds(items, av, choice), items)
  {
    if items != [] {
      var last := |items| - 1;
      var before := ChoosingIds(items[..last], av, choice);
      ChoosingKeepsOrder(items[..last], av, choice);
      var ids := ChoosingIds(items, av, choice);
      forall p, q | 0 <= p < q < |ids| ensures StandsBefore(items, ids[p], ids[q]) {
        if q < |before| {
          assert StandsBefore(items[..last], before[p], before[q]);
          var m, n :| 0 <= m < n < last && items[..last][m].id == before[p] && items[..last][n].id == before[q];
          assert items[m].id == ids[p] && items[n].id == ids[q];
        } else {
          ChoosingIdsHas(items[..last], av, choice, before[p]);
          var m :| 0 <= m < last && items[..last][m].id == before[p];
          assert items[m].id == ids[p] && items[last].id == ids[q];
        }
      }
    }
  }

  /** Inside every group, and among the unavailable, the lines stand as they do in the cart. */
  lemma CartOrderIsKept(vendor: Id, items: seq<Line>, av: Availability, born: map<Id, int>,
                        groups: seq<Group>, unavailable: seq<Id>)
    requires Grouped(vendor, items, av, born, groups, unavailable)
    ensures InCartOrder(unavailable, items)
    ensures forall n | 0 <= n < |groups| :: groups[n].vendor == vendor && InCartOrder(groups[n].items, items)
  {
    if Covering(av, born, items) != {} {
      forall p, q | 0 <= p < q < |Ids(items)| ensures StandsBefore(items, Ids(items)[p], Ids(items)[q]) {
        assert items[p].id == Ids(items)[p] && items[q].id == Ids(items)[q];
      }
    } else {
      ChoosingKeepsOrder(items, av, None);
      forall n | 0 <= n < |groups| ensures InCartOrder(groups[n].items, items) {
        ChoosingKeepsOrder(items, av, Some(Firsts(groups)[n]));
      }
    }
  }

  // ---- the order of the availability lists does not matter

  ghost predicate SameOffers(av: Availability, other: Availability)
  {
    forall v, x :: x in Offers(av, v) <==> x in Offers(other, v)
  }

  lemma SameCovers(av: Availability, other: Availability, b: Id, line: Line)
    requires SameOffers(av, other)
    ensures Covers(av, b, line) ==> Covers(other, b, line)
  {
    if Covers(av, b, line) {
      var n :| 0 <= n < |Offers(av, line.variant)| && Offers(av, line.variant)[n].id == b
               && Offers(av, line.variant)[n].available >= line.quantity;
      assert Offers(av, line.variant)[n] in Offers(other, line.variant);
    }
  }

  lemma SameChoice(av: Availability, other: Availability, line: Line)
    requires SameOffers(av, other)
    ensures Choice(av, line) == Choice(other, line)
  {
    forall x ensures Best(av, line, x) <==> Best(other, line, x) {
    }
    if x :| Best(av, line, x) {
      BestIsOne(av, line, x);
      BestIsOne(other, line, x);
    }
  }

  lemma {:induction false} SameChoices(av: Availability, other: Availability, items: seq<Line>, choice: Option<Id>)
    requires SameOffers(av, other)
    ensures ChoosingIds(items, av, choice) == ChoosingIds(items, other, choice)
    ensures ChosenBranches(items, av) == ChosenBranches(items, other)
  {
    if items != [] {
      SameChoices(av, other, items[..|items| - 1], choice);
      SameChoice(av, other, items[|items| - 1]);
    }
  }

  lemma SameCovering(av: Availability, other: Availability, born: map<Id, int>, items: seq<Line>)
    requires SameOffers(av, other)
    ensures Covering(av, born, items) == Covering(other, born, items)
  {
    forall b, n | 0 <= n < |items| ensures Covers(av, b, items[n]) <==> Covers(other, b, items[n]) {
      SameCovers(av, other, b, items[n]);
      SameCovers(other, av, b, items[n]);
    }
    forall b ensures CoversAll(av, b, items) <==> CoversAll(other, b, items) {
    }
  }

  /** However the availability lists are ordered, groups, their branch order and the unavailable lines are the same. */
  lemma ListOrderDoesNotMatter(vendor: Id, items: seq<Line>, av: Availability, other: Availability, born: map<Id, int>,
                               groups: seq<Group>, unavailable: seq<Id>, groups2: seq<Group>, unavailable2: seq<Id>)
    requires SameOffers(av, other)
    requires Grouped(vendor, items, av, born, groups, unavailable)
    requires Grouped(vendor, items, other, born, groups2, unavailable2)
    ensures groups == groups2 && unavailable == unavailable2
  {
    SameCovering(av, other, born, items);
    SameChoices(av, other, items, None);
    if Covering(av, born, items) != {} {
      AgeOrderOnce(born, groups[0].branches, groups2[0].branches, Covering(av, born, items));
    } else {
      var f, g := Firsts(groups), Firsts(groups2);
      AgeOrderOnce(born, f, g, ChosenBranches(items, av));
      assert |groups| == |f| == |groups2|;
      forall n | 0 <= n < |groups| ensures groups[n] == groups2[n] {
        SameChoices(av, other, items, Some(f[n]));
      }
    }
  }

  // ---- the algorithm

  /** Every branch offering any of the lines, with one of its entries. */
  method BranchCoverage(items: seq<Line>, av: Availability, ghost born: map<Id, int>) returns (coverage: map<Id, Branch>)
    requires Consistent(av, born)
    ensures forall b | b in coverage :: b in born && coverage[b].id == b && coverage[b].createdAt == born[b]
    ensures forall n, b | 0 <= n < |items| && Covers(av, b, items[n]) :: b in coverage
    ensures items == [] ==> coverage == map[]
  {
    coverage := map[];
    for n := 0 to |items|
      invariant forall b | b in coverage :: b in born && coverage[b].id == b && coverage[b].createdAt == born[b]
      invariant forall j, b | 0 <= j < n && Covers(av, b, items[j]) :: b in coverage
      invariant n == 0 ==> coverage == map[]
    {
      var branches := Offers(av, items[n].variant);
      ghost var had := coverage.Keys;
      for m := 0 to |branches|
        invariant forall b | b in coverage :: b in born && coverage[b].id == b && coverage[b].createdAt == born[b]
        invariant had <= coverage.Keys && forall j | 0 <= j < m :: branches[j].id in coverage
      {
        coverage := coverage[branches[m].id := branches[m]];
      }
    }
  }

  /** `find` the branch's entry for the line and compare quantities. */
  method BranchCovers(av: Availability, b: Id, line: Line) returns (covers: bool)
    requires forall m, n | 0 <= m < n < |Offers(av, line.variant)| ::
               Offers(av, line.variant)[m].id != Offers(av, line.variant)[n].id
    ensures covers <==> Covers(av, b, line)
  {
    var branches := Offers(av, line.variant);
    for n := 0 to |branches|
      invariant forall m | 0 <= m < n :: branches[m].id != b
    {
      if branches[n].id == b {
        return branches[n].available >= line.quantity;
      }
    }
    covers := false;
  }

  method BranchCoversAll(av: Availability, b: Id, items: seq<Line>, ghost born: map<Id, int>) returns (covers: bool)
    requires Consistent(av, born)
    ensures covers <==> CoversAll(av, b, items)
  {
    for n := 0 to |items|
      invariant forall m | 0 <= m < n :: Covers(av, b, items[m])
    {
      var one := BranchCovers(av, b, items[n]);
      if !one {
        return false;
      }
    }
    covers := true;
  }

  method FullyCovering(items: seq<Line>, av: Availability, coverage: map<Id, Branch>, ghost born: map<Id, int>)
    returns (full: set<Id>)
    requires Consistent(av, born)
    requires forall b | b in coverage :: b in born
    requires forall n, b | 0 <= n < |items| && Covers(av, b, items[n]) :: b in coverage
    requires items == [] ==> coverage == map[]
    ensures full == Covering(av, born, items)
  {
    full := {};
    var rest := coverage.Keys;
    while rest != {}
      invariant rest <= coverage.Keys
      invariant forall b | b in coverage && b !in rest :: b in full <==> CoversAll(av, b, items)
      invariant full <= coverage.Keys - rest
      decreases rest
    {
      var b :| b in rest;
      rest := rest - {b};
      var covers := BranchCoversAll(av, b, items, born);
      if covers { full := full + {b}; }
    }
    forall b ensures b in full <==> b in Covering(av, born, items) {
      if CoversAll(av, b, items) && items != [] { assert Covers(av, b, items[0]); }
    }
  }

  /** Sort branch ids by creation time, then id. */
  method SortBranches(branches: set<Id>, created: map<Id, int>, ghost born: map<Id, int>) returns (sorted: seq<Id>)
    requires forall b | b in branches :: b in created && b in born && created[b] == born[b]
    ensures InAgeOrder(born, sorted, branches)
  {
    var entries: seq<Entry> := [];
    var rest := branches;
    while rest != {}
      invariant rest <= branches
      invariant Ascending(entries)
      invariant forall e :: e in entries <==> e.id in branches && e.id !in rest && e == ByAge(born, e.id)
      decreases rest
    {
      var b :| b in rest;
      rest := rest - {b};
      InsertSorts(Entry(0, created[b], b), entries);
      entries := Insert(Entry(0, created[b], b), entries);
    }
    sorted := seq(|entries|, n requires 0 <= n < |entries| => entries[n].id);
    assert AgeKeys(born, sorted) == entries;
    forall b | b in branches ensures exists n :: 0 <= n < |sorted| && sorted[n] == b {
      assert ByAge(born, b) in entries;
      var n :| 0 <= n < |entries| && entries[n] == ByAge(born, b);
      assert sorted[n] == b;
    }
  }

  /** Sort the branches with enough stock by most stock, age and id, and take the first. */
  method Assign(av: Availability, line: Line) returns (choice: Option<Id>)
    requires forall m, n | 0 <= m < n < |Offers(av, line.variant)| ::
               Offers(av, line.variant)[m].id != Offers(av, line.variant)[n].id
    ensures choice == Choice(av, line)
    ensures MostStock(av, line, choice)
  {
    hide MostStock;
    ChoiceIsMostStock(av, line);
    var branches := Offers(av, line.variant);
    var candidates: seq<Entry> := [];
    for n := 0 to |branches|
      invariant Ascending(candidates)
      invariant forall e :: e in candidates <==>
                  exists m :: 0 <= m < n && branches[m].available >= line.quantity && e == ByStock(branches[m])
    {
      if branches[n].available >= line.quantity {
        InsertSorts(ByStock(branches[n]), candidates);
        candidates := Insert(ByStock(branches[n]), candidates);
      }
    }
    assert forall m | 0 <= m < |branches| && branches[m].available >= line.quantity :: ByStock(branches[m]) in candidates;
    if candidates == [] {
      NoCandidateNoChoice(av, line);
      return None;
    }
    assert candidates[0] in candidates;
    ghost var m :| 0 <= m < |branches| && branches[m].available >= line.quantity && candidates[0] == ByStock(branches[m]);
    FirstIsBest(av, line, candidates, m);
    choice := Some(candidates[0].id);
  }

  lemma NoCandidateNoChoice(av: Availability, line: Line)
    requires forall m | 0 <= m < |Offers(av, line.variant)| :: Offers(av, line.variant)[m].available < line.quantity
    ensures Choice(av, line) == None
  {
  }

  lemma FirstIsBest(av: Availability, line: Line, candidates: seq<Entry>, m: nat)
    requires var branches := Offers(av, line.variant);
             && m < |branches| && branches[m].available >= line.quantity
             && Ascending(candidates) && candidates != [] && candidates[0] == ByStock(branches[m])
             && forall n | 0 <= n < |branches| && branches[n].available >= line.quantity :: ByStock(branches[n]) in candidates
    ensures Choice(av, line) == Some(candidates[0].id)
  {
    var branches := Offers(av, line.variant);
    var x := branches[m];
    forall c | c in branches && c.available >= line.quantity ensures c == x || Earlier(ByStock(x), ByStock(c)) {
      var n :| 0 <= n < |branches| && branches[n] == c;
      var k :| 0 <= k < |candidates| && candidates[k] == ByStock(branches[n]);
      assert k == 0 || Earlier(candidates[0], candidates[k]);
      assert ByStock(c) == ByStock(x) ==> c == x;
    }
    assert Best(av, line, x);
    BestIsOne(av, line, x);
  }

  /** Assign every line; lines nobody covers are set aside, the others keep their cart order. */
  method AssignAll(items: seq<Line>, av: Availability, ghost born: map<Id, int>)
    returns (picks: seq<(Id, Id)>, unavailable: seq<Id>)
    requires Consistent(av, born)
    ensures unavailable == ChoosingIds(items, av, None)
    ensures forall b :: IdsAt(picks, b) == ChoosingIds(items, av, Some(b))
    ensures (set n | 0 <= n < |picks| :: picks[n].1) == ChosenBranches(items, av)
  {
    picks, unavailable := [], [];
    assert items[..0] == [];
    for n := 0 to |items|
      invariant unavailable == ChoosingIds(items[..n], av, None)
      invariant forall b :: IdsAt(picks, b) == ChoosingIds(items[..n], av, Some(b))
      invariant BranchesIn(picks) == ChosenBranches(items[..n], av)
    {
      var choice := Assign(av, items[n]);
      assert items[..n + 1][..n] == items[..n];
      if choice.None? {
        unavailable := unavailable + [items[n].id];
      } else {
        AssignedOneMore(picks, items[n].id, choice.value);
        picks := picks + [(items[n].id, choice.value)];
      }
    }
    assert items[..|items|] == items;
  }

  function BranchesIn(picks: seq<(Id, Id)>): set<Id>
  {
    set n | 0 <= n < |picks| :: picks[n].1
  }

  /** The lines assigned to `b`, in order. */
  function IdsAt(picks: seq<(Id, Id)>, b: Id): seq<Id>
  {
    if picks == [] then []
    else
      var last := picks[|picks| - 1];
      IdsAt(picks[..|picks| - 1], b) + if last.1 == b then [last.0] else []
  }

  lemma AssignedOneMore(picks: seq<(Id, Id)>, id: Id, b: Id)
    ensures forall c :: IdsAt(picks + [(id, b)], c) == IdsAt(picks, c) + if b == c then [id] else []
    ensures BranchesIn(picks + [(id, b)]) == BranchesIn(picks) + {b}
  {
    var all := picks + [(id, b)];
    assert all[..|all| - 1] == picks;
    assert all[|picks|].1 == b;
    forall c | c in BranchesIn(picks) ensures c in BranchesIn(all) {
      var n :| 0 <= n < |picks| && picks[n].1 == c;
      assert all[n].1 == c;
    }
  }

  ghost predicate Collected(byBranch: map<Id, seq<Id>>, picks: seq<(Id, Id)>)
  {
    byBranch.Keys == BranchesIn(picks) && forall b | b in byBranch :: byBranch[b] == IdsAt(picks, b)
  }

  lemma {:induction false} NoneAt(picks: seq<(Id, Id)>, b: Id)
    requires b !in BranchesIn(picks)
    ensures IdsAt(picks, b) == []
  {
    if picks != [] {
      var last := |picks| - 1;
      assert picks[last].1 in BranchesIn(picks);
      forall c | c in BranchesIn(picks[..last]) ensures c in BranchesIn(picks) {
        var n :| 0 <= n < last && picks[..last][n].1 == c;
        assert picks[n].1 == c;
      }
      NoneAt(picks[..last], b);
    }
  }

  lemma CollectOneMore(byBranch: map<Id, seq<Id>>, picks: seq<(Id, Id)>, id: Id, b: Id)
    requires Collected(byBranch, picks)
    ensures Collected(byBranch[b := (if b in byBranch then byBranch[b] else []) + [id]], picks + [(id, b)])
  {
    AssignedOneMore(picks, id, b);
    if b !in byBranch { NoneAt(picks, b); }
  }

  /** Collect the assigned lines branch by branch. */
  method ItemsByBranch(picks: seq<(Id, Id)>) returns (byBranch: map<Id, seq<Id>>)
    ensures byBranch.Keys == BranchesIn(picks)
    ensures forall b | b in byBranch :: byBranch[b] == IdsAt(picks, b)
  {
    byBranch := map[];
    assert Collected(byBranch, picks[..0]);
    for n := 0 to |picks|
      invariant Collected(byBranch, picks[..n])
    {
      var (id, b) := picks[n];
      var list := if b in byBranch then byBranch[b] else [];
      assert picks[..n + 1] == picks[..n] + [(id, b)];
      CollectOneMore(byBranch, picks[..n], id, b);
      byBranch := byBranch[b := list + [id]];
    }
    assert picks[..|picks|] == picks;
  }

  /** The creation time of every branch mentioned anywhere. */
  method CreationTimes(av: Availability, ghost born: map<Id, int>) returns (created: map<Id, int>)
    requires Consistent(av, born)
    ensures forall b | b in created :: b in born && created[b] == born[b]
    ensures forall v, n | v in av && 0 <= n < |av[v]| :: av[v][n].id in created
  {
    created := map[];
    var rest := av.Keys;
    while rest != {}
      invariant rest <= av.Keys
      invariant forall b | b in created :: b in born && created[b] == born[b]
      invariant forall v, n | v in av && v !in rest && 0 <= n < |av[v]| :: av[v][n].id in created
      decreases rest
    {
      var v :| v in rest;
      rest := rest - {v};
      ghost var had := created.Keys;
      for m := 0 to |av[v]|
        invariant forall b | b in created :: b in born && created[b] == born[b]
        invariant had <= created.Keys && forall j | 0 <= j < m :: av[v][j].id in created
      {
        created := created[av[v][m].id := av[v][m].createdAt];
      }
    }
  }

  lemma ChosenAreListed(items: seq<Line>, av: Availability, b: Id)
    requires b in ChosenBranches(items, av)
    ensures exists v, n :: v in av && 0 <= n < |av[v]| && av[v][n].id == b
  {
    ChosenBranchesHas(items, av, b);
    var j :| 0 <= j < |items| && Choice(av, items[j]) == Some(b);
    ChoiceIffCovered(av, items[j]);
    assert Covers(av, b, items[j]);
    var n :| 0 <= n < |Offers(av, items[j].variant)| && Offers(av, items[j].variant)[n].id == b;
    assert items[j].variant in av && av[items[j].variant][n].id == b;
  }

  method GroupOneVendor(vendor: Id, items: seq<Line>, av: Availability, ghost born: map<Id, int>)
    returns (groups: seq<Group>, unavailable: seq<Id>)
    requires Consistent(av, born)
    ensures Grouped(vendor, items, av, born, groups, unavailable)
  {
    hide Consistent, CoversAll, Covers, Choice, InAgeOrder;
    var coverage := BranchCoverage(items, av, born);
    var full := FullyCovering(items, av, coverage, born);
    if full != {} {
      var stamps := map b | b in coverage :: coverage[b].createdAt;
      CoveringAreListed(items, av, born, coverage);
      var sorted := SortBranches(full, stamps, born);
      return [Group(vendor, Ids(items), false, sorted)], [];
    }
    var created := CreationTimes(av, born);
    var picks, none := AssignAll(items, av, born);
    var byBranch := ItemsByBranch(picks);
    forall b | b in byBranch ensures b in created {
      ChosenAreListed(items, av, b);
    }
    var order := SortBranches(byBranch.Keys, created, born);
    OrderedBranchesAreKeys(born, order, byBranch.Keys);
    groups := seq(|order|, n requires 0 <= n < |order| => Group(vendor, byBranch[order[n]], true, [order[n]]));
    unavailable := none;
    assert Firsts(groups) == order;
  }

  lemma OrderedBranchesAreKeys(born: map<Id, int>, order: seq<Id>, keys: set<Id>)
    requires InAgeOrder(born, order, keys)
    ensures forall n | 0 <= n < |order| :: order[n] in keys
  {
  }

  lemma CoveringAreListed(items: seq<Line>, av: Availability, born: map<Id, int>, coverage: map<Id, Branch>)
    requires forall n, b | 0 <= n < |items| && Covers(av, b, items[n]) :: b in coverage
    ensures forall b | b in Covering(av, born, items) :: b in coverage
  {
    forall b | b in Covering(av, born, items) ensures b in coverage {
      assert Covers(av, b, items[0]);
    }
  }

  // ---- all vendors

  /** The lines of one vendor, in cart order. */
  function OfVendor(items: seq<Line>, vendor: Id): seq<Line>
  {
    if items == [] then []
    else
      var last := items[|items| - 1];
      OfVendor(items[..|items| - 1], vendor) + if last.vendor == vendor then [last] else []
  }

  function VendorsOf(items: seq<Line>): set<Id>
  {
    set n | 0 <= n < |items| :: items[n].vendor
  }

  lemma {:induction false} OfVendorHas(items: seq<Line>, vendor: Id, x: Line)
    ensures x in OfVendor(items, vendor) <==> x in items && x.vendor == vendor
  {
    if items != [] {
      var last := |items| - 1;
      OfVendorHas(items[..last], vendor, x);
      assert items == items[..last] + [items[last]];
    }
  }

  lemma {:induction false} OfVendorDistinct(items: seq<Line>, vendor: Id)
    requires DistinctIds(items)
    ensures DistinctIds(OfVendor(items, vendor))
  {
    if items != [] {
      var last := |items| - 1;
      OfVendorDistinct(items[..last], vendor);
      forall n | 0 <= n < |OfVendor(items[..last], vendor)|
        ensures OfVendor(items[..last], vendor)[n].id != items[last].id
      {
        OfVendorHas(items[..last], vendor, OfVendor(items[..last], vendor)[n]);
        var j :| 0 <= j < last && items[..last][j] == OfVendor(items[..last], vendor)[n];
      }
    }
  }

  /** One vendor's share of the result. */
  datatype Part = Part(vendor: Id, groups: seq<Group>, unavailable: seq<Id>)

  function AllGroups(parts: seq<Part>): seq<Group>
  {
    if parts == [] then [] else AllGroups(parts[..|parts| - 1]) + parts[|parts| - 1].groups
  }

  function AllUnavailable(parts: seq<Part>): seq<Id>
  {
    if parts == [] then [] else AllUnavailable(parts[..|parts| - 1]) + parts[|parts| - 1].unavailable
  }

  /** Every vendor of the cart once, each with the one grouping of its lines. */
  ghost predicate PartsOf(items: seq<Line>, av: Availability, born: map<Id, int>, parts: seq<Part>)
  {
    && (forall v :: v in VendorsOf(items) <==> exists n :: 0 <= n < |parts| && parts[n].vendor == v)
    && (forall m, n | 0 <= m < n < |parts| :: parts[m].vendor != parts[n].vendor)
    && (forall n | 0 <= n < |parts| ::
          Grouped(parts[n].vendor, OfVendor(items, parts[n].vendor), av, born, parts[n].groups, parts[n].unavailable))
  }

  /** Lists only the variants of `items`; everything else about a grouping of them is the same. */
  method ScopedAvailability(items: seq<Line>, av: Availability) returns (scoped: Availability)
    ensures forall n | 0 <= n < |items| :: Offers(scoped, items[n].variant) == Offers(av, items[n].variant)
    ensures forall v | v in scoped :: scoped[v] == Offers(av, v)
  {
    scoped := map[];
    for n := 0 to |items|
      invariant forall m | 0 <= m < n :: items[m].variant in scoped
      invariant forall v | v in scoped :: scoped[v] == Offers(av, v)
    {
      scoped := scoped[items[n].variant := Offers(av, items[n].variant)];
    }
  }

  lemma {:induction false} ScopeDoesNotMatter(items: seq<Line>, av: Availability, scoped: Availability, choice: Option<Id>)
    requires forall n | 0 <= n < |items| :: Offers(scoped, items[n].variant) == Offers(av, items[n].variant)
    ensures ChoosingIds(items, scoped, choice) == ChoosingIds(items, av, choice)
    ensures ChosenBranches(items, scoped) == ChosenBranches(items, av)
    ensures forall b :: CoversAll(scoped, b, items) <==> CoversAll(av, b, items)
  {
    if items != [] {
      var last := |items| - 1;
      assert forall n | 0 <= n < last :: items[..last][n] == items[n];
      ScopeDoesNotMatter(items[..last], av, scoped, choice);
      ScopedChoice(av, scoped, items[last]);
      assert forall n, b | 0 <= n < |items| :: Covers(scoped, b, items[n]) <==> Covers(av, b, items[n]);
    }
  }

  lemma ScopedChoice(av: Availability, scoped: Availability, line: Line)
    requires Offers(scoped, line.variant) == Offers(av, line.variant)
    ensures Choice(scoped, line) == Choice(av, line)
  {
    assert forall x :: Best(av, line, x) <==> Best(scoped, line, x);
    if x :| Best(av, line, x) {
      BestIsOne(av, line, x);
      BestIsOne(scoped, line, x);
    }
  }

  lemma ScopedGrouping(vendor: Id, items: seq<Line>, av: Availability, scoped: Availability, born: map<Id, int>,
                       groups: seq<Group>, unavailable: seq<Id>)
    requires forall n | 0 <= n < |items| :: Offers(scoped, items[n].variant) == Offers(av, items[n].variant)
    requires Grouped(vendor, items, scoped, born, groups, unavailable)
    ensures Grouped(vendor, items, av, born, groups, unavailable)
  {
    ScopeDoesNotMatter(items, av, scoped, None);
    assert Covering(scoped, born, items) == Covering(av, born, items);
    forall n | 0 <= n < |groups|
      ensures ChoosingIds(items, scoped, Some(Firsts(groups)[n])) == ChoosingIds(items, av, Some(Firsts(groups)[n]))
    {
      ScopeDoesNotMatter(items, av, scoped, Some(Firsts(groups)[n]));
    }
  }

  lemma VendorsOneMore(items: seq<Line>, n: nat)
    requires n < |items|
    ensures VendorsOf(items[..n + 1]) == VendorsOf(items[..n]) + {items[n].vendor}
  {
    assert items[..n + 1] == items[..n] + [items[n]];
    forall v | v in VendorsOf(items[..n]) ensures v in VendorsOf(items[..n + 1]) {
      var m :| 0 <= m < n && items[..n][m].vendor == v;
      assert items[..n + 1][m].vendor == v;
    }
    assert items[..n + 1][n] == items[n];
  }

  ghost predicate SplitByVendor(items: seq<Line>, order: seq<Id>, byVendor: map<Id, seq<Line>>)
  {
    && byVendor.Keys == VendorsOf(items) && (forall v | v in byVendor :: byVendor[v] == OfVendor(items, v))
    && NoRepeats(order) && forall v :: v in order <==> v in byVendor
  }

  lemma {:induction false} NoneOfVendor(items: seq<Line>, v: Id)
    requires v !in VendorsOf(items)
    ensures OfVendor(items, v) == []
  {
    if items != [] {
      var last := |items| - 1;
      assert items[last].vendor in VendorsOf(items);
      VendorsOneMore(items, last);
      assert items[..last + 1] == items;
      NoneOfVendor(items[..last], v);
    }
  }

  lemma SplitOneMore(items: seq<Line>, n: nat, order: seq<Id>, byVendor: map<Id, seq<Line>>)
    requires n < |items| && SplitByVendor(items[..n], order, byVendor)
    ensures var v := items[n].vendor;
            SplitByVendor(items[..n + 1], if v in byVendor then order else order + [v],
                          byVendor[v := (if v in byVendor then byVendor[v] else []) + [items[n]]])
  {
    hide OfVendor, VendorsOf;
    var v := items[n].vendor;
    VendorsOneMore(items, n);
    forall w ensures OfVendor(items[..n + 1], w) == OfVendor(items[..n], w) + if w == v then [items[n]] else [] {
      OfVendorOneMore(items, n, w);
    }
    if v !in byVendor { NoneOfVendor(items[..n], v); }
  }

  lemma OfVendorOneMore(items: seq<Line>, n: nat, v: Id)
    requires n < |items|
    ensures OfVendor(items[..n + 1], v) == OfVendor(items[..n], v) + if v == items[n].vendor then [items[n]] else []
  {
    assert items[..n + 1][..n] == items[..n];
  }

  /** The vendors of the cart in order of first appearance, each with its lines. */
  method ByVendor(items: seq<Line>) returns (order: seq<Id>, byVendor: map<Id, seq<Line>>)
    ensures SplitByVendor(items, order, byVendor)
  {
    order, byVendor := [], map[];
    assert SplitByVendor(items[..0], order, byVendor);
    hide SplitByVendor;
    for n := 0 to |items|
      invariant SplitByVendor(items[..n], order, byVendor)
    {
      var v := items[n].vendor;
      SplitOneMore(items, n, order, byVendor);
      var list := if v in byVendor then byVendor[v] else [];
      if v !in byVendor { order := order + [v]; }
      byVendor := byVendor[v := list + [items[n]]];
    }
    assert items[..|items|] == items;
  }

  /** One finished part per vendor of `vendors`, in that order. */
  ghost predicate PartsFor(items: seq<Line>, av: Availability, born: map<Id, int>, vendors: seq<Id>, parts: seq<Part>)
  {
    && |parts| == |vendors|
    && forall n | 0 <= n < |parts| :: parts[n].vendor == vendors[n]
         && Grouped(vendors[n], OfVendor(items, vendors[n]), av, born, parts[n].groups, parts[n].unavailable)
  }

  lemma NoPartsYet(items: seq<Line>, av: Availability, born: map<Id, int>)
    ensures PartsFor(items, av, born, [], []) && AllGroups([]) == [] && AllUnavailable([]) == []
  {
  }

  lemma PartDone(items: seq<Line>, av: Availability, born: map<Id, int>, vendors: seq<Id>, parts: seq<Part>, part: Part)
    requires PartsFor(items, av, born, vendors, parts)
    requires Grouped(part.vendor, OfVendor(items, part.vendor), av, born, part.groups, part.unavailable)
    ensures PartsFor(items, av, born, vendors + [part.vendor], parts + [part])
    ensures AllGroups(parts + [part]) == AllGroups(parts) + part.groups
    ensures AllUnavailable(parts + [part]) == AllUnavailable(parts) + part.unavailable
  {
    hide Grouped, OfVendor;
    assert (parts + [part])[..|parts|] == parts;
  }

  lemma PartsDone(items: seq<Line>, av: Availability, born: map<Id, int>, order: seq<Id>, byVendor: map<Id, seq<Line>>,
                  parts: seq<Part>)
    requires SplitByVendor(items, order, byVendor) && PartsFor(items, av, born, order, parts)
    ensures PartsOf(items, av, born, parts)
  {
    hide Grouped, OfVendor;
    forall v ensures v in VendorsOf(items) <==> exists n :: 0 <= n < |parts| && parts[n].vendor == v {
      if v in VendorsOf(items) {
        assert v in order;
        var n :| 0 <= n < |order| && order[n] == v;
        assert parts[n].vendor == v;
      }
      if n :| 0 <= n < |parts| && parts[n].vendor == v { assert order[n] in order; }
    }
  }

  lemma LinesOf(items: seq<Line>, order: seq<Id>, byVendor: map<Id, seq<Line>>, n: nat)
    requires SplitByVendor(items, order, byVendor) && n < |order|
    ensures order[n] in byVendor && byVendor[order[n]] == OfVendor(items, order[n])
  {
    assert order[n] in order;
  }

  lemma ScopedIsConsistent(av: Availability, scoped: Availability, born: map<Id, int>)
    requires Consistent(av, born) && forall v | v in scoped :: scoped[v] == Offers(av, v)
    ensures Consistent(scoped, born)
  {
  }

  method GroupByVendorAndBranch(items: seq<Line>, av: Availability, ghost born: map<Id, int>)
    returns (groups: seq<Group>, unavailable: seq<Id>, ghost parts: seq<Part>)
    requires Consistent(av, born)
    ensures PartsOf(items, av, born, parts) && groups == AllGroups(parts) && unavailable == AllUnavailable(parts)
  {
    hide *;
    var order, byVendor := ByVendor(items);
    groups, unavailable, parts := [], [], [];
    NoPartsYet(items, av, born);
    assert order[..0] == [];
    for n := 0 to |order|
      invariant PartsFor(items, av, born, order[..n], parts)
      invariant groups == AllGroups(parts) && unavailable == AllUnavailable(parts)
    {
      LinesOf(items, order, byVendor, n);
      var lines := byVendor[order[n]];
      var scoped := ScopedAvailability(lines, av);
      ScopedIsConsistent(av, scoped, born);
      var g, u := GroupOneVendor(order[n], lines, scoped, born);
      ScopedGrouping(order[n], lines, av, scoped, born, g, u);
      assert order[..n + 1] == order[..n] + [order[n]];
      ghost var part := Part(order[n], g, u);
      PartDone(items, av, born, order[..n], parts, part);
      groups, unavailable, parts := groups + g, unavailable + u, parts + [part];
    }
    assert order[..|order|] == order;
    PartsDone(items, av, born, order, byVendor, parts);
  }
}
