/**
 * Deadlock freedom of the explicit locks. Every checkout transaction takes its locks along one
 * total rank; transactions that do so can never wait for each other in a circle.
 */
module LockOrder {
  import opened Common

  // ---- code-unit order on strings, the order of a plain sort()

  predicate Before(a: string, b: string)
  {
    if b == "" then false
    else if a == "" then true
    else if a[0] != b[0] then a[0] < b[0]
    else Before(a[1..], b[1..])
  }

  lemma {:induction false} BeforeIrreflexive(a: string)
    ensures !Before(a, a)
  {
    if a != "" { BeforeIrreflexive(a[1..]); }
  }

  lemma {:induction false} BeforeTransitive(a: string, b: string, c: string)
    requires Before(a, b) && Before(b, c)
    ensures Before(a, c)
  {
    if a != "" && a[0] == b[0] && b[0] == c[0] { BeforeTransitive(a[1..], b[1..], c[1..]); }
  }

  lemma {:induction false} BeforeTotal(a: string, b: string)
    ensures Before(a, b) || a == b || Before(b, a)
  {
    if a != "" && b != "" && a[0] == b[0] {
      BeforeTotal(a[1..], b[1..]);
      assert a == [a[0]] + a[1..] && b == [b[0]] + b[1..];
    }
  }

  /** The order spelled out: at the first place where they differ `a` has the smaller unit, or `a` ends there. */
  lemma {:induction false} BeforeAtFirstDifference(a: string, b: string)
    ensures Before(a, b) <==>
            exists n: nat :: n <= |a| && n < |b| && a[..n] == b[..n] && (n == |a| || (n < |a| && a[n] < b[n]))
  {
    if a != "" && b != "" && a[0] == b[0] {
      BeforeAtFirstDifference(a[1..], b[1..]);
      if Before(a, b) {
        var n: nat :| n <= |a[1..]| && n < |b[1..]| && a[1..][..n] == b[1..][..n]
          && (n == |a[1..]| || (n < |a[1..]| && a[1..][n] < b[1..][n]));
        assert a[..n + 1] == [a[0]] + a[1..][..n] && b[..n + 1] == [b[0]] + b[1..][..n];
      }
      if n: nat :| n <= |a| && n < |b| && a[..n] == b[..n] && (n == |a| || (n < |a| && a[n] < b[n])) {
        assert a[1..][..n - 1] == a[..n][1..] && b[1..][..n - 1] == b[..n][1..];
      }
    } else if Before(a, b) {
      assert a[..0] == b[..0];
    } else if a != "" && b != "" {
      assert forall n: nat | 0 < n <= |a| && n < |b| :: a[..n][0] == a[0] && b[..n][0] == b[0];
    }
  }

  lemma {:induction false} CommonPrefix(p: string, a: string, b: string)
    ensures Before(p + a, p + b) <==> Before(a, b)
  {
    if p == "" {
      assert p + a == a && p + b == b;
    } else {
      CommonPrefix(p[1..], a, b);
      assert (p + a)[1..] == p[1..] + a && (p + b)[1..] == p[1..] + b;
    }
  }

  /** The keys the two families of callers sort stock rows by. */
  function StockLockKey(vendor: string, branch: string, variant: string): string
  {
    vendor + ":" + branch + ":" + variant
  }

  function OfferKey(branch: string, variant: string): string
  {
    branch + ":" + variant
  }

  /** Within one vendor, sorting by `branch:variant` and by `vendor:branch:variant` is the same order. */
  lemma OneVendorOrdersAgree(vendor: string, b1: string, v1: string, b2: string, v2: string)
    ensures Before(StockLockKey(vendor, b1, v1), StockLockKey(vendor, b2, v2))
            <==> Before(OfferKey(b1, v1), OfferKey(b2, v2))
  {
    assert StockLockKey(vendor, b1, v1) == (vendor + ":") + OfferKey(b1, v1);
    assert StockLockKey(vendor, b2, v2) == (vendor + ":") + OfferKey(b2, v2);
    CommonPrefix(vendor + ":", OfferKey(b1, v1), OfferKey(b2, v2));
  }

  /** The database's ORDER BY on two columns. */
  predicate RowBefore(b1: string, v1: string, b2: string, v2: string)
  {
    Before(b1, b2) || (b1 == b2 && Before(v1, v2))
  }

  lemma {:induction false} FirstDifferenceDecides(a: string, b: string, x: string, y: string)
    requires |a| == |b| && a != b
    ensures Before(a + x, b + y) <==> Before(a, b)
  {
    assert a == [a[0]] + a[1..] && b == [b[0]] + b[1..];
    if a[0] == b[0] {
      FirstDifferenceDecides(a[1..], b[1..], x, y);
      assert (a + x)[1..] == a[1..] + x && (b + y)[1..] == b[1..] + y;
    }
  }

  /** For ids of one length, as UUIDs are, ORDER BY branch, variant is the order of the joined key. */
  lemma OrderByMatchesKeyOrder(b1: string, v1: string, b2: string, v2: string)
    requires |b1| == |b2|
    ensures RowBefore(b1, v1, b2, v2) <==> Before(OfferKey(b1, v1), OfferKey(b2, v2))
  {
    assert OfferKey(b1, v1) == b1 + (":" + v1) && OfferKey(b2, v2) == b2 + (":" + v2);
    if b1 == b2 {
      CommonPrefix(b1 + ":", v1, v2);
      assert OfferKey(b1, v1) == (b1 + ":") + v1 && OfferKey(b2, v2) == (b1 + ":") + v2;
      BeforeIrreflexive(b1);
    } else {
      FirstDifferenceDecides(b1, b2, ":" + v1, ":" + v2);
    }
  }

  // ---- sorting

  predicate Ascending(s: seq<string>)
  {
    forall m, n | 0 <= m < n < |s| :: s[m] == s[n] || Before(s[m], s[n])
  }

  function InsertSorted(x: string, s: seq<string>): (r: seq<string>)
  {
    if s == [] || x == s[0] || Before(x, s[0]) then [x] + s else [s[0]] + InsertSorted(x, s[1..])
  }

  /** `[...items].sort()`: equal entries stay. */
  function Sorted(s: seq<string>): (r: seq<string>)
  {
    if s == [] then [] else InsertSorted(s[0], Sorted(s[1..]))
  }

  lemma {:induction false} InsertKeepsAscending(x: string, s: seq<string>)
    requires Ascending(s)
    ensures Ascending(InsertSorted(x, s))
    ensures forall y :: y in InsertSorted(x, s) <==> y == x || y in s
  {
    if s == [] || x == s[0] || Before(x, s[0]) {
      forall n | 0 <= n < |s| ensures x == s[n] || Before(x, s[n]) {
        if s != [] && Before(x, s[0]) && Before(s[0], s[n]) { BeforeTransitive(x, s[0], s[n]); }
      }
    } else {
      InsertKeepsAscending(x, s[1..]);
      BeforeTotal(x, s[0]);
      assert s == [s[0]] + s[1..];
      var rest := InsertSorted(x, s[1..]);
      forall n | 0 <= n < |rest| ensures s[0] == rest[n] || Before(s[0], rest[n]) {
        assert rest[n] in rest;
      }
    }
  }

  lemma {:induction false} SortedIsAscending(s: seq<string>)
    ensures Ascending(Sorted(s))
    ensures forall y :: y in Sorted(s) <==> y in s
  {
    if s != [] {
      SortedIsAscending(s[1..]);
      InsertKeepsAscending(s[0], Sorted(s[1..]));
      assert s == [s[0]] + s[1..];
    }
  }

  // ---- locks, their rank, and the plans

  datatype LockClass = User | BranchStatus | StockAdvisory | ReservationRow | VendorRow | StockRow | WindowRow

  datatype Lock = Lock(kind: LockClass, key: string)

  function Position(c: LockClass): nat
  {
    match c
    case User => 0
    case BranchStatus => 1
    case StockAdvisory => 2
    case ReservationRow => 3
    case VendorRow => 4
    case StockRow => 5
    case WindowRow => 6
  }

  predicate Below(a: Lock, b: Lock)
  {
    Position(a.kind) < Position(b.kind) || (a.kind == b.kind && Before(a.key, b.key))
  }

  lemma BelowIsStrictTotalOrder(a: Lock, b: Lock, c: Lock)
    ensures !Below(a, a)
    ensures Below(a, b) && Below(b, c) ==> Below(a, c)
    ensures Below(a, b) || a == b || Below(b, a)
  {
    BeforeIrreflexive(a.key);
    BeforeTotal(a.key, b.key);
    if Before(a.key, b.key) && Before(b.key, c.key) { BeforeTransitive(a.key, b.key, c.key); }
  }

  /** A lock plan that never goes down in rank; asking again for a lock already held is harmless. */
  predicate Climbs(plan: seq<Lock>)
  {
    forall m, n | 0 <= m < n < |plan| :: plan[m] == plan[n] || Below(plan[m], plan[n])
  }

  function Locks(kind: LockClass, keys: seq<string>): seq<Lock>
  {
    seq(|keys|, n requires 0 <= n < |keys| => Lock(kind, keys[n]))
  }

  datatype StockRef = StockRef(vendor: string, branch: string, variant: string)

  function StockKeys(refs: seq<StockRef>): seq<string>
  {
    seq(|refs|, n requires 0 <= n < |refs| => StockLockKey(refs[n].vendor, refs[n].branch, refs[n].variant))
  }

  function ReservePlan(branches: seq<string>, reservations: seq<string>, vendors: seq<string>,
                       stock: seq<StockRef>, windows: seq<string>): seq<Lock>
  {
    Locks(BranchStatus, Sorted(branches)) + Locks(ReservationRow, Sorted(reservations))
    + Locks(VendorRow, Sorted(vendors)) + Locks(StockRow, Sorted(StockKeys(stock))) + Locks(WindowRow, Sorted(windows))
  }

  /** Cancel, and confirm's expiry transaction: the reservation, then its stock rows. */
  function ReleasePlan(reservation: string, items: seq<StockRef>): seq<Lock>
  {
    [Lock(ReservationRow, reservation)] + Locks(StockRow, Sorted(StockKeys(items)))
  }

  function ConfirmPlan(user: string, reservation: string, vendors: seq<string>, items: seq<StockRef>): seq<Lock>
  {
    [Lock(User, user), Lock(ReservationRow, reservation)]
    + Locks(VendorRow, Sorted(vendors)) + Locks(StockRow, Sorted(StockKeys(items)))
  }

  function DecreasePlan(reservations: seq<string>, row: StockRef): seq<Lock>
  {
    Locks(ReservationRow, Sorted(reservations)) + Locks(StockRow, StockKeys([row]))
  }

  /** Restock of one vendor's offers; `rows` come back from the database in ORDER BY order. */
  function RestockPlan(advisory: seq<string>, reservations: seq<string>, rows: seq<StockRef>): seq<Lock>
  {
    Locks(StockAdvisory, Sorted(advisory)) + Locks(ReservationRow, Sorted(reservations)) + Locks(StockRow, StockKeys(rows))
  }

  // ---- which locks the plans contain

  /** The lock of one stock row, on which every service agrees. */
  predicate IsStockLock(l: Lock, refs: seq<StockRef>)
  {
    l.kind == StockRow
    && exists n | 0 <= n < |refs| :: l.key == refs[n].vendor + ":" + refs[n].branch + ":" + refs[n].variant
  }

  lemma LocksExactly(kind: LockClass, keys: seq<string>, l: Lock)
    ensures l in Locks(kind, keys) <==> l.kind == kind && l.key in keys
  {
    if l.kind == kind && l.key in keys {
      var n :| 0 <= n < |keys| && keys[n] == l.key;
      assert Locks(kind, keys)[n] == l;
    }
  }

  lemma SortedLocksExactly(kind: LockClass, keys: seq<string>, l: Lock)
    ensures l in Locks(kind, Sorted(keys)) <==> l.kind == kind && l.key in keys
  {
    LocksExactly(kind, Sorted(keys), l);
    SortedIsAscending(keys);
  }

  lemma StockLocksExactly(refs: seq<StockRef>, l: Lock)
    ensures l in Locks(StockRow, StockKeys(refs)) <==> IsStockLock(l, refs)
    ensures l in Locks(StockRow, Sorted(StockKeys(refs))) <==> IsStockLock(l, refs)
  {
    LocksExactly(StockRow, StockKeys(refs), l);
    SortedLocksExactly(StockRow, StockKeys(refs), l);
    if IsStockLock(l, refs) {
      var n :| 0 <= n < |refs| && l.key == refs[n].vendor + ":" + refs[n].branch + ":" + refs[n].variant;
      assert StockKeys(refs)[n] == l.key;
    }
  }

  /**
   * A reserve locks the status of its branches, the expired reservations, its vendors, stock rows and
   * windows: these and no others.
   */
  lemma ReserveLocksExactly(branches: seq<string>, reservations: seq<string>, vendors: seq<string>,
                            stock: seq<StockRef>, windows: seq<string>, l: Lock)
    ensures l in ReservePlan(branches, reservations, vendors, stock, windows) <==>
            || (l.kind == BranchStatus && l.key in branches)
            || (l.kind == ReservationRow && l.key in reservations)
            || (l.kind == VendorRow && l.key in vendors)
            || (l.kind == StockRow && exists n | 0 <= n < |stock| ::
                  l.key == stock[n].vendor + ":" + stock[n].branch + ":" + stock[n].variant)
            || (l.kind == WindowRow && l.key in windows)
  {
    hide Locks, Sorted, StockKeys;
    SortedLocksExactly(BranchStatus, branches, l);
    SortedLocksExactly(ReservationRow, reservations, l);
    SortedLocksExactly(VendorRow, vendors, l);
    StockLocksExactly(stock, l);
    SortedLocksExactly(WindowRow, windows, l);
  }

  lemma ReleaseLocksExactly(reservation: string, items: seq<StockRef>, l: Lock)
    ensures l in ReleasePlan(reservation, items) <==>
            || l == Lock(ReservationRow, reservation)
            || (l.kind == StockRow && exists n | 0 <= n < |items| ::
                  l.key == items[n].vendor + ":" + items[n].branch + ":" + items[n].variant)
  {
    hide Locks, Sorted, StockKeys;
    StockLocksExactly(items, l);
  }

  lemma ConfirmLocksExactly(user: string, reservation: string, vendors: seq<string>, items: seq<StockRef>, l: Lock)
    ensures l in ConfirmPlan(user, reservation, vendors, items) <==>
            || l == Lock(User, user)
            || l == Lock(ReservationRow, reservation)
            || (l.kind == VendorRow && l.key in vendors)
            || (l.kind == StockRow && exists n | 0 <= n < |items| ::
                  l.key == items[n].vendor + ":" + items[n].branch + ":" + items[n].variant)
  {
    hide Locks, Sorted, StockKeys;
    SortedLocksExactly(VendorRow, vendors, l);
    StockLocksExactly(items, l);
  }

  lemma DecreaseLocksExactly(reservations: seq<string>, row: StockRef, l: Lock)
    ensures l in DecreasePlan(reservations, row) <==>
            || (l.kind == ReservationRow && l.key in reservations)
            || l == Lock(StockRow, row.vendor + ":" + row.branch + ":" + row.variant)
  {
    hide Locks, Sorted, StockKeys;
    SortedLocksExactly(ReservationRow, reservations, l);
    StockLocksExactly([row], l);
    assert [row][0] == row;
  }

  lemma RestockLocksExactly(advisory: seq<string>, reservations: seq<string>, rows: seq<StockRef>, l: Lock)
    ensures l in RestockPlan(advisory, reservations, rows) <==>
            || (l.kind == StockAdvisory && l.key in advisory)
            || (l.kind == ReservationRow && l.key in reservations)
            || (l.kind == StockRow && exists n | 0 <= n < |rows| ::
                  l.key == rows[n].vendor + ":" + rows[n].branch + ":" + rows[n].variant)
  {
    hide Locks, Sorted, StockKeys;
    SortedLocksExactly(StockAdvisory, advisory, l);
    SortedLocksExactly(ReservationRow, reservations, l);
    StockLocksExactly(rows, l);
  }

  predicate UpTo(plan: seq<Lock>, position: nat)
  {
    forall n | 0 <= n < |plan| :: Position(plan[n].kind) <= position
  }

  /** Adding one class of sorted locks above everything taken so far keeps a plan climbing. */
  lemma AppendClass(low: seq<Lock>, position: nat, kind: LockClass, keys: seq<string>)
    requires Climbs(low) && UpTo(low, position) && position < Position(kind) && Ascending(keys)
    ensures Climbs(low + Locks(kind, keys)) && UpTo(low + Locks(kind, keys), Position(kind))
  {
  }

  lemma AppendSorted(low: seq<Lock>, position: nat, kind: LockClass, keys: seq<string>)
    requires Climbs(low) && UpTo(low, position) && position < Position(kind)
    ensures Climbs(low + Locks(kind, Sorted(keys))) && UpTo(low + Locks(kind, Sorted(keys)), Position(kind))
  {
    SortedIsAscending(keys);
    AppendClass(low, position, kind, Sorted(keys));
  }

  lemma ReservePlanClimbs(branches: seq<string>, reservations: seq<string>, vendors: seq<string>,
                          stock: seq<StockRef>, windows: seq<string>)
    ensures Climbs(ReservePlan(branches, reservations, vendors, stock, windows))
  {
    hide Climbs, UpTo, Locks, Sorted, StockKeys;
    var b := Locks(BranchStatus, Sorted(branches));
    FirstClass(BranchStatus, branches);
    AppendSorted(b, 1, ReservationRow, reservations);
    var r := b + Locks(ReservationRow, Sorted(reservations));
    AppendSorted(r, 3, VendorRow, vendors);
    var v := r + Locks(VendorRow, Sorted(vendors));
    AppendSorted(v, 4, StockRow, StockKeys(stock));
    AppendSorted(v + Locks(StockRow, Sorted(StockKeys(stock))), 5, WindowRow, windows);
  }

  lemma FirstClass(kind: LockClass, keys: seq<string>)
    ensures Climbs(Locks(kind, Sorted(keys))) && UpTo(Locks(kind, Sorted(keys)), Position(kind))
  {
    SortedIsAscending(keys);
  }

  lemma ReleasePlanClimbs(reservation: string, items: seq<StockRef>)
    ensures Climbs(ReleasePlan(reservation, items))
  {
    AppendSorted([Lock(ReservationRow, reservation)], 3, StockRow, StockKeys(items));
  }

  lemma ConfirmPlanClimbs(user: string, reservation: string, vendors: seq<string>, items: seq<StockRef>)
    ensures Climbs(ConfirmPlan(user, reservation, vendors, items))
  {
    var first := [Lock(User, user), Lock(ReservationRow, reservation)];
    AppendSorted(first, 3, VendorRow, vendors);
    AppendSorted(first + Locks(VendorRow, Sorted(vendors)), 4, StockRow, StockKeys(items));
  }

  lemma DecreasePlanClimbs(reservations: seq<string>, row: StockRef)
    ensures Climbs(DecreasePlan(reservations, row))
  {
    FirstClass(ReservationRow, reservations);
    AppendClass(Locks(ReservationRow, Sorted(reservations)), 3, StockRow, StockKeys([row]));
  }

  lemma RestockPlanClimbs(vendor: string, advisory: seq<string>, reservations: seq<string>, rows: seq<StockRef>)
    requires forall n | 0 <= n < |rows| :: rows[n].vendor == vendor && |rows[n].branch| == |rows[0].branch|
    requires forall m, n | 0 <= m < n < |rows| :: RowBefore(rows[m].branch, rows[m].variant, rows[n].branch, rows[n].variant)
    ensures Climbs(RestockPlan(advisory, reservations, rows))
  {
    forall m, n | 0 <= m < n < |rows| ensures Before(StockKeys(rows)[m], StockKeys(rows)[n]) {
      OrderByMatchesKeyOrder(rows[m].branch, rows[m].variant, rows[n].branch, rows[n].variant);
      OneVendorOrdersAgree(vendor, rows[m].branch, rows[m].variant, rows[n].branch, rows[n].variant);
    }
    FirstClass(StockAdvisory, advisory);
    AppendSorted(Locks(StockAdvisory, Sorted(advisory)), 2, ReservationRow, reservations);
    AppendClass(Locks(StockAdvisory, Sorted(advisory)) + Locks(ReservationRow, Sorted(reservations)), 3,
                StockRow, StockKeys(rows));
  }

  // ---- transactions taking locks

  /** A transaction holds the first `taken` locks of its plan and asks for the next one. */
  datatype Job = Job(plan: seq<Lock>, taken: nat)

  type Jobs = map<Id, Job>

  datatype Step = Start(t: Id, plan: seq<Lock>) | Take(t: Id) | Finish(t: Id)

  predicate Unfinished(j: Job)
  {
    j.taken < |j.plan|
  }

  function Next(j: Job): Lock
    requires Unfinished(j)
  {
    j.plan[j.taken]
  }

  predicate Waiting(s: Jobs, t: Id)
  {
    t in s && Unfinished(s[t])
  }

  predicate Holds(j: Job, l: Lock)
    requires j.taken <= |j.plan|
  {
    l in j.plan[..j.taken]
  }

  /** `t` cannot go on because `u` holds the lock it asks for. */
  predicate WaitsFor(s: Jobs, t: Id, u: Id)
    requires Valid(s)
  {
    t in s && u in s && t != u && Unfinished(s[t]) && Holds(s[u], Next(s[t]))
  }

  predicate Valid(s: Jobs)
  {
    forall t | t in s :: s[t].taken <= |s[t].plan| && Climbs(s[t].plan)
  }

  ghost predicate Exclusive(s: Jobs)
    requires Valid(s)
  {
    forall t, u, l | t in s && u in s && t != u && Holds(s[t], l) :: !Holds(s[u], l)
  }

  predicate CanStep(s: Jobs, a: Step)
    requires Valid(s)
  {
    match a
    case Start(t, plan) => t !in s && Climbs(plan)
    case Take(t) => t in s && Unfinished(s[t]) && forall u | u in s && u != t :: !Holds(s[u], Next(s[t]))
    case Finish(t) => t in s && !Unfinished(s[t])
  }

  function DoStep(s: Jobs, a: Step): Jobs
    requires Valid(s) && CanStep(s, a)
  {
    match a
    case Start(t, plan) => s[t := Job(plan, 0)]
    case Take(t) => s[t := s[t].(taken := s[t].taken + 1)]
    case Finish(t) => s - {t}
  }

  lemma StepKeepsExclusive(s: Jobs, a: Step)
    requires Valid(s) && Exclusive(s) && CanStep(s, a)
    ensures Valid(DoStep(s, a)) && Exclusive(DoStep(s, a))
  {
    if a.Take? {
      var after := DoStep(s, a);
      forall l ensures Holds(after[a.t], l) <==> Holds(s[a.t], l) || l == Next(s[a.t]) {
        assert after[a.t].plan[..after[a.t].taken] == s[a.t].plan[..s[a.t].taken] + [Next(s[a.t])];
      }
    }
  }

  ghost predicate Reachable(s: Jobs, steps: seq<Step>)
    decreases |steps|
  {
    if steps == [] then s == map[]
    else
      exists before: Jobs :: Reachable(before, steps[..|steps| - 1]) && Valid(before)
        && CanStep(before, steps[|steps| - 1]) && s == DoStep(before, steps[|steps| - 1])
  }

  lemma {:induction false} ReachableIsExclusive(s: Jobs, steps: seq<Step>)
    requires Reachable(s, steps)
    ensures Valid(s) && Exclusive(s)
    decreases |steps|
  {
    if steps != [] {
      var last := steps[|steps| - 1];
      var before: Jobs :| Reachable(before, steps[..|steps| - 1]) && Valid(before)
        && CanStep(before, last) && s == DoStep(before, last);
      ReachableIsExclusive(before, steps[..|steps| - 1]);
      StepKeepsExclusive(before, last);
    }
  }

  lemma HeldIsLower(j: Job, l: Lock)
    requires Unfinished(j) && Climbs(j.plan) && Holds(j, l)
    ensures l == Next(j) || Below(l, Next(j))
  {
    var n :| 0 <= n < j.taken && j.plan[n] == l;
  }

  /** Going along a wait, the lock asked for gets strictly higher. */
  lemma WaitingClimbs(s: Jobs, t: Id, u: Id, w: Id)
    requires Valid(s) && Exclusive(s) && WaitsFor(s, t, u) && WaitsFor(s, u, w)
    ensures Below(Next(s[t]), Next(s[u]))
  {
    HeldIsLower(s[u], Next(s[t]));
  }

  predicate WaitChain(s: Jobs, chain: seq<Id>)
    requires Valid(s)
  {
    forall n | 0 <= n < |chain| - 1 :: WaitsFor(s, chain[n], chain[n + 1])
  }

  lemma {:induction false} ChainClimbs(s: Jobs, chain: seq<Id>)
    requires Valid(s) && Exclusive(s) && |chain| >= 3 && WaitChain(s, chain)
    ensures Waiting(s, chain[0]) && Waiting(s, chain[|chain| - 2])
    ensures Below(Next(s[chain[0]]), Next(s[chain[|chain| - 2]]))
    decreases |chain|
  {
    assert WaitsFor(s, chain[0], chain[1]) && WaitsFor(s, chain[1], chain[2]);
    WaitingClimbs(s, chain[0], chain[1], chain[2]);
    if |chain| > 3 {
      var rest := chain[1..];
      forall n | 0 <= n < |rest| - 1 ensures WaitsFor(s, rest[n], rest[n + 1]) {
        assert WaitsFor(s, chain[n + 1], chain[n + 2]);
      }
      ChainClimbs(s, rest);
      assert rest[|rest| - 2] == chain[|chain| - 2];
      BelowIsStrictTotalOrder(Next(s[chain[0]]), Next(s[chain[1]]), Next(s[chain[|chain| - 2]]));
    }
  }

  /** No reachable state has a circle of transactions each waiting for the next. */
  lemma NoWaitCycle(s: Jobs, steps: seq<Step>, chain: seq<Id>)
    requires Reachable(s, steps)
    requires |chain| >= 2 && chain[0] == chain[|chain| - 1]
    ensures Valid(s) && !WaitChain(s, chain)
  {
    ReachableIsExclusive(s, steps);
    if WaitChain(s, chain) {
      // Go round once more by one wait, so that the chain ends in a waiting transaction.
      var round := chain + [chain[1]];
      assert WaitChain(s, round) by {
        forall n | 0 <= n < |round| - 1 ensures WaitsFor(s, round[n], round[n + 1]) {
          if n == |chain| - 1 { assert WaitsFor(s, chain[0], chain[1]); }
        }
      }
      ChainClimbs(s, round);
      BelowIsStrictTotalOrder(Next(s[chain[0]]), Next(s[chain[0]]), Next(s[chain[0]]));
    }
  }

  /** Among finitely many waiting transactions one asks for a highest lock. */
  lemma {:induction false} SomeoneAsksHighest(s: Jobs, ts: set<Id>) returns (top: Id)
    requires ts != {} && forall t | t in ts :: t in s && Unfinished(s[t])
    ensures top in ts && forall t | t in ts :: t == top || !Below(Next(s[top]), Next(s[t]))
    decreases |ts|
  {
    top :| top in ts;
    if ts != {top} {
      var other := SomeoneAsksHighest(s, ts - {top});
      BelowIsStrictTotalOrder(Next(s[other]), Next(s[top]), Next(s[other]));
      if Below(Next(s[other]), Next(s[top])) {
        forall t | t in ts ensures t == top || !Below(Next(s[top]), Next(s[t])) {
          if t != top { BelowIsStrictTotalOrder(Next(s[other]), Next(s[top]), Next(s[t])); }
        }
      } else {
        top := other;
      }
    }
  }

  /** Deadlock freedom as progress: while any transaction is left, one of them can take its next step. */
  lemma SomeoneCanGoOn(s: Jobs, steps: seq<Step>) returns (a: Step)
    requires Reachable(s, steps) && s != map[]
    ensures Valid(s) && !a.Start? && CanStep(s, a)
  {
    ReachableIsExclusive(s, steps);
    if done :| done in s && !Unfinished(s[done]) {
      return Finish(done);
    }
    if again :| again in s && Holds(s[again], Next(s[again])) {
      return Take(again);
    }
    var anyone :| anyone in s;
    var top := SomeoneAsksHighest(s, s.Keys);
    a := Take(top);
    forall u | u in s && u != top ensures !Holds(s[u], Next(s[top])) {
      if Holds(s[u], Next(s[top])) { HeldIsLower(s[u], Next(s[top])); }
    }
  }

  // ---- the services' own plans

  /** A transaction of one of the services, with what it locks. */
  datatype Service =
    | ReserveTxn(branches: seq<string>, reservations: seq<string>, vendors: seq<string>, stock: seq<StockRef>,
                 windows: seq<string>)
    | ConfirmTxn(user: string, reservation: string, vendors: seq<string>, stock: seq<StockRef>)
    | ReleaseTxn(reservation: string, stock: seq<StockRef>)
    | DecreaseTxn(reservations: seq<string>, row: StockRef)
    | RestockTxn(vendor: string, advisory: seq<string>, reservations: seq<string>, rows: seq<StockRef>)

  function PlanOf(x: Service): seq<Lock>
  {
    match x
    case ReserveTxn(branches, reservations, vendors, stock, windows) =>
      ReservePlan(branches, reservations, vendors, stock, windows)
    case ConfirmTxn(user, reservation, vendors, stock) => ConfirmPlan(user, reservation, vendors, stock)
    case ReleaseTxn(reservation, stock) => ReleasePlan(reservation, stock)
    case DecreaseTxn(reservations, row) => DecreasePlan(reservations, row)
    case RestockTxn(_, advisory, reservations, rows) => RestockPlan(advisory, reservations, rows)
  }

  /** A restock locks one vendor's rows, as ORDER BY returns them, with ids of one length. */
  predicate Proper(x: Service)
  {
    x.RestockTxn? ==>
      && (forall n | 0 <= n < |x.rows| :: x.rows[n].vendor == x.vendor && |x.rows[n].branch| == |x.rows[0].branch|)
      && forall m, n | 0 <= m < n < |x.rows| ::
           RowBefore(x.rows[m].branch, x.rows[m].variant, x.rows[n].branch, x.rows[n].variant)
  }

  lemma ServicePlansClimb(x: Service)
    requires Proper(x)
    ensures Climbs(PlanOf(x))
  {
    hide Climbs, ReservePlan, ConfirmPlan, ReleasePlan, DecreasePlan, RestockPlan;
    match x
    case ReserveTxn(branches, reservations, vendors, stock, windows) =>
      ReservePlanClimbs(branches, reservations, vendors, stock, windows);
    case ConfirmTxn(user, reservation, vendors, stock) => ConfirmPlanClimbs(user, reservation, vendors, stock);
    case ReleaseTxn(reservation, stock) => ReleasePlanClimbs(reservation, stock);
    case DecreaseTxn(reservations, row) => DecreasePlanClimbs(reservations, row);
    case RestockTxn(vendor, advisory, reservations, rows) => RestockPlanClimbs(vendor, advisory, reservations, rows);
  }

  /** Every service takes its locks class by class in one order, and within a class in code-unit order. */
  lemma TakenInOneOrder(x: Service, m: nat, n: nat)
    requires Proper(x) && m < n < |PlanOf(x)|
    ensures var order := [User, BranchStatus, StockAdvisory, ReservationRow, VendorRow, StockRow, WindowRow];
            var a, b := PlanOf(x)[m], PlanOf(x)[n];
            || a == b
            || (a.kind == b.kind && Before(a.key, b.key))
            || exists i, j | 0 <= i < j < |order| :: order[i] == a.kind && order[j] == b.kind
  {
    ServicePlansClimb(x);
    hide PlanOf, Proper, Before;
    var order := [User, BranchStatus, StockAdvisory, ReservationRow, VendorRow, StockRow, WindowRow];
    assert forall c: LockClass :: order[Position(c)] == c;
  }

  datatype ServiceStep = Begin(t: Id, service: Service) | TakeNext(t: Id) | Commit(t: Id)

  /** `t` takes its next lock only when nobody else holds it. */
  predicate CanServe(s: Jobs, a: ServiceStep)
  {
    match a
    case Begin(t, x) => t !in s && Proper(x)
    case TakeNext(t) =>
      t in s && Unfinished(s[t])
      && forall u | u in s && u != t :: s[u].taken <= |s[u].plan| ==> !Holds(s[u], Next(s[t]))
    case Commit(t) => t in s && !Unfinished(s[t])
  }

  function Serve(s: Jobs, a: ServiceStep): Jobs
    requires CanServe(s, a)
  {
    match a
    case Begin(t, x) => s[t := Job(PlanOf(x), 0)]
    case TakeNext(t) => s[t := s[t].(taken := s[t].taken + 1)]
    case Commit(t) => s - {t}
  }

  ghost predicate Serves(s: Jobs, steps: seq<ServiceStep>)
    decreases |steps|
  {
    steps == [] || (CanServe(s, steps[0]) && Serves(Serve(s, steps[0]), steps[1..]))
  }

  ghost function Served(s: Jobs, steps: seq<ServiceStep>): Jobs
    requires Serves(s, steps)
    decreases |steps|
  {
    if steps == [] then s else Served(Serve(s, steps[0]), steps[1..])
  }

  /** Who is at work after `steps`, and on what. */
  function AtWork(who: map<Id, Service>, steps: seq<ServiceStep>): map<Id, Service>
    decreases |steps|
  {
    if steps == [] then who
    else
      var now := match steps[0]
        case Begin(t, x) => who[t := x]
        case TakeNext(_) => who
        case Commit(t) => who - {t};
      AtWork(now, steps[1..])
  }

  lemma {:induction false} JobsAreServices(s: Jobs, who: map<Id, Service>, steps: seq<ServiceStep>)
    requires Serves(s, steps) && s.Keys == who.Keys && forall t | t in s :: s[t].plan == PlanOf(who[t])
    ensures Served(s, steps).Keys == AtWork(who, steps).Keys
    ensures forall t | t in Served(s, steps) :: Served(s, steps)[t].plan == PlanOf(AtWork(who, steps)[t])
    decreases |steps|
  {
    hide PlanOf, Proper;
    if steps != [] {
      var now := match steps[0]
        case Begin(t, x) => who[t := x]
        case TakeNext(_) => who
        case Commit(t) => who - {t};
      JobsAreServices(Serve(s, steps[0]), now, steps[1..]);
    }
  }

  /** The stock rows a service works on. */
  function StockOf(x: Service): (rows: seq<StockRef>)
    ensures x.ReserveTxn? || x.ConfirmTxn? || x.ReleaseTxn? ==> rows == x.stock
    ensures x.DecreaseTxn? ==> rows == [x.row]
    ensures x.RestockTxn? ==> rows == x.rows
  {
    match x
    case ReserveTxn(_, _, _, stock, _) => stock
    case ConfirmTxn(_, _, _, stock) => stock
    case ReleaseTxn(_, stock) => stock
    case DecreaseTxn(_, row) => [row]
    case RestockTxn(_, _, _, rows) => rows
  }

  /** The reservations it locks: its own, or the expired ones on its rows. */
  function ReservationsOf(x: Service): (ids: seq<string>)
    ensures x.ConfirmTxn? || x.ReleaseTxn? ==> ids == [x.reservation]
    ensures x.ReserveTxn? || x.DecreaseTxn? || x.RestockTxn? ==> ids == x.reservations
  {
    match x
    case ReserveTxn(_, reservations, _, _, _) => reservations
    case ConfirmTxn(_, reservation, _, _) => [reservation]
    case ReleaseTxn(reservation, _) => [reservation]
    case DecreaseTxn(reservations, _) => reservations
    case RestockTxn(_, _, reservations, _) => reservations
  }

  function WindowsOf(x: Service): (ids: seq<string>)
    ensures x.ReserveTxn? ==> ids == x.windows
    ensures !x.ReserveTxn? ==> ids == []
  {
    if x.ReserveTxn? then x.windows else []
  }

  function StockLock(ref: StockRef): Lock
  {
    Lock(StockRow, StockLockKey(ref.vendor, ref.branch, ref.variant))
  }

  lemma PlanLocksItsRows(x: Service, l: Lock)
    requires || (exists n | 0 <= n < |StockOf(x)| :: l == StockLock(StockOf(x)[n]))
             || (l.kind == ReservationRow && l.key in ReservationsOf(x))
             || (l.kind == WindowRow && l.key in WindowsOf(x))
    ensures l in PlanOf(x)
  {
    hide ReservePlan, ConfirmPlan, ReleasePlan, DecreasePlan, RestockPlan;
    match x
    case ReserveTxn(branches, reservations, vendors, stock, windows) =>
      ReserveLocksExactly(branches, reservations, vendors, stock, windows, l);
    case ConfirmTxn(user, reservation, vendors, stock) => ConfirmLocksExactly(user, reservation, vendors, stock, l);
    case ReleaseTxn(reservation, stock) => ReleaseLocksExactly(reservation, stock, l);
    case DecreaseTxn(reservations, row) => DecreaseLocksExactly(reservations, row, l);
    case RestockTxn(_, advisory, reservations, rows) => RestockLocksExactly(advisory, reservations, rows, l);
  }

  lemma BothCannotHold(s: Jobs, t: Id, u: Id, l: Lock)
    requires Valid(s) && Exclusive(s) && t in s && u in s && t != u
    requires !Unfinished(s[t]) && !Unfinished(s[u]) && l in s[t].plan
    ensures l !in s[u].plan
  {
    assert s[t].plan[..s[t].taken] == s[t].plan && s[u].plan[..s[u].taken] == s[u].plan;
    assert Holds(s[t], l);
  }

  /**
   * What the locks are for: however the services run beside each other, two that both hold their locks
   * work on no common stock row, no common reservation and no common window.
   */
  lemma NoRowInCommon(steps: seq<ServiceStep>, t: Id, u: Id)
    requires Serves(map[], steps) && t != u
    requires var s := Served(map[], steps); t in s && u in s && !Unfinished(s[t]) && !Unfinished(s[u])
    ensures var who := AtWork(map[], steps);
            && t in who && u in who
            && (forall ref | ref in StockOf(who[t]) :: ref !in StockOf(who[u]))
            && (forall id | id in ReservationsOf(who[t]) :: id !in ReservationsOf(who[u]))
            && (forall id | id in WindowsOf(who[t]) :: id !in WindowsOf(who[u]))
  {
    hide PlanOf, Exclusive, Valid, Serves, Served, AtWork, StockOf, ReservationsOf, WindowsOf;
    var s, who := Served(map[], steps), AtWork(map[], steps);
    var all := ServedFromEmpty(steps);
    ReachableIsExclusive(s, all);
    JobsAreServices(map[], map[], steps);
    forall ref | ref in StockOf(who[t]) ensures ref !in StockOf(who[u]) {
      if ref in StockOf(who[u]) {
        PlanLocksItsRows(who[t], StockLock(ref));
        PlanLocksItsRows(who[u], StockLock(ref));
        BothCannotHold(s, t, u, StockLock(ref));
      }
    }
    forall id | id in ReservationsOf(who[t]) ensures id !in ReservationsOf(who[u]) {
      if id in ReservationsOf(who[u]) {
        PlanLocksItsRows(who[t], Lock(ReservationRow, id));
        PlanLocksItsRows(who[u], Lock(ReservationRow, id));
        BothCannotHold(s, t, u, Lock(ReservationRow, id));
      }
    }
    forall id | id in WindowsOf(who[t]) ensures id !in WindowsOf(who[u]) {
      if id in WindowsOf(who[u]) {
        PlanLocksItsRows(who[t], Lock(WindowRow, id));
        PlanLocksItsRows(who[u], Lock(WindowRow, id));
        BothCannotHold(s, t, u, Lock(WindowRow, id));
      }
    }
  }

  lemma ServedFromEmpty(steps: seq<ServiceStep>) returns (all: seq<Step>)
    requires Serves(map[], steps)
    ensures Reachable(Served(map[], steps), all)
  {
    all := ServedIsReachable(map[], [], steps);
  }

  function Abstractly(a: ServiceStep): Step
  {
    match a
    case Begin(t, x) => Start(t, PlanOf(x))
    case TakeNext(t) => Take(t)
    case Commit(t) => Finish(t)
  }

  lemma ServeIsStep(s: Jobs, a: ServiceStep)
    requires Valid(s) && CanServe(s, a)
    ensures CanStep(s, Abstractly(a)) && DoStep(s, Abstractly(a)) == Serve(s, a)
  {
    if a.Begin? { ServicePlansClimb(a.service); }
    hide Climbs, PlanOf, Proper;
  }

  lemma {:induction false} ServedIsReachable(s: Jobs, before: seq<Step>, steps: seq<ServiceStep>) returns (all: seq<Step>)
    requires Reachable(s, before) && Serves(s, steps)
    ensures Reachable(Served(s, steps), all)
    decreases |steps|
  {
    if steps == [] {
      all := before;
    } else {
      ReachableIsExclusive(s, before);
      ServeIsStep(s, steps[0]);
      var now := before + [Abstractly(steps[0])];
      assert now[..|now| - 1] == before;
      all := ServedIsReachable(Serve(s, steps[0]), now, steps[1..]);
    }
  }

  /**
   * Deadlock freedom of the services' explicit locks: however reserves, confirms, cancels, expiry
   * releases, stock decreases and restocks run beside each other, they never wait in a circle, and
   * while any is left one of them can go on.
   */
  lemma ServicesNeverDeadlock(steps: seq<ServiceStep>, chain: seq<Id>) returns (a: Step)
    requires Serves(map[], steps)
    ensures var s := Served(map[], steps);
            && Valid(s)
            && (|chain| >= 2 && chain[0] == chain[|chain| - 1] ==> !WaitChain(s, chain))
            && (s != map[] ==> !a.Start? && CanStep(s, a))
  {
    var s := Served(map[], steps);
    var all := ServedIsReachable(map[], [], steps);
    ReachableIsExclusive(s, all);
    if |chain| >= 2 && chain[0] == chain[|chain| - 1] { NoWaitCycle(s, all, chain); }
    if s != map[] { a := SomeoneCanGoOn(s, all); } else { a := Finish(0); }
  }
}
