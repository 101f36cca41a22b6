/**
 * The category tree. Re-parenting walks the proposed parent's ancestors first; the walk ends on
 * any parent relation, and its answer is what keeps the relation a forest.
 */
module Categories {
  import opened Common

  /** Each category's parent, if it has one. */
  type Parents = map<Id, Option<Id>>

  datatype CategoryError = CategoryNotFound | ParentNotFound | Cycle

  /** The `n`-th ancestor of `x`; its zeroth is `x` itself. */
  function Up(p: Parents, x: Id, n: nat): Option<Id>
  {
    if n == 0 then Some(x)
    else
      var below := Up(p, x, n - 1);
      if below.Some? && below.value in p then p[below.value] else None
  }

  ghost predicate Reaches(p: Parents, x: Id, y: Id)
  {
    exists n: nat :: Up(p, x, n) == Some(y)
  }

  /** No category is its own ancestor. */
  ghost predicate Acyclic(p: Parents)
  {
    forall x: Id, n: nat | n > 0 :: Up(p, x, n) != Some(x)
  }

  predicate ParentsExist(p: Parents)
  {
    forall x | x in p && p[x].Some? :: p[x].value in p
  }

  lemma {:induction false} UpAdd(p: Parents, x: Id, a: nat, y: Id, b: nat)
    requires Up(p, x, a) == Some(y)
    ensures Up(p, x, a + b) == Up(p, y, b)
  {
    if b > 0 {
      UpAdd(p, x, a, y, b - 1);
      assert a + b - 1 == a + (b - 1);
    }
  }

  lemma {:induction false} UpStaysNone(p: Parents, x: Id, n: nat, m: nat)
    requires Up(p, x, n) == None && n <= m
    ensures Up(p, x, m) == None
  {
    if n < m { UpStaysNone(p, x, n, m - 1); }
  }

  /** Once the walk meets a category it has visited, it only meets visited ones. */
  lemma {:induction false} UpRepeats(p: Parents, x: Id, j: nat, k: nat, m: nat)
    requires j < k && Up(p, x, j) == Up(p, x, k) && Up(p, x, j).Some?
    ensures exists i: nat :: i < k && Up(p, x, m) == Up(p, x, i)
    decreases m
  {
    if m >= k {
      UpAdd(p, x, k, Up(p, x, k).value, m - k);
      UpAdd(p, x, j, Up(p, x, j).value, m - k);
      assert Up(p, x, m) == Up(p, x, j + (m - k));
      UpRepeats(p, x, j, k, j + (m - k));
    }
  }

  /** The categories met in the first `k` steps. */
  ghost predicate Met(p: Parents, x: Id, k: nat, visited: set<Id>)
  {
    && (forall y | y in visited :: exists j: nat :: j < k && Up(p, x, j) == Some(y))
    && forall j: nat | j < k :: Up(p, x, j).Some? && Up(p, x, j).value in visited
  }

  lemma MetAreAncestors(p: Parents, x: Id, k: nat, visited: set<Id>, y: Id)
    requires Met(p, x, k, visited) && Up(p, x, k).Some? && y in visited + {Up(p, x, k).value}
    ensures exists j: nat :: j < k + 1 && Up(p, x, j) == Some(y)
  {
    hide Up;
    if y in visited {
      var j: nat :| j < k && Up(p, x, j) == Some(y);
      assert j < k + 1;
    } else {
      assert Up(p, x, k) == Some(y);
    }
  }

  lemma MeetOneMore(p: Parents, x: Id, k: nat, visited: set<Id>)
    requires Met(p, x, k, visited) && Up(p, x, k).Some?
    ensures Met(p, x, k + 1, visited + {Up(p, x, k).value})
  {
    hide Up;
    var more := visited + {Up(p, x, k).value};
    forall y | y in more ensures exists j: nat :: j < k + 1 && Up(p, x, j) == Some(y) {
      MetAreAncestors(p, x, k, visited, y);
    }
    forall j: nat | j < k + 1 ensures Up(p, x, j).Some? && Up(p, x, j).value in more {
      if j < k { assert Up(p, x, j).Some?; }
    }
  }

  /** One step of the walk: where it goes, and what of the relation is then left to visit. */
  lemma WalkOn(p: Parents, x: Id, k: nat, visited: set<Id>)
    requires Met(p, x, k, visited) && Up(p, x, k).Some?
    ensures var here := Up(p, x, k).value;
            && Met(p, x, k + 1, visited + {here})
            && Up(p, x, k + 1) == (if here in p then p[here] else None)
            && (here in p && here !in visited ==> |p.Keys - (visited + {here})| < |p.Keys - visited|)
            && (here !in p ==> p.Keys - (visited + {here}) == p.Keys - visited)
  {
    MeetOneMore(p, x, k, visited);
    var here := Up(p, x, k).value;
    if here in p {
      assert p.Keys - (visited + {here}) == (p.Keys - visited) - {here};
    } else {
      assert p.Keys - (visited + {here}) == p.Keys - visited;
    }
  }

  /** The walk starts at the proposed parent, having visited nothing. */
  lemma WalkStarts(p: Parents, x: Id)
    ensures Up(p, x, 0) == Some(x) && Met(p, x, 0, {}) && Reaches(p, x, x)
  {
  }

  lemma NotMetNotReached(p: Parents, x: Id, k: nat, visited: set<Id>, y: Id)
    requires Met(p, x, k, visited) && y !in visited
    requires Up(p, x, k).None? || Up(p, x, k).value in visited
    ensures !Reaches(p, x, y)
  {
    forall n: nat ensures Up(p, x, n) != Some(y) {
      if Up(p, x, k).None? {
        if n >= k { UpStaysNone(p, x, k, n); }
      } else {
        var j: nat :| j < k && Up(p, x, j) == Some(Up(p, x, k).value);
        UpRepeats(p, x, j, k, n);
      }
    }
  }

  function Moved(p: Parents, id: Id, parent: Option<Id>): Parents
  {
    p[id := parent]
  }

  /** Away from `id`, giving `id` another parent changes nothing. */
  lemma {:induction false} UpAgrees(p: Parents, id: Id, parent: Option<Id>, x: Id, n: nat)
    requires forall j: nat | j < n :: Up(p, x, j) != Some(id)
    ensures Up(Moved(p, id, parent), x, n) == Up(p, x, n)
  {
    if n > 0 { UpAgrees(p, id, parent, x, n - 1); }
  }

  /** The first time a walk in the new relation meets `id`, the old relation met it too. */
  lemma {:induction false} MeetsInOld(p: Parents, id: Id, parent: Option<Id>, x: Id, n: nat)
    requires Up(Moved(p, id, parent), x, n) == Some(id)
    ensures Reaches(p, x, id)
    decreases n
  {
    if j: nat :| j < n && Up(Moved(p, id, parent), x, j) == Some(id) {
      MeetsInOld(p, id, parent, x, j);
    } else {
      NeverBefore(p, id, parent, x, n);
      UpAgrees(p, id, parent, x, n);
    }
  }

  lemma {:induction false} NeverBefore(p: Parents, id: Id, parent: Option<Id>, x: Id, n: nat)
    requires forall j: nat | j < n :: Up(Moved(p, id, parent), x, j) != Some(id)
    ensures forall j: nat | j < n :: Up(p, x, j) != Some(id)
  {
    if n > 0 {
      NeverBefore(p, id, parent, x, n - 1);
      UpAgrees(p, id, parent, x, n - 1);
    }
  }

  /** Re-parenting under a category that is not a descendant closes no cycle; under any other it does. */
  lemma ReparentKeepsForestIff(p: Parents, id: Id, parent: Id)
    requires Acyclic(p) && id in p
    ensures Acyclic(Moved(p, id, Some(parent))) <==> !Reaches(p, parent, id)
  {
    var after := Moved(p, id, Some(parent));
    if Reaches(p, parent, id) {
      ClosesCycle(p, id, parent);
    } else {
      forall x: Id, n: nat | n > 0 ensures Up(after, x, n) != Some(x) {
        NoNewCycle(p, id, Some(parent), x, n);
      }
    }
  }

  lemma ClosesCycle(p: Parents, id: Id, parent: Id)
    requires id in p && Reaches(p, parent, id)
    ensures !Acyclic(Moved(p, id, Some(parent)))
  {
    var after := Moved(p, id, Some(parent));
    var n: nat :| Up(p, parent, n) == Some(id);
    var first := FirstMeeting(p, parent, id, n);
    UpAgrees(p, id, Some(parent), parent, first);
    assert Up(after, id, 0) == Some(id);
    assert Up(after, id, 1) == Some(parent);
    UpAdd(after, id, 1, parent, first);
  }

  lemma {:induction false} FirstMeeting(p: Parents, x: Id, y: Id, n: nat) returns (first: nat)
    requires Up(p, x, n) == Some(y)
    ensures first <= n && Up(p, x, first) == Some(y) && forall j: nat | j < first :: Up(p, x, j) != Some(y)
    decreases n
  {
    if j: nat :| j < n && Up(p, x, j) == Some(y) {
      first := FirstMeeting(p, x, y, j);
    } else {
      first := n;
    }
  }

  lemma NoNewCycle(p: Parents, id: Id, parent: Option<Id>, x: Id, n: nat)
    requires Acyclic(p) && n > 0 && (parent.Some? ==> !Reaches(p, parent.value, id))
    ensures Up(Moved(p, id, parent), x, n) != Some(x)
  {
    var after := Moved(p, id, parent);
    if Up(after, x, n) == Some(x) {
      if j: nat :| j < n && Up(after, x, j) == Some(id) {
        UpAdd(after, x, j, id, n - j);
        UpAdd(after, id, n - j, x, j);
        assert Up(after, id, n) == Some(id);
        CycleThrough(p, id, parent, n);
      } else {
        NeverBefore(p, id, parent, x, n);
        UpAgrees(p, id, parent, x, n);
      }
    }
  }

  lemma CycleThrough(p: Parents, id: Id, parent: Option<Id>, n: nat)
    requires n > 0 && Up(Moved(p, id, parent), id, n) == Some(id)
    ensures parent.Some? && Reaches(p, parent.value, id)
  {
    var after := Moved(p, id, parent);
    assert Up(after, id, 0) == Some(id);
    assert Up(after, id, 1) == parent;
    if parent.None? {
      UpStaysNone(after, id, 1, n);
    } else {
      UpAdd(after, id, 1, parent.value, n - 1);
      MeetsInOld(p, id, parent, parent.value, n - 1);
    }
  }

  // ---- the controller's operations

  /** `change` is absent when the request leaves the parent alone. */
  ghost function UpdateStep(p: Parents, id: Id, change: Option<Option<Id>>): Result<Parents, CategoryError>
  {
    if id !in p then Err(CategoryNotFound)
    else if change.None? then Ok(p)
    else if change.value.Some? && change.value.value !in p then Err(ParentNotFound)
    else if change.value.Some? && Reaches(p, change.value.value, id) then Err(Cycle)
    else Ok(Moved(p, id, change.value))
  }

  function CreateStep(p: Parents, id: Id, parent: Option<Id>): Result<Parents, CategoryError>
  {
    if parent.Some? && parent.value !in p then Err(ParentNotFound) else Ok(Moved(p, id, parent))
  }

  /** `path` goes from a category up to an ancestor, each time to the parent. */
  predicate ParentPath(p: Parents, path: seq<Id>)
  {
    path != [] && forall n | 0 <= n < |path| - 1 :: path[n] in p && p[path[n]] == Some(path[n + 1])
  }

  lemma {:induction false} PathGoesUp(p: Parents, path: seq<Id>, n: nat)
    requires ParentPath(p, path) && n < |path|
    ensures Up(p, path[0], n) == Some(path[n])
  {
    if n > 0 { PathGoesUp(p, path, n - 1); }
  }

  lemma {:induction false} PathTo(p: Parents, x: Id, n: nat) returns (path: seq<Id>)
    requires Up(p, x, n).Some?
    ensures ParentPath(p, path) && |path| == n + 1 && path[0] == x && path[n] == Up(p, x, n).value
  {
    if n == 0 {
      path := [x];
    } else {
      var below := PathTo(p, x, n - 1);
      path := below + [Up(p, x, n).value];
    }
  }

  /** Reached means: there is a chain of parents from the one to the other, possibly of one category only. */
  lemma ReachedIffPath(p: Parents, x: Id, y: Id)
    ensures Reaches(p, x, y) <==> exists path :: ParentPath(p, path) && path[0] == x && path[|path| - 1] == y
  {
    if path :| ParentPath(p, path) && path[0] == x && path[|path| - 1] == y { PathGoesUp(p, path, |path| - 1); }
    if Reaches(p, x, y) {
      var n: nat :| Up(p, x, n) == Some(y);
      var path := PathTo(p, x, n);
    }
  }

  /**
   * What an update does: without a parent in the request nothing, with none the category becomes a root, and with one
   * it moves there, unless that one is missing or has the category on its chain of parents.
   */
  lemma UpdateDoes(p: Parents, id: Id, parent: Id)
    ensures id !in p ==> forall change :: UpdateStep(p, id, change) == Err(CategoryNotFound)
    ensures id in p ==>
              && UpdateStep(p, id, None) == Ok(p)
              && UpdateStep(p, id, Some(None)) == Ok(p[id := None])
              && UpdateStep(p, id, Some(Some(parent))) ==
                 if parent !in p then Err(ParentNotFound)
                 else if exists path :: ParentPath(p, path) && path[0] == parent && path[|path| - 1] == id then Err(Cycle)
                 else Ok(p[id := Some(parent)])
  {
    ReachedIffPath(p, parent, id);
  }

  /** The same of creation, which needs no walk. */
  lemma CreateDoes(p: Parents, id: Id, parent: Id)
    ensures CreateStep(p, id, None) == Ok(p[id := None])
    ensures CreateStep(p, id, Some(parent)) == if parent in p then Ok(p[id := Some(parent)]) else Err(ParentNotFound)
  {
  }

  ghost predicate Forest(p: Parents)
  {
    Acyclic(p) && ParentsExist(p)
  }

  lemma UpdateKeepsForest(p: Parents, id: Id, change: Option<Option<Id>>)
    requires Forest(p) && UpdateStep(p, id, change).Ok?
    ensures Forest(UpdateStep(p, id, change).value)
  {
    if change.Some? {
      forall x: Id, n: nat | n > 0 ensures Up(Moved(p, id, change.value), x, n) != Some(x) {
        NoNewCycle(p, id, change.value, x, n);
      }
    }
  }

  /** A new category is nobody's parent yet, so it can close no cycle. */
  lemma CreateKeepsForest(p: Parents, id: Id, parent: Option<Id>)
    requires Forest(p) && id !in p && CreateStep(p, id, parent).Ok?
    ensures Forest(CreateStep(p, id, parent).value)
  {
    if parent.Some? {
      forall n: nat ensures Up(p, parent.value, n) != Some(id) {
        StaysInside(p, parent.value, n);
      }
    }
    forall x: Id, n: nat | n > 0 ensures Up(Moved(p, id, parent), x, n) != Some(x) {
      NoNewCycle(p, id, parent, x, n);
    }
  }

  lemma {:induction false} StaysInside(p: Parents, x: Id, n: nat)
    requires ParentsExist(p) && x in p
    ensures Up(p, x, n).Some? ==> Up(p, x, n).value in p
  {
    if n > 0 { StaysInside(p, x, n - 1); }
  }

  datatype Op = Create(id: Id, parent: Option<Id>) | Update(id: Id, change: Option<Option<Id>>)

  ghost function Step(p: Parents, op: Op): Parents
  {
    var r := match op
      case Create(id, parent) => CreateStep(p, id, parent)
      case Update(id, change) => UpdateStep(p, id, change);
    if r.Ok? then r.value else p
  }

  ghost predicate Runs(p: Parents, ops: seq<Op>)
    decreases |ops|
  {
    ops == [] || ((ops[0].Create? ==> ops[0].id !in p) && Runs(Step(p, ops[0]), ops[1..]))
  }

  ghost function After(p: Parents, ops: seq<Op>): Parents
    decreases |ops|
  {
    if ops == [] then p else After(Step(p, ops[0]), ops[1..])
  }

  lemma {:induction false} RunKeepsForest(p: Parents, ops: seq<Op>)
    requires Forest(p) && Runs(p, ops)
    ensures Forest(After(p, ops))
    decreases |ops|
  {
    if ops != [] {
      match ops[0] {
        case Create(id, parent) => if CreateStep(p, id, parent).Ok? { CreateKeepsForest(p, id, parent); }
        case Update(id, change) => if UpdateStep(p, id, change).Ok? { UpdateKeepsForest(p, id, change); }
      }
      RunKeepsForest(Step(p, ops[0]), ops[1..]);
    }
  }

  /** However categories are created and moved, no category ever becomes its own ancestor. */
  lemma AlwaysAForest(ops: seq<Op>, x: Id, n: nat)
    requires Runs(map[], ops) && n > 0
    ensures Up(After(map[], ops), x, n) != Some(x)
  {
    forall y: Id, m: nat | m > 0 ensures Up(map[], y, m) != Some(y) {
      assert Up(map[], y, 1) == None;
      UpStaysNone(map[], y, 1, m);
    }
    RunKeepsForest(map[], ops);
  }

  class Tree {
    var parents: Parents

    constructor ()
      ensures parents == map[]
    {
      parents := map[];
    }

    /**
     * The ancestor walk. It needs nothing of the parent relation: `visited` ends it even where
     * the relation is corrupt, and the answer is right there too.
     */
    method WouldCreateCycle(category: Id, proposed: Id) returns (cycle: bool)
      ensures cycle <==> Reaches(parents, proposed, category)
    {
      hide Up, Met;
      ghost var k: nat := 0;
      WalkStarts(parents, proposed);
      if category == proposed {
        return true;
      }
      var visited: set<Id> := {};
      var current := Some(proposed);
      while current.Some?
        invariant current == Up(parents, proposed, k) && Met(parents, proposed, k, visited) && category !in visited
        decreases |parents.Keys - visited|, if current.Some? then 1 else 0
      {
        if current.value == category {
          return true;
        }
        if current.value in visited {
          break;
        }
        WalkOn(parents, proposed, k, visited);
        visited := visited + {current.value};
        current := if current.value in parents then parents[current.value] else None;
        k := k + 1;
      }
      NotMetNotReached(parents, proposed, k, visited, category);
      cycle := false;
    }

    /** Under the tree lock: check the parent, walk its ancestors, write. */
    method UpdateCategory(id: Id, change: Option<Option<Id>>) returns (e: Option<CategoryError>)
      modifies this
      ensures match e
              case Some(error) => UpdateStep(old(parents), id, change) == Err(error) && parents == old(parents)
              case None => UpdateStep(old(parents), id, change) == Ok(parents)
    {
      if id !in parents {
        return Some(CategoryNotFound);
      }
      if change.None? {
        return None;
      }
      if change.value.Some? {
        if change.value.value !in parents {
          return Some(ParentNotFound);
        }
        var cycle := WouldCreateCycle(id, change.value.value);
        if cycle {
          return Some(Cycle);
        }
      }
      parents := parents[id := change.value];
      e := None;
    }

    method CreateCategory(id: Id, parent: Option<Id>) returns (e: Option<CategoryError>)
      modifies this
      ensures match e
              case Some(error) => CreateStep(old(parents), id, parent) == Err(error) && parents == old(parents)
              case None => CreateStep(old(parents), id, parent) == Ok(parents)
    {
      if parent.Some? && parent.value !in parents {
        return Some(ParentNotFound);
      }
      parents := parents[id := parent];
      e := None;
    }
  }
}
