/** Object identifiers, dependency maps, and what an ordering of objects must satisfy. */
module DependencyGraph {
  import opened FiniteSets
  import opened Sequences

  datatype UniqueID = UniqueID(classId: nat, oid: nat)

  /** A database object that can be sorted; `fqn` is only reported. */
  datatype Sortable = Sortable(id: UniqueID, fqn: string)

  /** Which objects an object depends on. */
  type DependencyMap = map<UniqueID, set<UniqueID>>

  function DepsOf(d: DependencyMap, id: UniqueID): set<UniqueID> {
    if id in d then d[id] else {}
  }

  function Ids(items: seq<Sortable>): set<UniqueID> {
    set i | 0 <= i < |items| :: items[i].id
  }

  predicate Distinct(items: seq<Sortable>) {
    forall i, j :: 0 <= i < j < |items| ==> items[i].id != items[j].id
  }

  /** Everything a listed object depends on is listed too. */
  predicate Closed(d: DependencyMap, items: seq<Sortable>) {
    forall i :: 0 <= i < |items| ==> DepsOf(d, items[i].id) <= Ids(items)
  }

  /** A chain of dependencies: each object depends on the next. */
  predicate IsPath(d: DependencyMap, p: seq<UniqueID>) {
    |p| > 0 && forall k :: 1 <= k < |p| ==> Linked(d, p, k)
  }

  predicate Linked(d: DependencyMap, p: seq<UniqueID>, k: int)
    requires 1 <= k < |p|
  {
    p[k] in DepsOf(d, p[k - 1])
  }

  predicate IsCycle(d: DependencyMap, p: seq<UniqueID>) {
    |p| > 1 && IsPath(d, p) && p[0] == p[|p| - 1]
  }

  /** No listed object depends on itself, directly or through others. */
  ghost predicate Acyclic(d: DependencyMap, items: seq<Sortable>) {
    !exists p: seq<UniqueID> :: IsCycle(d, p) && p[0] in Ids(items)
  }

  /** Every object comes after everything it depends on. */
  predicate DependenciesFirst(d: DependencyMap, items: seq<Sortable>) {
    forall k :: 0 <= k < |items| ==> DepsOf(d, items[k].id) <= Ids(items[..k])
  }

  // ------------------------------------------------------------ order excludes cycles

  lemma PathSuffix(d: DependencyMap, p: seq<UniqueID>, k: nat)
    requires IsPath(d, p) && k < |p|
    ensures IsPath(d, p[k..])
  {
    forall n | 1 <= n < |p[k..]| ensures Linked(d, p[k..], n) {
      assert Linked(d, p, k + n);
    }
  }

  /** Following dependencies from position `k` only leads to earlier positions. */
  lemma {:induction false} PathGoesBack(d: DependencyMap, items: seq<Sortable>, p: seq<UniqueID>, k: nat)
    returns (j: nat)
    requires DependenciesFirst(d, items) && IsPath(d, p)
    requires k < |items| && items[k].id == p[0]
    ensures j <= k && items[j].id == p[|p| - 1]
    ensures |p| > 1 ==> j < k
    decreases |p|
  {
    if |p| == 1 {
      j := k;
    } else {
      assert Linked(d, p, 1);
      var i: nat :| i < k && items[i].id == p[1];
      PathSuffix(d, p, 1);
      j := PathGoesBack(d, items, p[1..], i);
    }
  }

  lemma OrderedIsAcyclic(d: DependencyMap, items: seq<Sortable>)
    requires DependenciesFirst(d, items) && Distinct(items)
    ensures Acyclic(d, items)
  {
    forall p: seq<UniqueID> | IsCycle(d, p) && p[0] in Ids(items) ensures false {
      var k: nat :| k < |items| && items[k].id == p[0];
      var j := PathGoesBack(d, items, p, k);
    }
  }

  // ------------------------------------------------------------ no progress means a cycle

  /** Every member of `r` depends on another member. */
  ghost predicate Stuck(d: DependencyMap, r: set<UniqueID>) {
    forall x {:trigger DependsInside(d, r, x)} :: x in r ==> DependsInside(d, r, x)
  }

  ghost predicate DependsInside(d: DependencyMap, r: set<UniqueID>, x: UniqueID) {
    exists y :: y in r && y in DepsOf(d, x)
  }

  lemma {:induction false} NoRepeatsSize(p: seq<UniqueID>, r: set<UniqueID>)
    requires NoRepeats(p) && forall x :: x in p ==> x in r
    ensures |p| <= |r|
  {
    if p != [] {
      var x := p[|p| - 1];
      NoRepeatsSize(p[..|p| - 1], r - {x});
    }
  }

  /** Walking along dependencies inside a stuck set must come back to an object seen before. */
  lemma {:induction false} StuckHasCycle(d: DependencyMap, r: set<UniqueID>, w: seq<UniqueID>)
    returns (p: seq<UniqueID>)
    requires Stuck(d, r) && IsPath(d, w) && NoRepeats(w) && forall x :: x in w ==> x in r
    ensures IsCycle(d, p) && p[0] in r
    decreases |r| - |w|
  {
    NoRepeatsSize(w, r);
    var last := w[|w| - 1];
    assert DependsInside(d, r, last);
    var y :| y in r && y in DepsOf(d, last);
    assert IsPath(d, w + [y]) by {
      forall n | 1 <= n < |w + [y]| ensures Linked(d, w + [y], n) {
        assert n < |w| ==> Linked(d, w, n);
      }
    }
    if y in w {
      var k: nat :| k < |w| && w[k] == y;
      PathSuffix(d, w + [y], k);
      p := (w + [y])[k..];
    } else {
      NoRepeatsSize(w + [y], r);
      p := StuckHasCycle(d, r, w + [y]);
    }
  }

  lemma StuckIsCyclic(d: DependencyMap, items: seq<Sortable>, r: set<UniqueID>)
    requires Stuck(d, r) && r != {} && r <= Ids(items)
    ensures !Acyclic(d, items)
  {
    var x :| x in r;
    var p := StuckHasCycle(d, r, [x]);
  }

  // ------------------------------------------------------------ permutations

  lemma {:induction false} DistinctSize(a: seq<Sortable>)
    requires Distinct(a)
    ensures |Ids(a)| == |a|
  {
    if a != [] {
      var b := a[..|a| - 1];
      DistinctSize(b);
      assert Ids(a) == Ids(b) + {a[|a| - 1].id};
      assert a[|a| - 1].id !in Ids(b);
    }
  }

  lemma {:induction false} DistinctMultiset(a: seq<Sortable>, x: Sortable)
    requires Distinct(a)
    ensures multiset(a)[x] == if x in a then 1 else 0
  {
    if a != [] {
      var b := a[..|a| - 1];
      assert a == b + [a[|a| - 1]];
      DistinctMultiset(b, x);
    }
  }

  /** Distinct items drawn from `b`, as many as `b` has, are a permutation of `b`. */
  lemma DistinctPermutation(a: seq<Sortable>, b: seq<Sortable>)
    requires Distinct(a) && Distinct(b) && |a| == |b|
    requires forall x :: x in a ==> x in b
    ensures multiset(a) == multiset(b) && Ids(a) == Ids(b)
  {
    DistinctSize(a);
    DistinctSize(b);
    forall i | 0 <= i < |a| ensures a[i].id in Ids(b) {
      assert a[i] in a;
    }
    SubsetOfSameSize(Ids(a), Ids(b));
    forall x: Sortable ensures multiset(a)[x] == multiset(b)[x] {
      DistinctMultiset(a, x);
      DistinctMultiset(b, x);
      if x in b {
        assert x.id in Ids(b);
        var k :| 0 <= k < |a| && a[k].id == x.id;
        assert a[k] in b;
        assert a[k] == x;
      }
    }
  }
}
