/** TopologicalSort (meta/builtin/dependencies.go): Kahn's algorithm over the dependency map. */
module TopologicalSort {
  import opened Wrappers
  import opened Sequences
  import opened DependencyGraph

  /** The listed objects that depend on `x`, in list order. */
  function Dependents(d: DependencyMap, items: seq<Sortable>, x: UniqueID): seq<UniqueID> {
    if items == [] then []
    else
      var last := items[|items| - 1].id;
      Dependents(d, items[..|items| - 1], x) + if x in DepsOf(d, last) then [last] else []
  }

  function Get(m: map<UniqueID, seq<UniqueID>>, x: UniqueID): seq<UniqueID> {
    if x in m then m[x] else []
  }

  lemma {:induction false} DependentsAre(d: DependencyMap, items: seq<Sortable>, x: UniqueID)
    ensures forall y :: y in Dependents(d, items, x) <==> y in Ids(items) && x in DepsOf(d, y)
    ensures Distinct(items) ==> NoRepeats(Dependents(d, items, x))
  {
    if items != [] {
      var rest := items[..|items| - 1];
      DependentsAre(d, rest, x);
      assert Ids(items) == Ids(rest) + {items[|items| - 1].id};
    }
  }

  /** What the first loop has computed for `items`. */
  ghost predicate Prepared(d: DependencyMap, items: seq<Sortable>, inDegrees: map<UniqueID, int>,
                           indexes: map<UniqueID, nat>,
                           queue: seq<Sortable>)
  {
    && inDegrees.Keys == indexes.Keys == Ids(items)
    && (forall x :: x in inDegrees ==> inDegrees[x] == |DepsOf(d, x)|)
    && (forall x :: x in indexes ==> indexes[x] < |items| && items[indexes[x]].id == x)
    && queue == Roots(items, d)
  }

  ghost predicate ReverseEdges(d: DependencyMap, items: seq<Sortable>, m: map<UniqueID, seq<UniqueID>>) {
    forall x :: Get(m, x) == Dependents(d, items, x)
  }

  /** The first loop: degrees, positions, reverse edges and the objects without dependencies. */
  method Prepare(slice: seq<Sortable>, dependencies: DependencyMap)
    returns (inDegrees: map<UniqueID, int>, indexes: map<UniqueID, nat>,
             isDependentOn: map<UniqueID, seq<UniqueID>>, queue: seq<Sortable>)
    ensures Prepared(dependencies, slice, inDegrees, indexes, queue)
    ensures ReverseEdges(dependencies, slice, isDependentOn)
  {
    inDegrees, indexes, isDependentOn, queue := map[], map[], map[], [];
    for i := 0 to |slice|
      invariant Prepared(dependencies, slice[..i], inDegrees, indexes, queue)
      invariant ReverseEdges(dependencies, slice[..i], isDependentOn)
    {
      var id := slice[i].id;
      var deps := DepsOf(dependencies, id);
      var edges := AddReverseEdges(isDependentOn, deps, id);
      ReverseEdgesOneMore(dependencies, slice, i, isDependentOn, edges);
      assert slice[..i + 1] == slice[..i] + [slice[i]];
      PreparedOneMore(dependencies, slice[..i], slice[i], inDegrees, indexes, queue,
                      if |deps| == 0 then queue + [slice[i]] else queue);
      inDegrees := inDegrees[id := |deps|];
      isDependentOn := edges;
      indexes := indexes[id := i];
      if |deps| == 0 {
        queue := queue + [slice[i]];
      }
    }
    assert slice[..|slice|] == slice;
  }

  /** `id` was appended to the dependents of each of `deps`. */
  ghost predicate Appended(
    m: map<UniqueID, seq<UniqueID>>, m': map<UniqueID, seq<UniqueID>>, deps: set<UniqueID>, id: UniqueID)
  {
    forall x :: Get(m', x) == Get(m, x) + if x in deps then [id] else []
  }

  /** The inner loop: appends `id` to the dependents of each of `deps`, in any order of `deps`. */
  method AddReverseEdges(m: map<UniqueID, seq<UniqueID>>, deps: set<UniqueID>, id: UniqueID)
    returns (m': map<UniqueID, seq<UniqueID>>)
    ensures Appended(m, m', deps, id)
  {
    m' := m;
    var todo := deps;
    while todo != {}
      invariant todo <= deps
      invariant Appended(m, m', deps - todo, id)
      decreases todo
    {
      var dep :| dep in todo;
      m' := m'[dep := Get(m', dep) + [id]];
      todo := todo - {dep};
    }
  }

  lemma DependentsOneMore(d: DependencyMap, slice: seq<Sortable>, i: nat, x: UniqueID)
    requires i < |slice|
    ensures Dependents(d, slice[..i + 1], x)
         == Dependents(d, slice[..i], x) + if x in DepsOf(d, slice[i].id) then [slice[i].id] else []
  {
    assert slice[..i + 1][..i] == slice[..i];
  }

  lemma ReverseEdgesOneMore(d: DependencyMap, slice: seq<Sortable>, i: nat,
                            m: map<UniqueID, seq<UniqueID>>, m': map<UniqueID, seq<UniqueID>>)
    requires i < |slice| && ReverseEdges(d, slice[..i], m)
    requires Appended(m, m', DepsOf(d, slice[i].id), slice[i].id)
    ensures ReverseEdges(d, slice[..i + 1], m')
  {
    forall x ensures Get(m', x) == Dependents(d, slice[..i + 1], x) {
      DependentsOneMore(d, slice, i, x);
    }
  }

  lemma PreparedOneMore(d: DependencyMap, items: seq<Sortable>, last: Sortable, inDegrees: map<UniqueID, int>,
                        indexes: map<UniqueID, nat>,
                        queue: seq<Sortable>, queue': seq<Sortable>)
    requires Prepared(d, items, inDegrees, indexes, queue)
    requires queue' == if |DepsOf(d, last.id)| == 0 then queue + [last] else queue
    ensures Prepared(d, items + [last], inDegrees[last.id := |DepsOf(d, last.id)|], indexes[last.id := |items|], queue')
  {
    IdsOneMore(items, last);
    PositionsOneMore(items, last, indexes);
    RootsOneMore(items, last, d);
  }

  lemma PositionsOneMore(items: seq<Sortable>, last: Sortable, indexes: map<UniqueID, nat>)
    requires forall x :: x in indexes ==> indexes[x] < |items| && items[indexes[x]].id == x
    ensures
      var t, m := items + [last], indexes[last.id := |items|];
      forall x :: x in m ==> m[x] < |t| && t[m[x]].id == x
  {
  }

  lemma RootsOneMore(items: seq<Sortable>, last: Sortable, d: DependencyMap)
    ensures Roots(items + [last], d) == Roots(items, d) + if |DepsOf(d, last.id)| == 0 then [last] else []
  {
    assert (items + [last])[..|items|] == items;
  }

  /** The listed objects without dependencies, in list order. */
  function Roots(items: seq<Sortable>, d: DependencyMap): seq<Sortable> {
    if items == [] then []
    else
      var last := items[|items| - 1];
      Roots(items[..|items| - 1], d) + if |DepsOf(d, last.id)| == 0 then [last] else []
  }

  lemma {:induction false} RootsAre(items: seq<Sortable>, d: DependencyMap)
    ensures forall x :: x in Roots(items, d) <==> x in items && DepsOf(d, x.id) == {}
    ensures Distinct(items) ==> Distinct(Roots(items, d))
  {
    if items != [] {
      var rest, last := items[..|items| - 1], items[|items| - 1];
      RootsAre(rest, d);
      assert items == rest + [last];
      if Distinct(items) {
        forall x | x in Roots(rest, d) ensures x.id != last.id {
          assert x in rest;
        }
      }
    }
  }

  // ------------------------------------------------------------ the main loop

  /** How many dependencies of `y` are not in `done`. */
  ghost function Missing(d: DependencyMap, y: UniqueID, done: set<UniqueID>): nat {
    |DepsOf(d, y) - done|
  }

  ghost predicate Degrees(d: DependencyMap, inDegrees: map<UniqueID, int>, done: set<UniqueID>) {
    forall y :: y in inDegrees ==> inDegrees[y] == Missing(d, y, done)
  }

  /** Degrees count what is missing from `done`; those of `late` still count `x` as missing. */
  ghost predicate LateDegrees(
    d: DependencyMap, inDegrees: map<UniqueID, int>, done: set<UniqueID>, late: set<UniqueID>, x: UniqueID)
  {
    forall y :: y in inDegrees ==> inDegrees[y] == Missing(d, y, if y in late then done - {x} else done)
  }

  /** Exactly the objects of degree zero were placed in the queue or the result, once each. */
  ghost predicate Placed(slice: seq<Sortable>, inDegrees: map<UniqueID, int>, placed: seq<Sortable>) {
    && inDegrees.Keys == Ids(slice)
    && Distinct(placed)
    && (forall x :: x in placed ==> x in slice)
    && ZeroIsPlaced(inDegrees, Ids(placed))
  }

  ghost predicate ZeroIsPlaced(inDegrees: map<UniqueID, int>, placed: set<UniqueID>) {
    forall y :: y in inDegrees ==> (inDegrees[y] == 0 <==> y in placed)
  }

  /** The invariant of the main loop when ids are distinct. */
  ghost predicate Kahn(d: DependencyMap, slice: seq<Sortable>, sorted: seq<Sortable>, queue: seq<Sortable>,
                       inDegrees: map<UniqueID, int>)
  {
    && Placed(slice, inDegrees, sorted + queue)
    && DependenciesFirst(d, sorted)
    && Degrees(d, inDegrees, Ids(sorted))
  }

  /** The same inside the inner loop, while `late` dependents of `x`, sorted last, wait. */
  ghost predicate Releasing(d: DependencyMap, slice: seq<Sortable>, sorted: seq<Sortable>, queue: seq<Sortable>,
                            inDegrees: map<UniqueID, int>, late: set<UniqueID>, x: UniqueID)
  {
    && x in Ids(sorted)
    && Placed(slice, inDegrees, sorted + queue)
    && LateDegrees(d, inDegrees, Ids(sorted), late, x)
  }

  lemma KahnInit(d: DependencyMap, slice: seq<Sortable>, inDegrees: map<UniqueID, int>, indexes: map<UniqueID, nat>,
                 queue: seq<Sortable>)
    requires Distinct(slice) && Prepared(d, slice, inDegrees, indexes, queue)
    ensures Kahn(d, slice, [], queue, inDegrees)
  {
    RootsAre(slice, d);
    assert [] + queue == queue;
    InitZero(d, slice, inDegrees);
    forall y | y in inDegrees ensures Missing(d, y, Ids([])) == |DepsOf(d, y)| {
      assert DepsOf(d, y) - Ids([]) == DepsOf(d, y);
    }
  }

  lemma InitZero(d: DependencyMap, slice: seq<Sortable>, inDegrees: map<UniqueID, int>)
    requires inDegrees.Keys == Ids(slice)
    requires forall x :: x in inDegrees ==> inDegrees[x] == |DepsOf(d, x)|
    ensures ZeroIsPlaced(inDegrees, Ids(Roots(slice, d)))
  {
    RootsAre(slice, d);
    var queue := Roots(slice, d);
    forall y | y in inDegrees ensures inDegrees[y] == 0 <==> y in Ids(queue) {
      if inDegrees[y] == 0 {
        var k :| 0 <= k < |slice| && slice[k].id == y;
        assert slice[k] in queue;
      }
    }
  }

  lemma IdsOneMore(a: seq<Sortable>, x: Sortable)
    ensures Ids(a + [x]) == Ids(a) + {x.id}
  {
    assert (a + [x])[|a|] == x;
    forall i | 0 <= i < |a| ensures a[i].id in Ids(a + [x]) {
      assert (a + [x])[i] == a[i];
    }
  }

  lemma OrderOneMore(d: DependencyMap, sorted: seq<Sortable>, x: Sortable)
    requires DependenciesFirst(d, sorted) && DepsOf(d, x.id) <= Ids(sorted)
    ensures DependenciesFirst(d, sorted + [x])
  {
    var t := sorted + [x];
    forall k | 0 <= k < |t| ensures DepsOf(d, t[k].id) <= Ids(t[..k]) {
      assert t[..k] == sorted[..k];
    }
  }

  lemma HeadIsFresh(sorted: seq<Sortable>, queue: seq<Sortable>)
    requires queue != [] && Distinct(sorted + queue)
    ensures queue[0].id !in Ids(sorted) && queue[0].id in Ids(sorted + queue)
    ensures sorted + [queue[0]] + queue[1..] == sorted + queue
  {
    var all := sorted + queue;
    assert all[|sorted|] == queue[0];
    forall i | 0 <= i < |sorted| ensures sorted[i].id != queue[0].id {
      assert all[i] == sorted[i];
    }
  }

  lemma PopDegrees(
    d: DependencyMap, inDegrees: map<UniqueID, int>, done: set<UniqueID>, late: set<UniqueID>, x: UniqueID)
    requires Degrees(d, inDegrees, done) && x !in done
    requires forall y :: y in inDegrees ==> (y in late <==> x in DepsOf(d, y))
    ensures LateDegrees(d, inDegrees, done + {x}, late, x)
  {
    forall y | y in inDegrees
      ensures inDegrees[y] == Missing(d, y, if y in late then done + {x} - {x} else done + {x})
    {
      assert done + {x} - {x} == done;
      assert y !in late ==> DepsOf(d, y) - (done + {x}) == DepsOf(d, y) - done;
    }
  }

  /** A placed object misses none of its dependencies. */
  lemma NothingMissing(
    d: DependencyMap, inDegrees: map<UniqueID, int>, done: set<UniqueID>, placed: set<UniqueID>, x: UniqueID)
    requires Degrees(d, inDegrees, done) && ZeroIsPlaced(inDegrees, placed) && x in inDegrees && x in placed
    ensures DepsOf(d, x) <= done
  {
    assert inDegrees[x] == Missing(d, x, done);
    forall y | y in DepsOf(d, x) ensures y in done {
      assert y !in DepsOf(d, x) - done;
    }
  }

  /** Moving the head of the queue to the result keeps the order. */
  lemma KahnPop(d: DependencyMap, slice: seq<Sortable>, sorted: seq<Sortable>, queue: seq<Sortable>,
                inDegrees: map<UniqueID, int>, late: set<UniqueID>)
    requires Kahn(d, slice, sorted, queue, inDegrees) && queue != []
    requires forall y :: y in inDegrees ==> (y in late <==> queue[0].id in DepsOf(d, y))
    ensures DependenciesFirst(d, sorted + [queue[0]])
    ensures Releasing(d, slice, sorted + [queue[0]], queue[1..], inDegrees, late, queue[0].id)
  {
    var x := queue[0];
    HeadIsFresh(sorted, queue);
    assert x.id in inDegrees by {
      assert (sorted + queue)[|sorted|] == x;
      assert x in slice;
    }
    NothingMissing(d, inDegrees, Ids(sorted), Ids(sorted + queue), x.id);
    OrderOneMore(d, sorted, x);
    IdsOneMore(sorted, x);
    PopDegrees(d, inDegrees, Ids(sorted), late, x.id);
  }

  lemma ReleaseDegrees(
    d: DependencyMap, inDegrees: map<UniqueID, int>, done: set<UniqueID>, late: set<UniqueID>, x: UniqueID,
    y: UniqueID)
    requires LateDegrees(d, inDegrees, done, late, x) && x in done
    requires y in late && y in inDegrees && x in DepsOf(d, y)
    ensures inDegrees[y] >= 1
    ensures LateDegrees(d, inDegrees[y := inDegrees[y] - 1], done, late - {y}, x)
  {
    OneMoreMissing(d, y, done, x);
    assert inDegrees[y] == Missing(d, y, done - {x});
    var inDegrees' := inDegrees[y := inDegrees[y] - 1];
    forall z | z in inDegrees' ensures inDegrees'[z] == Missing(d, z, if z in late - {y} then done - {x} else done) {
      if z != y {
        assert inDegrees'[z] == inDegrees[z] && (z in late - {y} <==> z in late);
      }
    }
  }

  lemma OneMoreMissing(d: DependencyMap, y: UniqueID, done: set<UniqueID>, x: UniqueID)
    requires x in done && x in DepsOf(d, y)
    ensures Missing(d, y, done - {x}) == Missing(d, y, done) + 1
  {
    assert DepsOf(d, y) - (done - {x}) == (DepsOf(d, y) - done) + {x};
  }

  lemma ReleasePlaced(slice: seq<Sortable>, inDegrees: map<UniqueID, int>, placed: seq<Sortable>, item: Sortable)
    requires Placed(slice, inDegrees, placed) && item in slice && item.id in inDegrees && inDegrees[item.id] >= 1
    ensures var n := inDegrees[item.id] - 1;
      Placed(slice, inDegrees[item.id := n], if n == 0 then placed + [item] else placed)
  {
    assert item.id !in Ids(placed);
    IdsOneMore(placed, item);
    forall i | 0 <= i < |placed| ensures placed[i].id != item.id {
      assert placed[i].id in Ids(placed);
    }
  }

  /** One decrement: the dependent `item` now counts the last sorted object as done. */
  lemma ReleaseOne(d: DependencyMap, slice: seq<Sortable>, sorted: seq<Sortable>, queue: seq<Sortable>,
                   inDegrees: map<UniqueID, int>, late: set<UniqueID>, x: UniqueID, item: Sortable)
    requires Releasing(d, slice, sorted, queue, inDegrees, late, x)
    requires item.id in late && item.id in inDegrees && x in DepsOf(d, item.id) && item in slice
    ensures var n := inDegrees[item.id] - 1;
      Releasing(d, slice, sorted, if n == 0 then queue + [item] else queue, inDegrees[item.id := n],
                late - {item.id}, x)
  {
    ReleaseDegrees(d, inDegrees, Ids(sorted), late, x, item.id);
    ReleasePlaced(slice, inDegrees, sorted + queue, item);
    Associate(sorted, queue, [item]);
  }

  ghost function Positive(inDegrees: map<UniqueID, int>): set<UniqueID> {
    set y | y in inDegrees && inDegrees[y] > 0
  }

  /** What is left to queue; it bounds the rounds of the main loop for any input whatever. */
  ghost function Work(queue: seq<Sortable>, inDegrees: map<UniqueID, int>): nat {
    |queue| + |Positive(inDegrees)|
  }

  lemma DecrementWork(queue: seq<Sortable>, inDegrees: map<UniqueID, int>, item: Sortable)
    requires item.id in inDegrees
    ensures var n := inDegrees[item.id] - 1;
      Work(if n == 0 then queue + [item] else queue, inDegrees[item.id := n]) <= Work(queue, inDegrees)
  {
    var n := inDegrees[item.id] - 1;
    if n > 0 {
      assert Positive(inDegrees[item.id := n]) == Positive(inDegrees);
    } else {
      assert Positive(inDegrees[item.id := n]) == Positive(inDegrees) - {item.id};
    }
  }

  /** The inner loop: decrements the dependents of the object just sorted, queueing those now free. */
  method Release(slice: seq<Sortable>, indexes: map<UniqueID, nat>, list: seq<UniqueID>,
                 inDegrees: map<UniqueID, int>, queue: seq<Sortable>,
                 ghost d: DependencyMap, ghost sorted: seq<Sortable>, ghost x: UniqueID, ghost tracked: bool)
    returns (inDegrees': map<UniqueID, int>, queue': seq<Sortable>)
    requires inDegrees.Keys == indexes.Keys
    requires forall y :: y in indexes ==> indexes[y] < |slice| && slice[indexes[y]].id == y
    requires forall y :: y in list ==> y in indexes && x in DepsOf(d, y)
    requires tracked ==> NoRepeats(list) && Releasing(d, slice, sorted, queue, inDegrees, Members(list), x)
    ensures inDegrees'.Keys == inDegrees.Keys
    ensures Work(queue', inDegrees') <= Work(queue, inDegrees)
    ensures tracked ==> Releasing(d, slice, sorted, queue', inDegrees', {}, x)
  {
    inDegrees', queue' := inDegrees, queue;
    ghost var late := Members(list);
    for j := 0 to |list|
      invariant inDegrees'.Keys == inDegrees.Keys
      invariant Work(queue', inDegrees') <= Work(queue, inDegrees)
      invariant tracked ==> late == Members(list[j..]) && Releasing(d, slice, sorted, queue', inDegrees', late, x)
    {
      var dep := list[j];
      if tracked {
        MembersRest(list, j);
      }
      inDegrees', queue' := Decrement(slice[indexes[dep]], inDegrees', queue', slice, d, sorted, late, x, tracked);
      late := late - {dep};
    }
    assert late == {} || !tracked;
  }

  /** One round of it. */
  method Decrement(item: Sortable, inDegrees: map<UniqueID, int>, queue: seq<Sortable>, ghost slice: seq<Sortable>,
                   ghost d: DependencyMap, ghost sorted: seq<Sortable>, ghost late: set<UniqueID>, ghost x: UniqueID,
                   ghost tracked: bool)
    returns (inDegrees': map<UniqueID, int>, queue': seq<Sortable>)
    requires item.id in inDegrees
    requires tracked ==> Releasing(d, slice, sorted, queue, inDegrees, late, x)
    requires tracked ==> item.id in late && x in DepsOf(d, item.id) && item in slice
    ensures inDegrees'.Keys == inDegrees.Keys && Work(queue', inDegrees') <= Work(queue, inDegrees)
    ensures tracked ==> Releasing(d, slice, sorted, queue', inDegrees', late - {item.id}, x)
  {
    DecrementWork(queue, inDegrees, item);
    if tracked {
      ReleaseOne(d, slice, sorted, queue, inDegrees, late, x, item);
    }
    inDegrees', queue' := inDegrees[item.id := inDegrees[item.id] - 1], queue;
    if inDegrees'[item.id] == 0 {
      queue' := queue' + [item];
    }
  }

  lemma MembersRest(list: seq<UniqueID>, j: nat)
    requires j < |list| && NoRepeats(list)
    ensures list[j] in Members(list[j..])
    ensures Members(list[j..]) - {list[j]} == Members(list[j + 1..])
  {
    assert list[j..] == [list[j]] + list[j + 1..];
    assert list[j] !in list[j + 1..];
  }

  // ------------------------------------------------------------ when the queue runs dry

  /** A short result means that the objects left over are stuck on one another. */
  lemma ShortMeansStuck(d: DependencyMap, slice: seq<Sortable>, sorted: seq<Sortable>, inDegrees: map<UniqueID, int>)
    requires Distinct(slice) && Kahn(d, slice, sorted, [], inDegrees) && |sorted| != |slice|
    requires Closed(d, slice)
    ensures !Acyclic(d, slice)
  {
    LeftoverStuck(d, slice, sorted, inDegrees);
    LeftoverExists(d, slice, sorted, inDegrees);
    StuckIsCyclic(d, slice, Ids(slice) - Ids(sorted));
  }

  lemma LeftoverStuck(d: DependencyMap, slice: seq<Sortable>, sorted: seq<Sortable>, inDegrees: map<UniqueID, int>)
    requires Kahn(d, slice, sorted, [], inDegrees) && Closed(d, slice)
    ensures Stuck(d, Ids(slice) - Ids(sorted))
  {
    assert sorted + [] == sorted;
    var left := Ids(slice) - Ids(sorted);
    forall x | x in left ensures DependsInside(d, left, x) {
      assert inDegrees[x] == Missing(d, x, Ids(sorted)) && inDegrees[x] != 0;
      var y :| y in DepsOf(d, x) - Ids(sorted);
      assert y in left;
    }
  }

  lemma LeftoverExists(d: DependencyMap, slice: seq<Sortable>, sorted: seq<Sortable>, inDegrees: map<UniqueID, int>)
    requires Distinct(slice) && Kahn(d, slice, sorted, [], inDegrees) && |sorted| != |slice|
    ensures Ids(slice) - Ids(sorted) != {}
  {
    assert sorted + [] == sorted;
    DistinctSize(slice);
    DistinctSize(sorted);
    SortedIsListed(slice, sorted);
    assert Ids(slice) - Ids(sorted) == {} ==> Ids(slice) == Ids(sorted);
  }

  lemma SortedIsListed(slice: seq<Sortable>, sorted: seq<Sortable>)
    requires forall x :: x in sorted ==> x in slice
    ensures Ids(sorted) <= Ids(slice)
  {
    forall i | 0 <= i < |sorted| ensures sorted[i].id in Ids(slice) {
      assert sorted[i] in sorted;
    }
  }

  /** A full result is an ordering, so nothing outside the list was needed and there is no cycle. */
  lemma FullMeansOrdered(d: DependencyMap, slice: seq<Sortable>, sorted: seq<Sortable>, inDegrees: map<UniqueID, int>)
    requires Distinct(slice) && Kahn(d, slice, sorted, [], inDegrees) && |sorted| == |slice|
    ensures multiset(sorted) == multiset(slice) && DependenciesFirst(d, sorted)
    ensures Closed(d, slice) && Acyclic(d, slice)
  {
    assert sorted + [] == sorted;
    DistinctPermutation(sorted, slice);
    OrderedIsAcyclic(d, sorted);
    OrderedIsClosed(d, slice, sorted);
  }

  lemma OrderedIsClosed(d: DependencyMap, slice: seq<Sortable>, sorted: seq<Sortable>)
    requires DependenciesFirst(d, sorted) && Ids(sorted) == Ids(slice)
    ensures Closed(d, slice)
  {
    forall i | 0 <= i < |slice| ensures DepsOf(d, slice[i].id) <= Ids(slice) {
      assert slice[i].id in Ids(sorted);
      var k :| 0 <= k < |sorted| && sorted[k].id == slice[i].id;
      PrefixIds(sorted, k);
    }
  }

  lemma PrefixIds(items: seq<Sortable>, k: nat)
    requires k <= |items|
    ensures Ids(items[..k]) <= Ids(items)
  {
    forall i | 0 <= i < k ensures items[..k][i].id in Ids(items) {
      assert items[..k][i] == items[i];
    }
  }

  /**
   Sorts by dependencies; None is the fatal error. It terminates on every input. For distinct
   ids it succeeds exactly when every dependency of a listed object is listed and there is no
   cycle, and then returns the same objects, each after everything it depends on.
   */
  method Sort(slice: seq<Sortable>, dependencies: DependencyMap) returns (r: Option<seq<Sortable>>)
    ensures Distinct(slice) ==> (r.Some? <==> Closed(dependencies, slice) && Acyclic(dependencies, slice))
    ensures Distinct(slice) && r.Some? ==>
      multiset(r.value) == multiset(slice) && DependenciesFirst(dependencies, r.value)
  {
    var inDegrees, indexes, isDependentOn, queue := Prepare(slice, dependencies);
    var sorted: seq<Sortable> := [];
    ghost var tracked := Distinct(slice);
    if tracked {
      KahnInit(dependencies, slice, inDegrees, indexes, queue);
    }
    while |queue| > 0
      invariant inDegrees.Keys == indexes.Keys == Ids(slice)
      invariant tracked ==> Kahn(dependencies, slice, sorted, queue, inDegrees)
      decreases Work(queue, inDegrees)
    {
      var item := queue[0];
      var list := Get(isDependentOn, item.id);
      DependentsAre(dependencies, slice, item.id);
      inDegrees, queue := Advance(slice, indexes, list, inDegrees, queue, dependencies, sorted, tracked);
      sorted := sorted + [item];
    }
    if tracked {
      Verdict(dependencies, slice, sorted, inDegrees);
    }
    if |slice| != |sorted| {
      r := None;
    } else {
      r := Some(sorted);
    }
  }

  /** One round: the head of the queue is sorted, its dependents are released. */
  method Advance(slice: seq<Sortable>, indexes: map<UniqueID, nat>, list: seq<UniqueID>,
                 inDegrees: map<UniqueID, int>, queue: seq<Sortable>,
                 ghost d: DependencyMap, ghost sorted: seq<Sortable>, ghost tracked: bool)
    returns (inDegrees': map<UniqueID, int>, queue': seq<Sortable>)
    requires queue != [] && inDegrees.Keys == indexes.Keys
    requires forall y :: y in indexes ==> indexes[y] < |slice| && slice[indexes[y]].id == y
    requires forall y :: y in list <==> y in indexes && queue[0].id in DepsOf(d, y)
    requires tracked ==> NoRepeats(list) && Kahn(d, slice, sorted, queue, inDegrees)
    ensures inDegrees'.Keys == inDegrees.Keys
    ensures Work(queue', inDegrees') < Work(queue, inDegrees)
    ensures tracked ==> Kahn(d, slice, sorted + [queue[0]], queue', inDegrees')
  {
    if tracked {
      KahnPop(d, slice, sorted, queue, inDegrees, Members(list));
    }
    inDegrees', queue' :=
      Release(slice, indexes, list, inDegrees, queue[1..], d, sorted + [queue[0]], queue[0].id, tracked);
  }

  /** The length of the result decides. */
  lemma Verdict(d: DependencyMap, slice: seq<Sortable>, sorted: seq<Sortable>, inDegrees: map<UniqueID, int>)
    requires Distinct(slice) && Kahn(d, slice, sorted, [], inDegrees)
    ensures |slice| == |sorted| <==> Closed(d, slice) && Acyclic(d, slice)
    ensures |slice| == |sorted| ==> multiset(sorted) == multiset(slice) && DependenciesFirst(d, sorted)
  {
    if |slice| != |sorted| {
      if Closed(d, slice) {
        ShortMeansStuck(d, slice, sorted, inDegrees);
      }
    } else {
      FullMeansOrdered(d, slice, sorted, inDegrees);
    }
  }
}
