/**
 Parent-first ordering of index definitions (meta/builtin/queries_postdata.go, the depth-first
 search at the end of GetIndexes): each index is followed up its parents onto a stack, and the
 stack is emptied from the top.
 */
module IndexOrder {
  import opened Sequences
  import opened Strings

  /** `parent` is 0 when there is none; `parentFqn` is filled in by the ordering. */
  datatype Index = Index(oid: nat, parent: nat, schema: string, name: string, parentFqn: string)

  function Fqn(i: Index): string {
    Qualify(i.schema, i.name)
  }

  /** What looking up an absent index yields. */
  function NoIndex(): Index {
    Index(0, 0, "", "", "")
  }

  type IndexMap = m: map<nat, Index> | forall k :: k in m ==> m[k].oid == k

  /** `o` has its parent in the map. */
  predicate HasParent(m: IndexMap, o: nat) {
    o in m && m[o].parent != 0 && m[o].parent in m
  }

  /** The definition of `o` with the name of its parent; an absent parent has the empty name. */
  function Resolved(m: IndexMap, o: nat): Index
    requires o in m
  {
    if m[o].parent == 0 then m[o]
    else m[o].(parentFqn := if m[o].parent in m then Fqn(m[m[o].parent]) else Fqn(NoIndex()))
  }

  /** `i` is the row of its oid, with the qualified name of its parent where it has one. */
  predicate IsResolved(m: IndexMap, i: Index) {
    && i.oid in m && i.parent == m[i.oid].parent && i.schema == m[i.oid].schema && i.name == m[i.oid].name
    && i.parentFqn ==
       if i.parent == 0 then m[i.oid].parentFqn
       else if i.parent in m then m[i.parent].schema + "." + m[i.parent].name
       else "."
  }

  function ResolveAll(m: IndexMap, oids: seq<nat>): seq<Index>
    requires forall k :: 0 <= k < |oids| ==> oids[k] in m
  {
    seq(|oids|, k requires 0 <= k < |oids| => Resolved(m, oids[k]))
  }

  lemma ResolvedIs(m: IndexMap, o: nat)
    requires o in m
    ensures IsResolved(m, Resolved(m, o)) && Resolved(m, o).oid == o
  {
  }

  function Oids(rows: seq<Index>): seq<nat> {
    seq(|rows|, k requires 0 <= k < |rows| => rows[k].oid)
  }

  // ------------------------------------------------------------ parents and cycles

  /** Each entry's parent is the next one. */
  predicate IsChain(m: IndexMap, c: seq<nat>) {
    |c| > 0 && (forall k :: 0 <= k < |c| ==> c[k] in m) && forall k :: 1 <= k < |c| ==> IsParent(m, c, k)
  }

  predicate IsParent(m: IndexMap, c: seq<nat>, k: int)
    requires 1 <= k < |c|
  {
    HasParent(m, c[k - 1]) && m[c[k - 1]].parent == c[k]
  }

  /** No index is its own ancestor. */
  ghost predicate Forest(m: IndexMap) {
    !exists c: seq<nat> :: IsChain(m, c) && |c| > 1 && c[0] == c[|c| - 1]
  }

  /** Entry `k` comes after its parent. */
  predicate AfterParent(m: IndexMap, oids: seq<nat>, k: nat)
    requires k < |oids|
  {
    HasParent(m, oids[k]) ==> m[oids[k]].parent in oids[..k]
  }

  predicate ParentsFirst(m: IndexMap, oids: seq<nat>) {
    forall k :: 0 <= k < |oids| ==> AfterParent(m, oids, k)
  }

  lemma SubChain(m: IndexMap, c: seq<nat>, i: nat, j: nat)
    requires IsChain(m, c) && i < j <= |c|
    ensures IsChain(m, c[i..j])
  {
    var d := c[i..j];
    forall k | 1 <= k < |d| ensures IsParent(m, d, k) {
      assert IsParent(m, c, i + k);
    }
  }

  lemma {:induction false} AncestorsComeEarlier(m: IndexMap, oids: seq<nat>, c: seq<nat>, at: seq<nat>)
    requires ParentsFirst(m, oids) && NoRepeats(oids) && IsChain(m, c) && |at| == |c|
    requires forall k :: 0 <= k < |c| ==> at[k] < |oids| && oids[at[k]] == c[k]
    ensures at[|c| - 1] + (|c| - 1) <= at[0]
  {
    var n := |c| - 1;
    if n > 0 {
      assert IsParent(m, c, n);
      SubChain(m, c, 0, n);
      AncestorsComeEarlier(m, oids, c[..n], at[..n]);
      assert AfterParent(m, oids, at[n - 1]);
      var p :| 0 <= p < at[n - 1] && oids[..at[n - 1]][p] == c[n];
      assert p == at[n];
    }
  }

  /** Only a forest can be listed parents first. */
  lemma ParentsFirstMeansForest(m: IndexMap, oids: seq<nat>)
    requires ParentsFirst(m, oids) && NoRepeats(oids) && Members(oids) == m.Keys
    ensures Forest(m)
  {
    if c: seq<nat> :| IsChain(m, c) && |c| > 1 && c[0] == c[|c| - 1] {
      assert forall k :: 0 <= k < |c| ==> c[k] in Members(oids);
      var at := seq(|c|, k requires 0 <= k < |c| => Position(oids, c[k]));
      AncestorsComeEarlier(m, oids, c, at);
      assert false;
    }
  }

  function Position(s: seq<nat>, x: nat): (k: nat)
    requires x in s
    ensures k < |s| && s[k] == x
  {
    if s[0] == x then 0 else 1 + Position(s[1..], x)
  }

  // ------------------------------------------------------------ the search

  /** `stack` holds the indexes visited since `done`, each once. */
  ghost predicate Search(m: IndexMap, done: set<nat>, visited: set<nat>, stack: seq<nat>) {
    && visited == done + Members(stack)
    && NoRepeats(stack)
    && forall k :: 0 <= k < |stack| ==> stack[k] in m && stack[k] !in done
  }

  /** The search stopped for a reason: no parent, or a parent seen before. */
  ghost predicate Stopped(m: IndexMap, visited: set<nat>, stack: seq<nat>) {
    stack != [] && HasParent(m, stack[|stack| - 1]) ==> m[stack[|stack| - 1]].parent in visited
  }

  /** The stack leads to `o` by one more step. */
  ghost predicate LeadsTo(m: IndexMap, stack: seq<nat>, o: nat) {
    stack != [] ==>
      IsChain(m, stack) && HasParent(m, stack[|stack| - 1]) && m[stack[|stack| - 1]].parent == o
  }

  lemma SearchPush(m: IndexMap, done: set<nat>, visited: set<nat>, stack: seq<nat>, o: nat)
    requires Search(m, done, visited, stack) && o in m && o !in visited
    ensures Search(m, done, visited + {o}, stack + [o])
  {
    var t := stack + [o];
    assert Members(t) == Members(stack) + {o};
    assert forall k :: 0 <= k < |stack| ==> t[k] == stack[k] && t[k] in Members(stack);
  }

  lemma ChainPush(m: IndexMap, stack: seq<nat>, o: nat)
    requires LeadsTo(m, stack, o) && o in m
    ensures IsChain(m, stack + [o])
  {
    var t := stack + [o];
    forall k | 1 <= k < |t| ensures IsParent(m, t, k) {
      assert k < |stack| ==> IsParent(m, stack, k);
    }
  }

  /** The inner search loop: up the parents until one was visited or none is left. */
  method Climb(m: IndexMap, index: Index, done: set<nat>) returns (visited: set<nat>, stack: seq<nat>)
    requires index.oid in m
    ensures Search(m, done, visited, stack) && index.oid in visited
    ensures m[index.oid] == index && stack != [] ==> IsChain(m, stack) && Stopped(m, visited, stack)
  {
    visited, stack := done, [];
    var curr := index;
    while curr.oid !in visited
      invariant Search(m, done, visited, stack)
      invariant curr.oid in m && (m[index.oid] == index ==> curr == m[curr.oid] && LeadsTo(m, stack, curr.oid))
      invariant if stack == [] then curr == index else index.oid in visited
      decreases m.Keys - visited
    {
      SearchPush(m, done, visited, stack, curr.oid);
      if m[index.oid] == index {
        ChainPush(m, stack, curr.oid);
      }
      stack := stack + [curr.oid];
      visited := visited + {curr.oid};
      if curr.parent == 0 || curr.parent !in m {
        break;
      }
      curr := m[curr.parent];
    }
  }

  /** The stack from the top, as the pop loop emits it. */
  function Popped(stack: seq<nat>): (r: seq<nat>)
    ensures |r| == |stack| && forall k :: 0 <= k < |r| ==> r[k] == stack[|stack| - 1 - k]
  {
    seq(|stack|, k requires 0 <= k < |stack| => stack[|stack| - 1 - k])
  }

  lemma PoppedOnce(m: IndexMap, oids: seq<nat>, visited: set<nat>, stack: seq<nat>)
    requires Search(m, Members(oids), visited, stack) && NoRepeats(oids)
    ensures Members(oids + Popped(stack)) == visited && NoRepeats(oids + Popped(stack))
  {
    var p := Popped(stack);
    var t := oids + p;
    forall x | x in stack ensures x in t {
      var k :| 0 <= k < |stack| && stack[k] == x;
      assert t[|oids| + |stack| - 1 - k] == x;
    }
    assert forall x :: x in p ==> x in stack;
    assert Members(t) == Members(oids) + Members(stack);
    forall i, j | 0 <= i < j < |t| ensures t[i] != t[j] {
      if i < |oids| <= j {
        assert t[j] == stack[|stack| - 1 - (j - |oids|)];
        assert t[i] in Members(oids);
      } else if |oids| <= i {
        assert t[i] == stack[|stack| - 1 - (i - |oids|)] && t[j] == stack[|stack| - 1 - (j - |oids|)];
      }
    }
  }

  /** In a forest the parent of the last index on the stack is not on the stack. */
  lemma StopIsOutside(m: IndexMap, done: set<nat>, visited: set<nat>, stack: seq<nat>)
    requires Forest(m) && Search(m, done, visited, stack) && stack != [] && IsChain(m, stack)
    requires Stopped(m, visited, stack) && HasParent(m, stack[|stack| - 1])
    ensures m[stack[|stack| - 1]].parent in done
  {
    var p := m[stack[|stack| - 1]].parent;
    if p in stack {
      var k :| 0 <= k < |stack| && stack[k] == p;
      var c := stack[k..];
      SubChain(m, stack, k, |stack|);
      assert c == stack[k..|stack|];
      ChainPush(m, c, p);
    }
  }

  lemma PoppedParentsFirst(m: IndexMap, oids: seq<nat>, visited: set<nat>, stack: seq<nat>)
    requires Forest(m) && Search(m, Members(oids), visited, stack) && ParentsFirst(m, oids)
    requires stack != [] ==> IsChain(m, stack) && Stopped(m, visited, stack)
    ensures ParentsFirst(m, oids + Popped(stack))
  {
    var p := Popped(stack);
    var t := oids + p;
    forall k | 0 <= k < |t| ensures AfterParent(m, t, k) {
      if k < |oids| {
        assert AfterParent(m, oids, k) && t[..k] == oids[..k];
      } else {
        var j := |stack| - 1 - (k - |oids|);
        assert t[k] == stack[j];
        if HasParent(m, t[k]) {
          var parent := m[t[k]].parent;
          if j == |stack| - 1 {
            StopIsOutside(m, Members(oids), visited, stack);
            assert t[..k] == oids;
          } else {
            assert IsParent(m, stack, j + 1);
            assert t[..k][k - 1] == parent;
          }
        }
      }
    }
  }

  // ------------------------------------------------------------ the whole ordering

  /** The last row of an oid stays. */
  function MapOf(rows: seq<Index>): IndexMap {
    if rows == [] then map[] else MapOf(rows[..|rows| - 1])[rows[|rows| - 1].oid := rows[|rows| - 1]]
  }

  lemma {:induction false} MapOfRows(rows: seq<Index>)
    ensures forall k :: 0 <= k < |rows| ==> rows[k].oid in MapOf(rows)
    ensures forall o :: o in MapOf(rows) ==> MapOf(rows)[o] in rows
  {
    if rows != [] {
      MapOfRows(rows[..|rows| - 1]);
    }
  }

  /** Rows with the same oid are the same row. */
  predicate OidsIdentify(rows: seq<Index>) {
    forall i, j :: 0 <= i < |rows| && 0 <= j < |rows| && rows[i].oid == rows[j].oid ==> rows[i] == rows[j]
  }

  /** Emptying the stack: each index with the name of its parent filled in. */
  method Pop(m: IndexMap, ghost oids: seq<nat>, stack: seq<nat>, before: seq<Index>) returns (sorted: seq<Index>)
    requires forall k :: 0 <= k < |stack| ==> stack[k] in m
    requires forall k :: 0 <= k < |oids| ==> oids[k] in m
    requires before == ResolveAll(m, oids)
    ensures sorted == ResolveAll(m, oids + Popped(stack))
  {
    sorted := before;
    var i := |stack|;
    while i > 0
      invariant 0 <= i <= |stack|
      invariant sorted == ResolveAll(m, oids + Popped(stack)[..|stack| - i])
    {
      i := i - 1;
      var popped := m[stack[i]];
      if popped.parent != 0 {
        var name := if popped.parent in m then Fqn(m[popped.parent]) else Fqn(NoIndex());
        popped := popped.(parentFqn := name);
      }
      sorted := sorted + [popped];
      assert Popped(stack)[..|stack| - i] == Popped(stack)[..|stack| - i - 1] + [stack[i]];
    }
    assert Popped(stack)[..|stack|] == Popped(stack);
  }

  lemma MapOneMore(rows: seq<Index>, i: nat)
    requires i < |rows|
    ensures MapOf(rows[..i + 1]) == MapOf(rows[..i])[rows[i].oid := rows[i]]
  {
    assert rows[..i + 1][..i] == rows[..i];
  }

  method BuildMap(rows: seq<Index>) returns (m: IndexMap)
    ensures m == MapOf(rows)
  {
    m := map[];
    for i := 0 to |rows|
      invariant m == MapOf(rows[..i])
    {
      MapOneMore(rows, i);
      m := m[rows[i].oid := rows[i]];
    }
    assert rows[..|rows|] == rows;
  }

  /** `sorted` holds each visited index once, in the order `oids`. */
  ghost predicate Progress(m: IndexMap, oids: seq<nat>, visited: set<nat>, sorted: seq<Index>) {
    && Members(oids) == visited && NoRepeats(oids)
    && (forall k :: 0 <= k < |oids| ==> oids[k] in m)
    && sorted == ResolveAll(m, oids)
  }

  /** One round of the outer loop. */
  method Visit(m: IndexMap, index: Index, visited: set<nat>, sorted: seq<Index>, ghost oids: seq<nat>)
    returns (visited': set<nat>, sorted': seq<Index>, ghost oids': seq<nat>)
    requires index.oid in m && Progress(m, oids, visited, sorted)
    ensures Progress(m, oids', visited', sorted')
    ensures visited <= visited' && index.oid in visited'
    ensures m[index.oid] == index && Forest(m) && ParentsFirst(m, oids) ==> ParentsFirst(m, oids')
  {
    var stack;
    visited', stack := Climb(m, index, visited);
    PoppedOnce(m, oids, visited', stack);
    if m[index.oid] == index && Forest(m) && ParentsFirst(m, oids) {
      PoppedParentsFirst(m, oids, visited', stack);
    }
    sorted' := Pop(m, oids, stack, sorted);
    oids' := oids + Popped(stack);
  }

  /**
   The ordering of a list of indexes with valid definitions, on versions that attach partition
   indexes. It ends for any parent references; every oid comes out once, with its parent's name;
   and parents come before their children exactly when no index is its own ancestor.
   */
  method SortIndexes(rows: seq<Index>) returns (sorted: seq<Index>)
    ensures NoRepeats(Oids(sorted)) && Members(Oids(sorted)) == MapOf(rows).Keys
    ensures forall k :: 0 <= k < |sorted| ==> IsResolved(MapOf(rows), sorted[k])
    ensures OidsIdentify(rows) ==> (ParentsFirst(MapOf(rows), Oids(sorted)) <==> Forest(MapOf(rows)))
  {
    var m := BuildMap(rows);
    MapOfRows(rows);
    sorted := VisitAll(m, rows);
  }

  /** The outer loop over the rows of `m`. */
  method VisitAll(m: IndexMap, rows: seq<Index>) returns (sorted: seq<Index>)
    requires forall k :: 0 <= k < |rows| ==> rows[k].oid in m
    requires forall o :: o in m ==> m[o] in rows
    ensures Members(Oids(sorted)) == m.Keys && NoRepeats(Oids(sorted))
    ensures forall k :: 0 <= k < |sorted| ==> IsResolved(m, sorted[k])
    ensures OidsIdentify(rows) ==> (ParentsFirst(m, Oids(sorted)) <==> Forest(m))
  {
    sorted := [];
    ghost var oids := [];
    var visited: set<nat> := {};
    for i := 0 to |rows|
      invariant Progress(m, oids, visited, sorted)
      invariant forall k :: 0 <= k < i ==> rows[k].oid in visited
      invariant OidsIdentify(rows) && Forest(m) ==> ParentsFirst(m, oids)
    {
      assert OidsIdentify(rows) ==> m[rows[i].oid] in rows && m[rows[i].oid] == rows[i];
      visited, sorted, oids := Visit(m, rows[i], visited, sorted, oids);
    }
    AllVisited(m, rows, oids);
    assert oids == Oids(sorted);
    forall k | 0 <= k < |sorted| ensures IsResolved(m, sorted[k]) {
      ResolvedIs(m, oids[k]);
    }
    if ParentsFirst(m, oids) {
      ParentsFirstMeansForest(m, oids);
    }
  }

  lemma AllVisited(m: IndexMap, rows: seq<Index>, oids: seq<nat>)
    requires forall o :: o in m ==> m[o] in rows
    requires forall k :: 0 <= k < |oids| ==> oids[k] in m
    requires forall k :: 0 <= k < |rows| ==> rows[k].oid in Members(oids)
    ensures Members(oids) == m.Keys
  {
    forall o | o in m ensures o in Members(oids) {
      assert m[o] in rows;
    }
  }
}
