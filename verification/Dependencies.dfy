/**
 The dependency map of the objects to be copied (meta/builtin/dependencies.go): built from
 catalog rows, freed of mutual type/function dependencies, and used to order the objects.
 */
module Dependencies {
  import opened DependencyGraph
  import opened Wrappers
  import T = TopologicalSort

  const PG_TYPE_OID: nat := 1247
  const PG_PROC_OID: nat := 1255

  /** A pg_depend row: `source` depends on `reference`. */
  datatype Row = Row(source: UniqueID, reference: UniqueID)

  predicate Relevant(row: Row, backupSet: set<UniqueID>) {
    row.source != row.reference && row.source in backupSet && row.reference in backupSet
  }

  /** A row says that `x` depends on `y`, and both are listed and different. */
  ghost predicate IsEdge(rows: seq<Row>, backupSet: set<UniqueID>, x: UniqueID, y: UniqueID) {
    x != y && x in backupSet && y in backupSet && Row(x, y) in rows
  }

  /** What the rows say `x` depends on, within the backup set. */
  ghost function Referenced(rows: seq<Row>, backupSet: set<UniqueID>, x: UniqueID): set<UniqueID> {
    set row | row in rows && Relevant(row, backupSet) && row.source == x :: row.reference
  }

  /** The map-building loop of GetDependencies. */
  method BuildDependencyMap(rows: seq<Row>, backupSet: set<UniqueID>) returns (m: DependencyMap)
    ensures forall x, y :: y in DepsOf(m, x) <==> IsEdge(rows, backupSet, x, y)
    ensures forall x :: x in m ==> m[x] != {}
  {
    m := map[];
    for i := 0 to |rows|
      invariant forall x :: DepsOf(m, x) == Referenced(rows[..i], backupSet, x)
      invariant forall x :: x in m ==> m[x] != {}
    {
      var row := rows[i];
      forall x ensures Referenced(rows[..i + 1], backupSet, x)
                 == Referenced(rows[..i], backupSet, x)
                    + if Relevant(row, backupSet) && row.source == x then {row.reference} else {}
      {
        ReferencedOneMore(rows, i, backupSet, x);
      }
      if !Relevant(row, backupSet) {
        continue;
      }
      ghost var before := m;
      m := m[row.source := DepsOf(m, row.source) + {row.reference}];
      assert forall x :: DepsOf(m, x) == DepsOf(before, x) + if row.source == x then {row.reference} else {};
    }
    assert rows[..|rows|] == rows;
    forall x, y ensures y in DepsOf(m, x) <==> IsEdge(rows, backupSet, x, y) {
      ReferencedIsEdge(rows, backupSet, x, y);
    }
  }

  lemma ReferencedIsEdge(rows: seq<Row>, backupSet: set<UniqueID>, x: UniqueID, y: UniqueID)
    ensures y in Referenced(rows, backupSet, x) <==> IsEdge(rows, backupSet, x, y)
  {
    if IsEdge(rows, backupSet, x, y) {
      assert Relevant(Row(x, y), backupSet);
    }
  }

  lemma ReferencedOneMore(rows: seq<Row>, i: nat, backupSet: set<UniqueID>, x: UniqueID)
    requires i < |rows|
    ensures Referenced(rows[..i + 1], backupSet, x)
         == Referenced(rows[..i], backupSet, x)
            + if Relevant(rows[i], backupSet) && rows[i].source == x then {rows[i].reference} else {}
  {
    assert rows[..i + 1] == rows[..i] + [rows[i]];
  }

  // ------------------------------------------------------------ breaking mutual dependencies

  /** Type `t` and function `f` depend on each other. */
  predicate Mutual(d: DependencyMap, f: UniqueID, t: UniqueID) {
    && t.classId == PG_TYPE_OID && f.classId == PG_PROC_OID
    && t in DepsOf(d, f) && f in DepsOf(d, t)
  }

  /** What remains of the dependencies of `f`. */
  function Remaining(d: DependencyMap, f: UniqueID): set<UniqueID> {
    set t | t in DepsOf(d, f) && !Mutual(d, f, t)
  }

  /** `d` without its mutual function-to-type edges; an object left without edges is dropped. */
  function Broken(d: DependencyMap): DependencyMap {
    map f | f in d && (Remaining(d, f) != {} || d[f] == {}) :: Remaining(d, f)
  }

  /** What is left while only the edges accepted by `gone` were removed. */
  ghost function Without(d: DependencyMap, gone: set<(UniqueID, UniqueID)>): DependencyMap {
    map f | f in d && (Left(d, gone, f) != {} || d[f] == {}) :: Left(d, gone, f)
  }

  ghost function Left(d: DependencyMap, gone: set<(UniqueID, UniqueID)>, f: UniqueID): set<UniqueID>
    requires f in d
  {
    set t | t in d[f] && (f, t) !in gone
  }

  /** Removing one more edge is what the two delete branches do. */
  lemma RemoveEdge(d: DependencyMap, gone: set<(UniqueID, UniqueID)>, f: UniqueID, t: UniqueID)
    requires f in d && t in d[f] && (f, t) !in gone
    ensures var m := Without(d, gone);
      && f in m && t in m[f]
      && Without(d, gone + {(f, t)}) == if |m[f]| == 1 then m - {f} else m[f := m[f] - {t}]
  {
    var m := Without(d, gone);
    assert t in Left(d, gone, f);
    assert Left(d, gone + {(f, t)}, f) == m[f] - {t};
    forall g | g in d && g != f ensures Left(d, gone + {(f, t)}, g) == Left(d, gone, g) {
    }
    if |m[f]| == 1 {
      assert |m[f] - {t}| == 0;
    } else {
      assert |m[f] - {t}| == |m[f]| - 1;
    }
  }

  /** Exactly the mutual edges into `types`, and those of `fs` into `t`, are gone. */
  ghost predicate Gone(
    d: DependencyMap, gone: set<(UniqueID, UniqueID)>, types: set<UniqueID>, t: UniqueID, fs: set<UniqueID>)
  {
    forall f, u :: (f, u) in gone <==> Mutual(d, f, u) && (u in types || (u == t && f in fs))
  }

  /**
   breakCircularDependencies. The keys and the dependencies of each key are visited in
   arbitrary order; every order gives the same map.
   */
  method BreakCircularDependencies(depMap: DependencyMap) returns (m: DependencyMap)
    ensures m == Broken(depMap)
  {
    m := depMap;
    ghost var gone: set<(UniqueID, UniqueID)> := {};
    ghost var visited: set<UniqueID> := {};
    var todo := depMap.Keys;
    assert Without(depMap, {}) == depMap by {
      forall f | f in depMap ensures Left(depMap, {}, f) == depMap[f] {
      }
    }
    while todo != {}
      invariant todo <= depMap.Keys && visited == depMap.Keys - todo
      invariant m == Without(depMap, gone)
      invariant forall f, u :: (f, u) in gone <==> Mutual(depMap, f, u) && u in visited
      decreases todo
    {
      var entry :| entry in todo;
      todo := todo - {entry};
      if entry in m {
        m, gone := BreakEntry(depMap, m, entry, gone, visited);
      }
      visited := visited + {entry};
    }
    WithoutAll(depMap, gone);
  }

  lemma WithoutAll(d: DependencyMap, gone: set<(UniqueID, UniqueID)>)
    requires forall f, u :: (f, u) in gone <==> Mutual(d, f, u) && u in d.Keys
    ensures Without(d, gone) == Broken(d)
  {
    forall f | f in d ensures Left(d, gone, f) == Remaining(d, f) {
    }
  }

  /** The inner loop for one entry. */
  method BreakEntry(ghost d: DependencyMap, m0: DependencyMap, entry: UniqueID,
                    ghost gone0: set<(UniqueID, UniqueID)>, ghost visited: set<UniqueID>)
    returns (m: DependencyMap, ghost gone: set<(UniqueID, UniqueID)>)
    requires m0 == Without(d, gone0) && entry in m0 && entry !in visited
    requires forall f, u :: (f, u) in gone0 <==> Mutual(d, f, u) && u in visited
    ensures m == Without(d, gone)
    ensures forall f, u :: (f, u) in gone <==> Mutual(d, f, u) && u in visited + {entry}
  {
    m, gone := m0, gone0;
    var deps := m0[entry];
    TypeKeepsAll(d, gone0, entry);
    var todo := deps;
    while todo != {}
      invariant todo <= deps
      invariant m == Without(d, gone)
      invariant Gone(d, gone, visited, entry, deps - todo)
      decreases todo
    {
      var dep :| dep in todo;
      EdgeKept(d, gone, dep, entry);
      todo := todo - {dep};
      if dep in m && entry.classId == PG_TYPE_OID && dep.classId == PG_PROC_OID {
        if entry in m[dep] {
          RemoveEdge(d, gone, dep, entry);
          if |m[dep]| == 1 {
            m := m - {dep};
          } else {
            m := m[dep := m[dep] - {entry}];
          }
          gone := gone + {(dep, entry)};
        }
      }
    }
  }

  lemma EdgeKept(d: DependencyMap, gone: set<(UniqueID, UniqueID)>, f: UniqueID, t: UniqueID)
    requires (f, t) !in gone
    ensures t in DepsOf(Without(d, gone), f) <==> t in DepsOf(d, f)
  {
    if f in d {
      assert t in Left(d, gone, f) <==> t in d[f];
    }
  }

  /** No edge out of a type is ever removed. */
  lemma TypeKeepsAll(d: DependencyMap, gone: set<(UniqueID, UniqueID)>, t: UniqueID)
    requires t in d && forall f, u :: (f, u) in gone ==> Mutual(d, f, u)
    ensures t.classId == PG_TYPE_OID ==> Left(d, gone, t) == d[t]
  {
  }

  // ------------------------------------------------------------ what breaking achieves

  lemma BrokenDeps(d: DependencyMap, x: UniqueID)
    ensures DepsOf(Broken(d), x) == Remaining(d, x)
  {
    assert x !in d ==> Remaining(d, x) == {};
  }

  /** Exactly the function-to-type edges whose reverse edge exists are removed, none is added. */
  lemma BreakingRemovesExactly(d: DependencyMap, x: UniqueID, y: UniqueID)
    ensures y in DepsOf(Broken(d), x) <==>
      y in DepsOf(d, x) && !(x.classId == 1255 && y.classId == 1247 && x in DepsOf(d, y))
  {
    BrokenDeps(d, x);
  }

  /** Afterwards no type and function depend on each other, and the type's side is kept. */
  lemma NoMutualLeft(d: DependencyMap, f: UniqueID, t: UniqueID)
    ensures !Mutual(Broken(d), f, t)
    ensures Mutual(d, f, t) ==> f in DepsOf(Broken(d), t)
  {
    BreakingRemovesExactly(d, f, t);
    BreakingRemovesExactly(d, t, f);
  }

  /** Breaking can only remove cycles. */
  lemma BreakingKeepsAcyclic(d: DependencyMap, items: seq<Sortable>)
    requires Acyclic(d, items)
    ensures Acyclic(Broken(d), items)
  {
    forall p: seq<UniqueID> | IsCycle(Broken(d), p) ensures IsCycle(d, p) {
      forall k | 1 <= k < |p| ensures Linked(d, p, k) {
        assert Linked(Broken(d), p, k);
        BreakingRemovesExactly(d, p[k - 1], p[k]);
      }
    }
  }

  // ------------------------------------------------------------ ordering the objects

  /**
   GetDependencies and TopologicalSort as backupDependentObjects runs them. The rows are
   cut to the listed objects, so sorting fails only for a cycle that breaking left over.
   */
  method OrderDependentObjects(sortables: seq<Sortable>, rows: seq<Row>)
    returns (deps: DependencyMap, r: Option<seq<Sortable>>)
    ensures forall x, y :: y in DepsOf(deps, x) <==> IsDependency(rows, Ids(sortables), x, y)
    ensures Distinct(sortables) ==> (r.Some? <==> Acyclic(deps, sortables))
    ensures Distinct(sortables) && r.Some? ==>
      multiset(r.value) == multiset(sortables) && DependenciesFirst(deps, r.value)
  {
    var m := BuildDependencyMap(rows, Ids(sortables));
    deps := BreakCircularDependencies(m);
    forall x, y ensures y in DepsOf(deps, x) <==> IsDependency(rows, Ids(sortables), x, y) {
      BreakingRemovesExactly(m, x, y);
    }
    r := T.Sort(sortables, deps);
  }

  /** Some row of the listed objects says `x` depends on `y`, and it is not the broken half of a pair. */
  ghost predicate IsDependency(rows: seq<Row>, backupSet: set<UniqueID>, x: UniqueID, y: UniqueID) {
    && IsEdge(rows, backupSet, x, y)
    && !(x.classId == PG_PROC_OID && y.classId == PG_TYPE_OID && IsEdge(rows, backupSet, y, x))
  }
}
