/**
 The phases of restorePredata (meta/builtin/builtin.go, meta/builtin/restore_helper.go): each
 selects statements from the table of contents by object type, and the dependent objects go
 through the parallel scheduler.
 */
module RestorePhases {
  import opened Sequences
  import opened Toc
  import opened DependencyGraph
  import S = Scheduler

  // ------------------------------------------------------------ one phase per entry

  datatype Phase = Phase(included: seq<string>, excluded: seq<string>)

  /** Object types with a phase of their own: six before the dependent objects, five after them. */
  function OwnTypes(): (ts: seq<string>)
    ensures |ts| == 11
  {
    ["SCHEMA", "EXTENSION", "COLLATION", "TYPE", "OPERATOR FAMILY", "SEQUENCE",
     "LANGUAGE", "EXCHANGE PARTITION", "SEQUENCE OWNER", "CONVERSION", "CONSTRAINT"]
  }

  /** The list RestoreDependentObjects leaves out. */
  function LeftOut(): (ts: seq<string>)
    ensures |ts| == 11
  {
    ["EXTENSION", "COLLATION", "LANGUAGE", "TYPE", "OPERATOR FAMILY", "SEQUENCE", "EXCHANGE PARTITION",
     "SEQUENCE OWNER", "CONVERSION", "CONSTRAINT", "SCHEMA"]
  }

  const NUM_PHASES: nat := 12
  const DEPENDENT: nat := 6

  /** The type of phase `p`, which is not that of the dependent objects. */
  function OwnType(p: nat): string
    requires p < NUM_PHASES && p != DEPENDENT
  {
    OwnTypes()[if p < DEPENDENT then p else p - 1]
  }

  /** The phases in the order they run. */
  function PhaseAt(p: nat): Phase
    requires p < NUM_PHASES
  {
    if p == DEPENDENT then Phase([], LeftOut()) else Phase([OwnType(p)], [])
  }

  predicate SelectedIn(p: nat, e: Entry)
    requires p < NUM_PHASES
  {
    Selects(NoFilters(), PhaseAt(p).included, PhaseAt(p).excluded, e)
  }

  lemma SelectedInIff(p: nat, e: Entry)
    requires p < NUM_PHASES
    ensures SelectedIn(p, e) <==> if p == DEPENDENT then e.objectType !in LeftOut() else e.objectType == OwnType(p)
  {
    OnlyTypeDecides(PhaseAt(p).included, PhaseAt(p).excluded, e);
  }

  /** The types are pairwise different. */
  lemma TypesDiffer()
    ensures forall i, j :: 0 <= i < j < 11 ==> OwnTypes()[i] != OwnTypes()[j]
  {
    var all := OwnTypes();
    var sizes := [6, 9, 9, 4, 15, 8, 8, 18, 14, 10, 10];
    assert forall k :: 0 <= k < 11 ==> |all[k]| == sizes[k];
    assert all[1][0] == 'E' && all[2][0] == 'C' && all[5][0] == 'S' && all[6][0] == 'L';
    assert all[9][3] == 'V' && all[10][3] == 'S';
  }

  /** The list left out is exactly the types with a phase of their own. */
  lemma LeftOutAreOwned(t: string)
    ensures t in LeftOut() <==> t in OwnTypes()
  {
    SameMembers(OwnTypes(), LeftOut(), [10, 0, 1, 3, 4, 5, 2, 6, 7, 8, 9], [1, 2, 6, 3, 4, 5, 7, 8, 9, 10, 0], t);
  }

  /** `there` and `back` say where the entries of each list are in the other. */
  lemma SameMembers<T>(a: seq<T>, b: seq<T>, there: seq<nat>, back: seq<nat>, t: T)
    requires |there| == |a| && forall k :: 0 <= k < |a| ==> there[k] < |b| && b[there[k]] == a[k]
    requires |back| == |b| && forall k :: 0 <= k < |b| ==> back[k] < |a| && a[back[k]] == b[k]
    ensures t in b <==> t in a
  {
  }

  /** The phase of an entry. */
  function PhaseOf(e: Entry): (p: nat)
    ensures p < NUM_PHASES
    ensures if p == DEPENDENT then e.objectType !in OwnTypes() else OwnType(p) == e.objectType
  {
    if e.objectType !in OwnTypes() then DEPENDENT
    else
      var i := Place(OwnTypes(), e.objectType);
      if i < DEPENDENT then i else i + 1
  }

  function Place(s: seq<string>, x: string): (k: nat)
    requires x in s
    ensures k < |s| && s[k] == x
  {
    if s[0] == x then 0 else 1 + Place(s[1..], x)
  }

  /** Every predata entry is selected by exactly one phase. */
  lemma ExactlyOnePhase(e: Entry, p: nat)
    requires p < NUM_PHASES
    ensures SelectedIn(p, e) <==> p == PhaseOf(e)
  {
    SelectedInIff(p, e);
    LeftOutAreOwned(e.objectType);
    OwnTypeIff(e, p, PhaseOf(e));
  }

  lemma OwnTypeIff(e: Entry, p: nat, q: nat)
    requires p < NUM_PHASES && q < NUM_PHASES
    requires if q == DEPENDENT then e.objectType !in OwnTypes() else OwnType(q) == e.objectType
    ensures (if p == DEPENDENT then e.objectType !in OwnTypes() else e.objectType == OwnType(p)) <==> p == q
  {
    TypesDiffer();
  }

  function InPhase(es: seq<Entry>, p: nat): seq<Entry>
    requires p < NUM_PHASES
  {
    Selected(es, NoFilters(), PhaseAt(p).included, PhaseAt(p).excluded)
  }

  /** Over all phases every entry is restored as often as it was recorded: in its phase, and in no other. */
  lemma PhasesPartition(es: seq<Entry>, p: nat, e: Entry)
    requires p < NUM_PHASES
    ensures multiset(InPhase(es, p))[e] == if p == PhaseOf(e) then multiset(es)[e] else 0
  {
    SelectedTimes(es, NoFilters(), PhaseAt(p).included, PhaseAt(p).excluded, e);
    ExactlyOnePhase(e, p);
  }

  // ------------------------------------------------------------ the order of the phases

  lemma PhaseIs(e: Entry, p: nat)
    requires p < NUM_PHASES && p != DEPENDENT && e.objectType == OwnType(p)
    ensures PhaseOf(e) == p
  {
    OwnTypeIff(e, p, PhaseOf(e));
  }

  /** The phases before the dependent objects, by name. */
  lemma EarlyPhases(e: Entry)
    ensures e.objectType == "SCHEMA" ==> PhaseOf(e) == 0
    ensures e.objectType == "EXTENSION" ==> PhaseOf(e) == 1
    ensures e.objectType == "COLLATION" ==> PhaseOf(e) == 2
    ensures e.objectType == "TYPE" ==> PhaseOf(e) == 3
    ensures e.objectType == "OPERATOR FAMILY" ==> PhaseOf(e) == 4
    ensures e.objectType == "SEQUENCE" ==> PhaseOf(e) == 5
  {
    if e.objectType == "SCHEMA" {
      PhaseIs(e, 0);
    }
    if e.objectType == "EXTENSION" {
      PhaseIs(e, 1);
    }
    if e.objectType == "COLLATION" {
      PhaseIs(e, 2);
    }
    if e.objectType == "TYPE" {
      PhaseIs(e, 3);
    }
    if e.objectType == "OPERATOR FAMILY" {
      PhaseIs(e, 4);
    }
    if e.objectType == "SEQUENCE" {
      PhaseIs(e, 5);
    }
  }

  /** The phases after them. */
  lemma LatePhases(e: Entry)
    ensures e.objectType == "LANGUAGE" ==> PhaseOf(e) == 7
    ensures e.objectType == "EXCHANGE PARTITION" ==> PhaseOf(e) == 8
    ensures e.objectType == "SEQUENCE OWNER" ==> PhaseOf(e) == 9
    ensures e.objectType == "CONVERSION" ==> PhaseOf(e) == 10
    ensures e.objectType == "CONSTRAINT" ==> PhaseOf(e) == 11
  {
    if e.objectType == "LANGUAGE" {
      PhaseIs(e, 7);
    }
    if e.objectType == "EXCHANGE PARTITION" {
      PhaseIs(e, 8);
    }
    if e.objectType == "SEQUENCE OWNER" {
      PhaseIs(e, 9);
    }
    if e.objectType == "CONVERSION" {
      PhaseIs(e, 10);
    }
    if e.objectType == "CONSTRAINT" {
      PhaseIs(e, 11);
    }
  }

  /** Tables, for one, are dependent objects. */
  lemma TablesAreDependent(e: Entry)
    requires e.objectType in ["TABLE", "VIEW", "FUNCTION", "DOMAIN", "AGGREGATE"]
    ensures PhaseOf(e) == 6
  {
    NotOwned(e.objectType);
  }

  lemma NotOwned(t: string)
    requires t in ["TABLE", "VIEW", "FUNCTION", "DOMAIN", "AGGREGATE"]
    ensures t !in OwnTypes()
  {
    var all := OwnTypes();
    var sizes := [6, 9, 9, 4, 15, 8, 8, 18, 14, 10, 10];
    assert forall k :: 0 <= k < 11 ==> |all[k]| == sizes[k];
    assert all[0][0] == 'S' && all[1][0] == 'E' && all[2][0] == 'C' && all[3][0] == 'T';
    assert all[5][0] == 'S' && all[6][0] == 'L';
  }

  /** What restorePredata executes: the phases one after another. */
  function Restored(es: seq<Entry>): seq<Entry> {
    Flat(AllPhases(es))
  }

  function AllPhases(es: seq<Entry>): seq<seq<Entry>> {
    seq(NUM_PHASES, p requires 0 <= p < NUM_PHASES => InPhase(es, p))
  }

  /** If `e` is in part `q` only, it is in the whole as often as there. */
  lemma {:induction false} FlatCounts<T>(parts: seq<seq<T>>, e: T, q: nat, all: nat)
    requires forall p :: 0 <= p < |parts| ==> multiset(parts[p])[e] == if p == q then all else 0
    ensures multiset(Flat(parts))[e] == if q < |parts| then all else 0
  {
    if parts != [] {
      FlatCounts(parts[..|parts| - 1], e, q, all);
    }
  }

  /** If part `p` holds what has rank `p`, ranks do not fall. */
  lemma {:induction false} FlatOrdered<T>(parts: seq<seq<T>>, rank: T -> nat, i: nat, j: nat)
    requires forall p, k :: 0 <= p < |parts| && 0 <= k < |parts[p]| ==> rank(parts[p][k]) == p
    requires i <= j < |Flat(parts)|
    ensures rank(Flat(parts)[i]) <= rank(Flat(parts)[j]) < |parts|
  {
    var n := |parts| - 1;
    var front, last := Flat(parts[..n]), parts[n];
    assert forall p :: 0 <= p < n ==> parts[..n][p] == parts[p];
    if j < |front| {
      FlatOrdered(parts[..n], rank, i, j);
    } else {
      assert rank(last[j - |front|]) == n;
      if i < |front| {
        FlatOrdered(parts[..n], rank, i, i);
      } else {
        assert rank(last[i - |front|]) == n;
      }
    }
  }

  lemma InItsPhase(es: seq<Entry>, p: nat, k: nat)
    requires p < NUM_PHASES && k < |InPhase(es, p)|
    ensures PhaseOf(InPhase(es, p)[k]) == p
  {
    var e := InPhase(es, p)[k];
    assert multiset(InPhase(es, p))[e] > 0;
    PhasesPartition(es, p, e);
  }

  /** The whole restore executes every predata entry as often as it was recorded ... */
  lemma RestoredIsAll(es: seq<Entry>, e: Entry)
    ensures multiset(Restored(es))[e] == multiset(es)[e]
  {
    forall p | 0 <= p < NUM_PHASES
      ensures multiset(AllPhases(es)[p])[e] == if p == PhaseOf(e) then multiset(es)[e] else 0
    {
      PhasesPartition(es, p, e);
    }
    FlatCounts(AllPhases(es), e, PhaseOf(e), multiset(es)[e]);
  }

  /** ... phase by phase. */
  lemma RestoredInOrder(es: seq<Entry>, i: nat, j: nat)
    requires i <= j < |Restored(es)|
    ensures PhaseOf(Restored(es)[i]) <= PhaseOf(Restored(es)[j])
  {
    var rank := (e: Entry) => PhaseOf(e);
    forall p, k | 0 <= p < NUM_PHASES && 0 <= k < |AllPhases(es)[p]| ensures rank(AllPhases(es)[p][k]) == p {
      InItsPhase(es, p, k);
    }
    FlatOrdered(AllPhases(es), rank, i, j);
  }

  // ------------------------------------------------------------ the dependent objects

  /** Entries of the dependent objects' phase after `h`. */
  function Dependent(h: seq<Op>): seq<Entry> {
    InPhase(Entries(h, Predata), DEPENDENT)
  }

  lemma DependentConcat(a: seq<Op>, b: seq<Op>)
    ensures Dependent(a + b) == Dependent(a) + Dependent(b)
  {
    EntriesConcat(a, b, Predata);
    var phase := PhaseAt(DEPENDENT);
    SelectedConcat(Entries(a, Predata), Entries(b, Predata), NoFilters(), phase.included, phase.excluded);
  }

  /** Number of statements of the phase that come before those of object `a`. */
  function Offset(before: seq<Op>, groups: seq<seq<Op>>, a: nat): nat
    requires a <= |groups|
  {
    |Dependent(before + Flat(groups[..a]))|
  }

  /** Statement `i` of the phase was printed for object `a`. */
  predicate BelongsTo(before: seq<Op>, groups: seq<seq<Op>>, a: nat, i: nat)
    requires a < |groups|
  {
    Offset(before, groups, a) <= i < Offset(before, groups, a + 1)
  }

  lemma OneMoreObject(before: seq<Op>, groups: seq<seq<Op>>, a: nat)
    requires a < |groups|
    ensures before + Flat(groups[..a + 1]) == (before + Flat(groups[..a])) + groups[a]
  {
    assert groups[..a + 1][..a] == groups[..a];
  }

  lemma {:induction false} OffsetsGrow(before: seq<Op>, groups: seq<seq<Op>>, a: nat, b: nat)
    requires a <= b <= |groups|
    ensures Offset(before, groups, a) <= Offset(before, groups, b)
  {
    if a < b {
      OffsetsGrow(before, groups, a, b - 1);
      OneMoreObject(before, groups, b - 1);
      DependentConcat(before + Flat(groups[..b - 1]), groups[b - 1]);
    }
  }

  /** What is printed after object `a`. */
  lemma {:induction false} Afterwards(before: seq<Op>, groups: seq<seq<Op>>, after: seq<Op>, a: nat)
    returns (z: seq<Op>)
    requires a < |groups|
    ensures before + Flat(groups) + after == before + Flat(groups[..a + 1]) + z
  {
    var n := |groups| - 1;
    if a == n {
      z := after;
      assert groups[..a + 1] == groups;
    } else {
      z := Afterwards(before, groups[..n], groups[n] + after, a);
      assert groups[..n][..a + 1] == groups[..a + 1];
      Regroup(before, Flat(groups[..n]), groups[n], after);
    }
  }

  lemma Regroup<T>(a: seq<T>, b: seq<T>, c: seq<T>, d: seq<T>)
    ensures a + (b + c) + d == a + b + (c + d)
  {
  }

  lemma DependentBetween(x: seq<Op>, y: seq<Op>, z: seq<Op>, h: seq<Op>)
    requires h == (x + y) + z
    ensures |Dependent(x)| <= |Dependent(x + y)| <= |Dependent(h)|
    ensures Dependent(h)[|Dependent(x)|..|Dependent(x + y)|] == Dependent(y)
  {
    DependentConcat(x, y);
    DependentConcat(x + y, z);
    RangeOfConcat(Dependent(x), Dependent(y), Dependent(z), Dependent(x + y), Dependent(h));
  }

  /** The statements between two offsets are those printed for the object. */
  lemma StatementsOfObject(before: seq<Op>, groups: seq<seq<Op>>, after: seq<Op>, h: seq<Op>, a: nat)
    requires a < |groups| && h == before + Flat(groups) + after
    ensures Offset(before, groups, a) <= Offset(before, groups, a + 1) <= |Dependent(h)|
    ensures Dependent(h)[Offset(before, groups, a)..Offset(before, groups, a + 1)] == Dependent(groups[a])
  {
    var z := Afterwards(before, groups, after, a);
    OneMoreObject(before, groups, a);
    DependentBetween(before + Flat(groups[..a]), groups[a], z, h);
  }

  /** The ids the scheduler sees. */
  function IdsOf(stmts: seq<Statement>): seq<UniqueID> {
    seq(|stmts|, k requires 0 <= k < |stmts| => UniqueID(stmts[k].classId, stmts[k].oid))
  }

  /** Statements of the dependent objects as the phase hands them to the scheduler. */
  function Handed(h: seq<Op>): seq<Statement>
    requires InFile(Printed(h), Dependent(h))
  {
    StatementsOf(Printed(h), Dependent(h))
  }

  /** Statements read back carry zero ids, so the scheduler treats them as one object. */
  lemma ReadBackIdsAgree(h: seq<Op>, p: S.Plan)
    requires InFile(Printed(h), Dependent(h)) && p.ids == IdsOf(Handed(h))
    ensures S.SameIds(p)
  {
  }

  lemma EarlierInOrder(objs: seq<Sortable>, deps: DependencyMap, a: nat, b: nat)
    requires DependenciesFirst(deps, objs) && Distinct(objs)
    requires a < |objs| && b < |objs| && objs[a].id in DepsOf(deps, objs[b].id)
    ensures a < b
  {
    assert objs[a].id in Ids(objs[..b]);
  }

  /**
   From sorting to execution: with objects printed dependencies first, in every run of the
   scheduler on any number of connections, a statement of an object starts only after every
   statement of this phase that was printed for one of its dependencies was executed.
   */
  lemma CreatedAfterDependencies(
    objs: seq<Sortable>, deps: DependencyMap, before: seq<Op>, groups: seq<seq<Op>>, after: seq<Op>, h: seq<Op>,
    p: S.Plan, acts: seq<S.Action>, a: nat, b: nat, i: nat, j: nat, q: nat)
    requires DependenciesFirst(deps, objs) && Distinct(objs) && |groups| == |objs|
    requires h == before + Flat(groups) + after && InFile(Printed(h), Dependent(h)) && p.ids == IdsOf(Handed(h))
    requires S.Exec(p, acts).Some?
    requires a < |objs| && b < |objs| && objs[a].id in DepsOf(deps, objs[b].id)
    requires BelongsTo(before, groups, a, i) && BelongsTo(before, groups, b, j)
    requires q < |S.Exec(p, acts).value.log| && S.Exec(p, acts).value.log[q] == S.Start(j)
    ensures S.Finish(i) in S.Exec(p, acts).value.log[..q]
  {
    EarlierInOrder(objs, deps, a, b);
    OffsetsGrow(before, groups, a + 1, b);
    ReadBackIdsAgree(h, p);
    S.SerialMeansOrdered(p, acts, q, i);
  }
}
