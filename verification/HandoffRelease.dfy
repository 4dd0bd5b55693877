/**
 Who hands a table over (meta/builtin/parallel_depend.go lookupSourceTables, RestoreCleanup): when
 the worker of a TABLE statement is done with it, every table the statement releases has left the
 map, so the cleanup only sends tables that no statement releases.
 */
module HandoffRelease {
  import opened Wrappers
  import opened Strings
  import opened FiniteSets
  import opened TableMap
  import opened TableHandoff

  /** A worker has still to look up `n` on behalf of statement `i`. */
  predicate StillToLookUp(w: Worker, i: nat, n: Name) {
    match w
    case Attempted(m) => m == i
    case Collecting(m, todo, _) => m == i && n in todo
    case _ => false
  }

  predicate SomebodyWill(s: State, i: nat, n: Name) {
    exists w :: 0 <= w < |s.workers| && StillToLookUp(s.workers[w], i, n)
  }

  /** Statement `i` creates a table and was attempted. */
  predicate WasAttempted(p: Plan, s: State, i: nat) {
    i in s.attempted && i < |p.statements| && p.statements[i].isTable
  }

  /** An attempted statement's table is out of the map, or somebody will look it up. */
  ghost predicate ReleasedInv(p: Plan, s: State) {
    forall i: nat, n: Name ::
      WasAttempted(p, s, i) && n in Targets(p, p.statements[i]) && Qualify(n.schema, n.name) in s.tabMap ==>
        SomebodyWill(s, i, n)
  }

  /** What an action does to a worker that has still to look up a table that stays in the map. */
  lemma LookUpStays(p: Plan, s: State, a: Action, s': State, w: nat, i: nat, n: Name)
    requires Next(p, s, a) == Some(s') && w < |s.workers| && StillToLookUp(s.workers[w], i, n)
    requires i < |p.statements| && p.statements[i].isTable && n in Targets(p, p.statements[i])
    requires Qualify(n.schema, n.name) in s'.tabMap
    ensures |s'.workers| == |s.workers| && StillToLookUp(s'.workers[w], i, n)
  {
    if a.Collect? && a.w == w {
      var todo := s.workers[w].todo;
      assert todo != [] && n in todo;
      assert Qualify(todo[0].schema, todo[0].name) !in s'.tabMap;
      assert n != todo[0] && todo == [todo[0]] + todo[1..];
    }
  }

  lemma ReleasedKept(p: Plan, s: State, a: Action, s': State)
    requires ReleasedInv(p, s) && Next(p, s, a) == Some(s')
    ensures ReleasedInv(p, s')
  {
    MapShrinks(p, s, a, s');
    forall i: nat, n: Name |
      WasAttempted(p, s', i) && n in Targets(p, p.statements[i]) && Qualify(n.schema, n.name) in s'.tabMap
      ensures SomebodyWill(s', i, n)
    {
      if i in s.attempted {
        var w :| 0 <= w < |s.workers| && StillToLookUp(s.workers[w], i, n);
        LookUpStays(p, s, a, s', w, i, n);
      } else {
        assert StillToLookUp(s'.workers[a.w], i, n);
      }
    }
  }

  lemma {:induction false} ExecReleased(p: Plan, acts: seq<Action>)
    requires Exec(p, acts).Some?
    ensures ReleasedInv(p, Exec(p, acts).value)
  {
    if acts != [] {
      ExecReleased(p, acts[..|acts| - 1]);
      ReleasedKept(p, Exec(p, acts[..|acts| - 1]).value, acts[|acts| - 1], Exec(p, acts).value);
    }
  }

  /** The worker of statement `i` has looked up everything. */
  predicate DoneWith(s: State, i: nat) {
    forall w :: 0 <= w < |s.workers| ==>
      match s.workers[w] case Attempted(m) => m != i case Collecting(m, _, _) => m != i case _ => true
  }

  /** In every run: once the worker of a TABLE statement is done, nothing the statement releases is left in the map. */
  lemma ReleasedTablesAreTaken(p: Plan, acts: seq<Action>, s: State, i: nat, n: Name)
    requires Exec(p, acts) == Some(s) && WasAttempted(p, s, i)
    requires DoneWith(s, i) && Releases(p, p.statements[i], n)
    ensures Qualify(n.schema, n.name) !in s.tabMap
  {
    ExecReleased(p, acts);
    TargetsAreReleased(p, p.statements[i], n);
    NobodyWill(s, i, n);
    assert WasAttempted(p, s, i);
  }

  lemma NobodyWill(s: State, i: nat, n: Name)
    requires DoneWith(s, i)
    ensures !SomebodyWill(s, i, n)
  {
  }

  // ------------------------------------------------------------ what is left to the cleanup

  ghost predicate AllAccounted(p: Plan, s: State) {
    forall i: nat :: i < |p.statements| ==> i in s.pending || i in s.attempted
  }

  lemma {:induction false} ExecAccounted(p: Plan, acts: seq<Action>)
    requires Exec(p, acts).Some?
    ensures AllAccounted(p, Exec(p, acts).value)
  {
    if acts != [] {
      ExecAccounted(p, acts[..|acts| - 1]);
      NextAccounted(p, Exec(p, acts[..|acts| - 1]).value, acts[|acts| - 1], Exec(p, acts).value);
    }
  }

  lemma NextAccounted(p: Plan, s: State, a: Action, s': State)
    requires AllAccounted(p, s) && Next(p, s, a) == Some(s')
    ensures AllAccounted(p, s')
  {
  }

  /** What the cleanup sends no TABLE statement releases. */
  lemma CleanupSendsTheRest(p: Plan, acts: seq<Action>, s: State, i: nat, n: Name)
    requires Exec(p, acts) == Some(s) && s.stage.CleaningUp?
    requires i < |p.statements| && p.statements[i].isTable && Releases(p, p.statements[i], n)
    ensures Qualify(n.schema, n.name) !in s.stage.todo
  {
    ExecAccounted(p, acts);
    ExecConserves(p, acts, "");
    ReleasedTablesAreTaken(p, acts, s, i, n);
  }
}
