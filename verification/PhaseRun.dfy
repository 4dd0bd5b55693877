/**
 The phase of the dependent objects from the table of contents to the copiers (meta/builtin/toc/toc.go,
 meta/builtin/parallel_depend.go): the statements that are scheduled, executed and handed over are
 those read back for its entries.
 */
module PhaseRun {
  import opened Wrappers
  import opened Strings
  import opened Toc
  import opened RestorePhases
  import T = TableHandoff
  import J = SerialHandover

  /** What the workers look at in a statement. */
  function Seen(st: Statement): T.Statement {
    T.Statement(st.schema, st.name, st.objectType == "TABLE")
  }

  function AllSeen(stmts: seq<Statement>): seq<T.Statement> {
    seq(|stmts|, k requires 0 <= k < |stmts| => Seen(stmts[k]))
  }

  /** The phase runs the statements read back after history `h`. */
  ghost predicate RunsPhaseOf(p: J.Phase, h: seq<Op>) {
    && InFile(Printed(h), Dependent(h))
    && p.plan.ids == IdsOf(Handed(h)) && p.tables.statements == AllSeen(Handed(h))
    && p.plan.numWorkers == p.tables.numWorkers
  }

  /** Statement `i` carries the names of entry `i`, and creates a table exactly if the entry says so. */
  lemma SeenIsEntry(h: seq<Op>, i: nat)
    requires InFile(Printed(h), Dependent(h)) && i < |Dependent(h)|
    ensures |AllSeen(Handed(h))| == |Dependent(h)|
    ensures
      var st, e := AllSeen(Handed(h))[i], Dependent(h)[i];
      st.schema == e.schema && st.name == e.name && (st.isTable <==> e.objectType == "TABLE")
  {
    assert ReadFrom(Handed(h)[i], Dependent(h)[i], Printed(h));
  }

  /**
   From entry to copier: in every run of the phase, when a worker sends a pair, it does so for a
   TABLE entry; with declarative partitions that entry has the name of the table sent, otherwise it
   has that name or is a root that the table is listed under; the statements of this and of all
   earlier entries were executed, and none of a later entry has started.
   */
  lemma SentForItsEntry(p: J.Phase, h: seq<Op>, steps: seq<J.Step>, j: J.Joint, k: nat)
    requires RunsPhaseOf(p, h) && J.JointExec(p, steps) == Some(j)
    requires k < |j.t.workers| && j.t.workers[k].Sending? && j.t.workers[k].found != []
    ensures
      var x := j.t.workers[k].found[0];
      && x.cause.Some? && x.cause.value < |Dependent(h)| && Dependent(h)[x.cause.value].objectType == "TABLE"
      && EntryReleases(p.tables, Dependent(h)[x.cause.value], x.pair.dest.schema, x.pair.dest.name)
      && J.JustExecuted(j.s.log, x.cause.value)
  {
    ReadBackIdsAgree(h, p.plan);
    J.SentWhileQuiet(p, steps, j, k);
    var acts, bs := J.Projects(p, steps, j);
    T.ExecContent(p.tables, bs);
    var x := j.t.workers[k].found[0];
    assert T.WorkerOk(p.tables, j.t.attempted, j.t.workers[k]);
    assert T.Faithful(p.tables, j.t.attempted, T.FoundBy(j.t.workers[k])[0]);
    SeenIsEntry(h, x.cause.value);
    T.TargetsAreReleased(
      p.tables, p.tables.statements[x.cause.value], T.Name(x.pair.dest.schema, x.pair.dest.name));
  }

  /** The statement of entry `e` releases the table `schema`.`name`. */
  ghost predicate EntryReleases(p: T.Plan, e: Entry, schema: string, name: string) {
    if !p.declarativePartitions && e.schema + "." + e.name in p.partNameMap then
      exists k :: 0 <= k < |p.partNameMap[e.schema + "." + e.name]| &&
        T.IsLeaf(p.partNameMap[e.schema + "." + e.name][k], T.Name(schema, name))
    else schema == e.schema && name == e.name
  }
}
