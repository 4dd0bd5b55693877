/**
 Scheduling and hand-off together (meta/builtin/parallel_depend.go
 executeStatementsForDependentObject): a worker hands its tables over after executing a statement
 and before it removes the statement from the running tasks. With one id for all statements, as
 they come from the table of contents, the whole phase stands still while tables are handed over.
 */
module SerialHandover {
  import opened Wrappers
  import opened Scheduler
  import H = TableHandoff
  import P = HandoffProgress

  // ------------------------------------------------------------ one statement at a time

  /** Nothing waits in the channel and no worker holds a statement. */
  ghost predicate Quiet(s: State) {
    s.channel == [] && forall k :: 0 <= k < |s.workers| ==> s.workers[k].Idle?
  }

  /** At most one statement is between its registration and its removal. */
  ghost predicate OneAtATime(s: State) {
    && (if s.stage.Polling? then forall j :: j in s.running ==> j + 1 == s.next
        else Quiet(s) && s.running == if s.stage.Registered? then {s.next} else {})
    && |s.channel| <= 1 && (s.channel != [] ==> s.channel[0] in s.running)
    && (forall k :: 0 <= k < |s.workers| && !s.workers[k].Idle? ==> s.workers[k].i in s.running && s.channel == [])
    && (forall k, l :: 0 <= k < l < |s.workers| && !s.workers[k].Idle? ==> s.workers[l].Idle?)
  }

  /** With one id nothing is cleared while anything is running. */
  lemma ClearedWhenEmpty(p: Plan, s: State)
    requires SameIds(p) && OneAtATime(s) && s.stage.Polling? && s.next < |p.ids| && ShouldSchedule(p, s.next, s.running)
    ensures s.running == {} && Quiet(s)
  {
    assert forall j :: j in s.running ==> j < |p.ids| && Conflicts(p, s.next, j);
  }

  lemma OneAtATimeKept(p: Plan, s: State, a: Action)
    requires SameIds(p) && OneAtATime(s) && Next(p, s, a).Some?
    ensures OneAtATime(Next(p, s, a).value)
  {
    match a
    case Check =>
      if ShouldSchedule(p, s.next, s.running) {
        ClearedWhenEmpty(p, s);
      }
    case Remove(k) =>
      RemovedIsQuiet(s, k);
    case _ =>
  }

  lemma RemovedIsQuiet(s: State, k: nat)
    requires OneAtATime(s) && k < |s.workers| && s.workers[k].Executed?
    ensures s.stage.Polling? && s.running == {s.workers[k].i} && s.channel == []
    ensures forall l :: 0 <= l < |s.workers| && l != k ==> s.workers[l].Idle?
  {
    var i := s.workers[k].i;
    assert i in s.running;
    assert forall j :: j in s.running ==> j == i;
  }

  lemma {:induction false} ExecOneAtATime(p: Plan, acts: seq<Action>)
    requires SameIds(p) && Exec(p, acts).Some?
    ensures OneAtATime(Exec(p, acts).value)
  {
    if acts != [] {
      ExecOneAtATime(p, acts[..|acts| - 1]);
      OneAtATimeKept(p, Exec(p, acts[..|acts| - 1]).value, acts[|acts| - 1]);
    }
  }

  /** While a worker is between executing `i` and removing it, statements 0 to `i` are all that ever started. */
  lemma ExecutedIsLast(p: Plan, acts: seq<Action>, s: State, k: nat)
    requires SameIds(p) && Exec(p, acts) == Some(s) && k < |s.workers| && s.workers[k].Executed?
    ensures s.log == SerialLog(2 * s.workers[k].i + 2)
  {
    ExecOneAtATime(p, acts);
    ExecInv(p, acts);
    ExecFifo(p, acts);
    SameIdsRunSerially(p, acts);
    RemovedIsQuiet(s, k);
    var i, n := s.workers[k].i, |s.log|;
    assert StartsOf(s.log) + s.channel == StartsOf(s.log);
    SerialFinishes(n, i);
    SerialStarts(n);
  }

  // ------------------------------------------------------------ both machines together

  /** The same statements and workers, as each machine sees them. */
  datatype Phase = Phase(plan: Plan, tables: H.Plan)

  predicate Agree(p: Phase) {
    |p.plan.ids| == |p.tables.statements| && p.plan.numWorkers == p.tables.numWorkers
  }

  datatype Joint = Joint(s: State, t: H.State)

  datatype Step =
    | Schedule(a: Action)          // a step of the scheduling loop, or a worker taking a statement
    | Execute(k: nat)              // worker k has executed its statement
    | Handover(b: H.Action)        // a worker looks up, collects or sends tables
    | Release(k: nat)              // removeRunningTask, when the tables have been handed over
    | Other(b: H.Action)           // a copier receives; cleanup after the phase

  function JointNext(p: Phase, j: Joint, x: Step): Option<Joint> {
    match x
    case Schedule(a) =>
      if a.Complete? || a.Remove? then None else OfScheduler(j, Next(p.plan, j.s, a))
    case Execute(k) =>
      if k < |j.s.workers| && j.s.workers[k].Executing? then
        var s, t := Next(p.plan, j.s, Complete(k)), H.Next(p.tables, j.t, H.Attempt(k, j.s.workers[k].i));
        if s.Some? && t.Some? then Some(Joint(s.value, t.value)) else None
      else None
    case Handover(b) =>
      if (b.Look? || b.Collect? || b.Send? || b.Rest?) && b.w < |j.s.workers| && j.s.workers[b.w].Executed? then
        OfTables(j, H.Next(p.tables, j.t, b))
      else None
    case Release(k) =>
      if k < |j.t.workers| && j.t.workers[k].Idle? then OfScheduler(j, Next(p.plan, j.s, Remove(k))) else None
    case Other(b) =>
      if b.Receive? || ((b.StartCleanup? || b.CleanupSend? || b.CloseChannel?) && AllDone(p.plan, j.s)) then
        OfTables(j, H.Next(p.tables, j.t, b))
      else None
  }

  function OfScheduler(j: Joint, s: Option<State>): Option<Joint> {
    if s.None? then None else Some(j.(s := s.value))
  }

  function OfTables(j: Joint, t: Option<H.State>): Option<Joint> {
    if t.None? then None else Some(j.(t := t.value))
  }

  function JointExec(p: Phase, steps: seq<Step>): Option<Joint> {
    if steps == [] then Some(Joint(Init(p.plan), H.Init(p.tables)))
    else
      var j := JointExec(p, steps[..|steps| - 1]);
      if j.None? then None else JointNext(p, j.value, steps[|steps| - 1])
  }

  // ------------------------------------------------------------ each side is a run of its machine

  lemma SchedulerStep(p: Plan, acts: seq<Action>, s: State, a: Action, s': State) returns (acts': seq<Action>)
    requires Exec(p, acts) == Some(s) && Next(p, s, a) == Some(s')
    ensures Exec(p, acts') == Some(s')
  {
    acts' := acts + [a];
    assert acts'[..|acts|] == acts;
  }

  lemma TablesStep(p: H.Plan, acts: seq<H.Action>, t: H.State, b: H.Action, t': H.State) returns (acts': seq<H.Action>)
    requires H.Exec(p, acts) == Some(t) && H.Next(p, t, b) == Some(t')
    ensures H.Exec(p, acts') == Some(t')
  {
    acts' := acts + [b];
    assert acts'[..|acts|] == acts;
  }

  /** One joint step is a step of one machine, or of both. */
  lemma StepProjects(p: Phase, i: Joint, x: Step, j: Joint, acts: seq<Action>, bs: seq<H.Action>)
    returns (acts': seq<Action>, bs': seq<H.Action>)
    requires JointNext(p, i, x) == Some(j) && Exec(p.plan, acts) == Some(i.s) && H.Exec(p.tables, bs) == Some(i.t)
    ensures Exec(p.plan, acts') == Some(j.s) && H.Exec(p.tables, bs') == Some(j.t)
  {
    acts', bs' := acts, bs;
    match x
    case Schedule(a) =>
      acts' := SchedulerStep(p.plan, acts, i.s, a, j.s);
    case Execute(k) =>
      acts' := SchedulerStep(p.plan, acts, i.s, Complete(k), j.s);
      bs' := TablesStep(p.tables, bs, i.t, H.Attempt(k, i.s.workers[k].i), j.t);
    case Release(k) =>
      acts' := SchedulerStep(p.plan, acts, i.s, Remove(k), j.s);
    case Handover(b) =>
      bs' := TablesStep(p.tables, bs, i.t, b, j.t);
    case Other(b) =>
      bs' := TablesStep(p.tables, bs, i.t, b, j.t);
  }

  /** So everything proved of the two machines holds in the joint one. */
  lemma {:induction false} Projects(p: Phase, steps: seq<Step>, j: Joint) returns (acts: seq<Action>, bs: seq<H.Action>)
    requires JointExec(p, steps) == Some(j)
    ensures Exec(p.plan, acts) == Some(j.s) && H.Exec(p.tables, bs) == Some(j.t)
  {
    acts, bs := [], [];
    if steps != [] {
      var n := |steps| - 1;
      var i := JointExec(p, steps[..n]).value;
      acts, bs := Projects(p, steps[..n], i);
      acts, bs := StepProjects(p, i, steps[n], j, acts, bs);
    }
  }

  // ------------------------------------------------------------ who hands over what

  /** Everything worker `w` holds it holds because of statement `i`. */
  ghost predicate OnBehalfOf(w: H.Worker, i: nat) {
    && (forall n :: 0 <= n < |H.FoundBy(w)| ==> H.FoundBy(w)[n].cause == Some(i))
    && match w
       case Attempted(m) => m == i
       case Collecting(m, _, _) => m == i
       case _ => true
  }

  /** A worker at the hand-off has executed the statement it hands over for. */
  ghost predicate Synced(j: Joint) {
    && |j.t.workers| == |j.s.workers|
    && forall k :: 0 <= k < |j.t.workers| && !j.t.workers[k].Idle? ==>
         j.s.workers[k].Executed? && OnBehalfOf(j.t.workers[k], j.s.workers[k].i)
  }

  lemma CollectorStays(t: H.State, w: nat, t': H.State, i: nat)
    requires w < |t.workers| && t.workers[w].Collecting? && H.CollectNext(t, w) == Some(t')
    requires OnBehalfOf(t.workers[w], i)
    ensures |t'.workers| == |t.workers| && OnBehalfOf(t'.workers[w], i)
  {
    var old', new' := H.FoundBy(t.workers[w]), H.FoundBy(t'.workers[w]);
    assert new' == old' || (|new'| == |old'| + 1 && new'[..|old'|] == old');
    forall n | 0 <= n < |new'| ensures new'[n].cause == Some(i) {
      if n < |old'| {
        assert new'[n] == new'[..|old'|][n] == old'[n];
      }
    }
  }

  lemma WorkerStays(p: H.Plan, t: H.State, b: H.Action, t': H.State, i: nat)
    requires (b.Look? || b.Collect? || b.Send? || b.Rest?) && H.Next(p, t, b) == Some(t') && b.w < |t.workers|
    requires OnBehalfOf(t.workers[b.w], i)
    ensures |t'.workers| == |t.workers| && OnBehalfOf(t'.workers[b.w], i)
    ensures forall k :: 0 <= k < |t.workers| && k != b.w ==> t'.workers[k] == t.workers[k]
  {
    if b.Collect? {
      CollectorStays(t, b.w, t', i);
    } else if b.Send? {
      var f := H.FoundBy(t.workers[b.w]);
      assert forall n :: 0 <= n < |f[1..]| ==> f[1..][n] == f[n + 1];
    }
  }

  lemma SyncedKept(p: Phase, j: Joint, x: Step)
    requires Synced(j) && JointNext(p, j, x).Some?
    ensures Synced(JointNext(p, j, x).value)
  {
    if x.Handover? {
      WorkerStays(p.tables, j.t, x.b, JointNext(p, j, x).value.t, j.s.workers[x.b.w].i);
    }
  }

  lemma {:induction false} ExecSynced(p: Phase, steps: seq<Step>)
    requires Agree(p) && JointExec(p, steps).Some?
    ensures Synced(JointExec(p, steps).value)
  {
    if steps != [] {
      ExecSynced(p, steps[..|steps| - 1]);
      SyncedKept(p, JointExec(p, steps[..|steps| - 1]).value, steps[|steps| - 1]);
    }
  }

  /** All statements up to `i` were executed, and none after it has started. */
  ghost predicate JustExecuted(log: seq<Event>, i: nat) {
    && (forall m: nat :: m <= i ==> Finish(m) in log)
    && (forall m: nat :: m > i ==> Start(m) !in log)
  }

  lemma SerialLogIsJustExecuted(i: nat)
    ensures JustExecuted(SerialLog(2 * i + 2), i)
  {
    var log := SerialLog(2 * i + 2);
    forall m: nat | m <= i ensures Finish(m) in log {
      assert SerialEvent(2 * m + 1) == Finish(m);
      assert log[2 * m + 1] == Finish(m);
    }
    forall m: nat | m > i ensures Start(m) !in log {
      assert forall q :: 0 <= q < |log| ==> log[q] == SerialEvent(q) && SerialEvent(q).i <= i;
    }
  }

  /**
   In the phase of the dependent objects, on any number of connections: when a worker sends a pair,
   the statement that releases it and all statements before it were executed, and no statement after
   it has started.
   */
  lemma SentWhileQuiet(p: Phase, steps: seq<Step>, j: Joint, k: nat)
    requires Agree(p) && SameIds(p.plan) && JointExec(p, steps) == Some(j)
    requires k < |j.t.workers| && j.t.workers[k].Sending? && j.t.workers[k].found != []
    ensures
      var cause := j.t.workers[k].found[0].cause;
      cause.Some? && JustExecuted(j.s.log, cause.value)
  {
    ExecSynced(p, steps);
    var acts, bs := Projects(p, steps, j);
    var i := j.s.workers[k].i;
    assert H.FoundBy(j.t.workers[k])[0].cause == Some(i);
    ExecutedIsLast(p.plan, acts, j.s, k);
    SerialLogIsJustExecuted(i);
  }

  // ------------------------------------------------------------ the hand-off holds nothing up

  /** What was not executed is still to be attempted. */
  ghost predicate PendingInv(p: Phase, j: Joint) {
    forall i: nat :: i < |p.plan.ids| && Finish(i) !in j.s.log ==> i in j.t.pending
  }

  lemma PendingKept(p: Phase, j: Joint, x: Step)
    requires PendingInv(p, j) && JointNext(p, j, x).Some?
    ensures PendingInv(p, JointNext(p, j, x).value)
  {
    var j' := JointNext(p, j, x).value;
    assert forall e :: e in j.s.log ==> e in j'.s.log;
  }

  lemma {:induction false} ExecPending(p: Phase, steps: seq<Step>)
    requires Agree(p) && JointExec(p, steps).Some?
    ensures PendingInv(p, JointExec(p, steps).value)
  {
    if steps != [] {
      ExecPending(p, steps[..|steps| - 1]);
      PendingKept(p, JointExec(p, steps[..|steps| - 1]).value, steps[|steps| - 1]);
    }
  }

  lemma ExecutingIsUnfinished(p: Plan, acts: seq<Action>, s: State, k: nat)
    requires SameIds(p) && Exec(p, acts) == Some(s) && k < |s.workers| && s.workers[k].Executing?
    ensures s.workers[k].i < |p.ids| && Finish(s.workers[k].i) !in s.log
  {
    SameIdsRunSerially(p, acts);
    StartsInListOrder(p, acts);
    SerialStarts(|s.log|);
    var i := s.workers[k].i;
    if Finish(i) in s.log {
      SerialFinishes(|s.log|, i);
    }
  }

  lemma ExecuteIsEnabled(p: Phase, j: Joint, k: nat)
    requires k < |j.s.workers| && j.s.workers[k].Executing? && j.s.workers[k].i in j.t.pending && Synced(j)
    ensures JointNext(p, j, Execute(k)).Some?
  {
    assert j.t.workers[k].Idle?;
  }

  /** A worker that executes a statement can always come to the end of it and begin to hand over. */
  lemma ExecutionNeverHeldUp(p: Phase, steps: seq<Step>, j: Joint, k: nat)
    requires Agree(p) && SameIds(p.plan) && JointExec(p, steps) == Some(j)
    requires k < |j.s.workers| && j.s.workers[k].Executing?
    ensures JointNext(p, j, Execute(k)).Some?
  {
    ExecSynced(p, steps);
    ExecPending(p, steps);
    var acts, bs := Projects(p, steps, j);
    ExecutingIsUnfinished(p.plan, acts, j.s, k);
    ExecuteIsEnabled(p, j, k);
  }

  // ------------------------------------------------------------ the phase comes to its end

  /** What is still to be attempted was not executed. */
  ghost predicate UnexecutedInv(j: Joint) {
    forall i: nat :: i in j.t.pending ==> Finish(i) !in j.s.log
  }

  lemma UnexecutedKept(p: Phase, j: Joint, x: Step)
    requires UnexecutedInv(j) && JointNext(p, j, x).Some?
    ensures UnexecutedInv(JointNext(p, j, x).value)
  {
  }

  lemma {:induction false} ExecUnexecuted(p: Phase, steps: seq<Step>)
    requires JointExec(p, steps).Some?
    ensures UnexecutedInv(JointExec(p, steps).value)
  {
    if steps != [] {
      ExecUnexecuted(p, steps[..|steps| - 1]);
      UnexecutedKept(p, JointExec(p, steps[..|steps| - 1]).value, steps[|steps| - 1]);
    }
  }

  predicate IsReceive(x: Step) {
    x.Other? && x.b.Receive?
  }

  /** More than the number of steps, besides receives and refused checks, that are still possible. */
  function JointWork(p: Phase, j: Joint): int {
    WorkLeft(p.plan, j.s) + P.Work(p.tables, j.t)
  }

  lemma WorkerMoves(p: Plan, s: State, a: Action, s': State)
    requires Next(p, s, a) == Some(s') && (a.Complete? || a.Remove?)
    ensures s' != s && WorkLeft(p, s') < WorkLeft(p, s)
  {
    assert s'.workers[a.k] != s.workers[a.k];
    StepsAreBounded(p, s, a);
  }

  lemma ScheduleWorks(p: Phase, j: Joint, a: Action, j': Joint)
    requires JointNext(p, j, Schedule(a)) == Some(j')
    ensures j' != j ==> JointWork(p, j') < JointWork(p, j)
  {
    if j' != j {
      assert j'.s != j.s;
      StepsAreBounded(p.plan, j.s, a);
    }
  }

  lemma ExecuteWorks(p: Phase, j: Joint, k: nat, j': Joint)
    requires JointNext(p, j, Execute(k)) == Some(j') && P.Numbered(p.tables, j.t)
    ensures j' != j && JointWork(p, j') < JointWork(p, j)
  {
    WorkerMoves(p.plan, j.s, Complete(k), j'.s);
    P.ActionWorks(p.tables, j.t, H.Attempt(k, j.s.workers[k].i), j'.t);
  }

  /** Every step besides receives and refused checks leaves less to do. */
  lemma StepWorks(p: Phase, j: Joint, x: Step, j': Joint)
    requires JointNext(p, j, x) == Some(j') && P.Numbered(p.tables, j.t) && !IsReceive(x)
    ensures j' != j ==> JointWork(p, j') < JointWork(p, j)
    ensures !x.Schedule? ==> j' != j
  {
    match x
    case Schedule(a) => ScheduleWorks(p, j, a, j');
    case Execute(k) => ExecuteWorks(p, j, k, j');
    case Release(k) => WorkerMoves(p.plan, j.s, Remove(k), j'.s);
    case Handover(b) => P.ActionWorks(p.tables, j.t, b, j'.t);
    case Other(b) => P.ActionWorks(p.tables, j.t, b, j'.t);
  }

  /** Steps of a run that changed the state, besides receives. */
  function Moves(p: Phase, steps: seq<Step>): nat
    requires JointExec(p, steps).Some?
  {
    if steps == [] then 0
    else
      var n := |steps| - 1;
      Moves(p, steps[..n]) +
        if IsReceive(steps[n]) || JointExec(p, steps) == JointExec(p, steps[..n]) then 0 else 1
  }

  lemma {:induction false} MovesAreWorkDone(p: Phase, steps: seq<Step>)
    requires JointExec(p, steps).Some?
    ensures Moves(p, steps) + JointWork(p, JointExec(p, steps).value) <=
      6 * |p.plan.ids| + P.Work(p.tables, H.Init(p.tables))
  {
    if steps == [] {
      IdleWork(p.plan.numWorkers);
    } else {
      var n := |steps| - 1;
      MovesAreWorkDone(p, steps[..n]);
      StaysNumbered(p, steps[..n], JointExec(p, steps[..n]).value);
      MoveIsWork(p, JointExec(p, steps[..n]).value, steps[n], JointExec(p, steps).value);
    }
  }

  lemma StaysNumbered(p: Phase, steps: seq<Step>, j: Joint)
    requires JointExec(p, steps) == Some(j)
    ensures P.Numbered(p.tables, j.t)
  {
    var acts, bs := Projects(p, steps, j);
    P.ExecNumbered(p.tables, bs);
  }

  lemma MoveIsWork(p: Phase, i: Joint, x: Step, j: Joint)
    requires P.Numbered(p.tables, i.t) && JointNext(p, i, x) == Some(j)
    ensures JointWork(p, j) + (if IsReceive(x) || j == i then 0 else 1) <= JointWork(p, i)
  {
    if !IsReceive(x) {
      StepWorks(p, i, x, j);
    }
  }

  /** Every run of the phase and its cleanup ends: the number of moves is bounded beforehand. */
  lemma PhaseEnds(p: Phase, steps: seq<Step>)
    requires JointExec(p, steps).Some?
    ensures Moves(p, steps) <= 6 * |p.plan.ids| + 1 + P.Work(p.tables, H.Init(p.tables))
  {
    MovesAreWorkDone(p, steps);
    var j := JointExec(p, steps).value;
    var acts, bs := Projects(p, steps, j);
    ExecInv(p.plan, acts);
  }

  /** With no worker at the hand-off, a step that the scheduler can make the phase can make. */
  lemma SchedulerCanAct(p: Phase, steps: seq<Step>, j: Joint, a: Action) returns (x: Step)
    requires Agree(p) && SameIds(p.plan) && JointExec(p, steps) == Some(j)
    requires Next(p.plan, j.s, a).Some? && forall k :: 0 <= k < |j.t.workers| ==> j.t.workers[k].Idle?
    ensures JointNext(p, j, x).Some? && !IsReceive(x)
    ensures !a.Complete? ==> JointNext(p, j, x) == Some(j.(s := Next(p.plan, j.s, a).value))
    ensures a.Complete? ==> x.Execute?
  {
    if a.Complete? {
      x := Execute(a.k);
      ExecutionNeverHeldUp(p, steps, j, a.k);
    } else if a.Remove? {
      x := Release(a.k);
      ExecSynced(p, steps);
    } else {
      x := Schedule(a);
    }
  }

  lemma SchedulerMoves(p: Phase, steps: seq<Step>, j: Joint, acts: seq<Action>) returns (x: Step)
    requires Agree(p) && SameIds(p.plan) && JointExec(p, steps) == Some(j) && Exec(p.plan, acts) == Some(j.s)
    requires p.plan.numTasks > 0 && p.plan.numWorkers > 0 && !AllDone(p.plan, j.s)
    requires P.Numbered(p.tables, j.t) && forall k :: 0 <= k < |j.t.workers| ==> j.t.workers[k].Idle?
    ensures !IsReceive(x) && JointNext(p, j, x).Some? && JointNext(p, j, x).value != j
  {
    var a := NoDeadlock(p.plan, acts, j.s);
    x := SchedulerCanAct(p, steps, j, a);
    if a.Complete? {
      ExecuteWorks(p, j, x.k, JointNext(p, j, x).value);
    }
  }

  /** When the scheduler is done nothing is pending or at the hand-off. */
  lemma DoneMeansHandedOver(p: Phase, steps: seq<Step>, j: Joint)
    requires Agree(p) && JointExec(p, steps) == Some(j) && AllDone(p.plan, j.s)
    ensures j.t.pending == {} && forall k :: 0 <= k < |j.t.workers| ==> j.t.workers[k].Idle?
  {
    ExecSynced(p, steps);
    ExecUnexecuted(p, steps);
    var acts, bs := Projects(p, steps, j);
    P.ExecNumbered(p.tables, bs);
    if j.t.pending != {} {
      var i :| i in j.t.pending;
      DoneMeansExecuted(p.plan, acts, i);
    }
  }

  lemma DoneIsFinal(p: Plan, acts: seq<Action>, s: State, a: Action)
    requires Exec(p, acts) == Some(s) && AllDone(p, s)
    ensures Next(p, s, a).None?
  {
    ExecInv(p, acts);
  }

  lemma DoneStays(p: Phase, acts: seq<Action>, i: Joint, x: Step, j: Joint)
    requires JointNext(p, i, x) == Some(j) && Exec(p.plan, acts) == Some(i.s) && AllDone(p.plan, i.s)
    ensures AllDone(p.plan, j.s)
  {
    match x
    case Schedule(a) => DoneIsFinal(p.plan, acts, i.s, a);
    case Execute(k) => DoneIsFinal(p.plan, acts, i.s, Complete(k));
    case Release(k) => DoneIsFinal(p.plan, acts, i.s, Remove(k));
    case _ =>
  }

  lemma RestoringEnds(p: Phase, i: Joint, x: Step, j: Joint)
    requires JointNext(p, i, x) == Some(j) && i.t.stage.Restoring? && !j.t.stage.Restoring?
    ensures AllDone(p.plan, j.s)
  {
    if x.Handover? && x.b.Collect? {
      var got := H.CollectTakes(i.t, x.b.w, j.t);
    }
  }

  /** In every run the cleanup begins only after the whole phase has been executed. */
  lemma {:induction false} CleanupComesLast(p: Phase, steps: seq<Step>, j: Joint)
    requires JointExec(p, steps) == Some(j) && !j.t.stage.Restoring?
    ensures AllDone(p.plan, j.s)
  {
    if steps != [] {
      var n := |steps| - 1;
      var i := JointExec(p, steps[..n]).value;
      if i.t.stage.Restoring? {
        RestoringEnds(p, i, steps[n], j);
      } else {
        CleanupComesLast(p, steps[..n], i);
        var acts, bs := Projects(p, steps[..n], i);
        DoneStays(p, acts, i, steps[n], j);
      }
    }
  }

  lemma CleanupIsNext(p: Phase, j: Joint, b: H.Action)
    requires AllDone(p.plan, j.s) && H.Next(p.tables, j.t, b).Some? && j.t.pending == {}
    requires forall k :: 0 <= k < |j.t.workers| ==> j.t.workers[k].Idle?
    ensures JointNext(p, j, Other(b)).Some?
  {
  }

  /** When the scheduler is done and the tables of all statements were handed over, the cleanup can act. */
  lemma TablesCanAct(p: Phase, steps: seq<Step>, j: Joint) returns (x: Step)
    requires Agree(p) && JointExec(p, steps) == Some(j) && AllDone(p.plan, j.s) && !j.t.stage.Closed?
    requires P.Sound(p.tables) && p.tables.capacity >= |p.tables.tabMap| && p.tables.numWorkers > 0
    ensures x.Other? && !IsReceive(x) && JointNext(p, j, x).Some?
  {
    DoneMeansHandedOver(p, steps, j);
    var acts, bs := Projects(p, steps, j);
    var b := P.SomebodyCanAct(p.tables, bs, j.t);
    CleanupIsNext(p, j, b);
    x := Other(b);
  }

  /**
   In every reachable state of the phase and the cleanup after it somebody can make a move, or the
   channel is closed: the two machines do not wait for each other, nor for a copier.
   */
  lemma PhaseCanGoOn(p: Phase, steps: seq<Step>, j: Joint) returns (x: Step)
    requires Agree(p) && SameIds(p.plan) && JointExec(p, steps) == Some(j)
    requires P.Sound(p.tables) && p.tables.capacity >= |p.tables.tabMap|
    requires p.plan.numTasks > 0 && p.plan.numWorkers > 0 && !j.t.stage.Closed?
    ensures !IsReceive(x) && JointNext(p, j, x).Some? && JointNext(p, j, x).value != j
  {
    var acts, bs := Projects(p, steps, j);
    ExecSynced(p, steps);
    P.ExecNumbered(p.tables, bs);
    if k: nat :| k < |j.t.workers| && !j.t.workers[k].Idle? {
      var b := P.WorkerCanAct(p.tables, bs, j.t, k);
      x := Handover(b);
      StepWorks(p, j, x, JointNext(p, j, x).value);
    } else if AllDone(p.plan, j.s) {
      x := TablesCanAct(p, steps, j);
      StepWorks(p, j, x, JointNext(p, j, x).value);
    } else {
      x := SchedulerMoves(p, steps, j, acts);
    }
  }
}
