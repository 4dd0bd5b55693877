/**
 The parallel DDL scheduler (meta/builtin/parallel_depend.go): one loop decides, statement by
 statement, when the next may be handed out; workers take statements from a channel, execute
 them and remove them from the table of running tasks. One action is one locked or channel
 step of one goroutine; all interleavings are considered.
 */
module Scheduler {
  import opened Wrappers
  import opened FiniteSets
  import opened Sequences
  import opened DependencyGraph

  /** The ids of the statements in list order, the dependency map consulted, and the two limits. */
  datatype Plan = Plan(ids: seq<UniqueID>, deps: DependencyMap, numTasks: nat, numWorkers: nat)

  datatype Worker = Idle | Executing(i: nat) | Executed(i: nat)

  /** The scheduling loop at its current statement: polling, cleared to start, or registered. */
  datatype Stage = Polling | Cleared | Registered

  datatype Event = Start(i: nat) | Finish(i: nat)

  datatype State = State(
    next: nat, stage: Stage, running: set<nat>, channel: seq<nat>, closed: bool, workers: seq<Worker>, log: seq<Event>)

  datatype Action =
    | Check                  // shouldScheduleStatement on a snapshot of the running tasks
    | Register               // addRunningTask
    | Send                   // put the statement on the channel, go to the next
    | Close                  // close the channel after the last statement
    | Take(k: nat)           // worker k receives and starts executing
    | Complete(k: nat)       // the statement was executed
    | Remove(k: nat)         // removeRunningTask

  function Init(p: Plan): State {
    State(0, Polling, {}, [], false, seq(p.numWorkers, _ => Idle), [])
  }

  /** Statement `i` must wait for statement `j`: same object, or one it depends on. */
  predicate Conflicts(p: Plan, i: nat, j: nat)
    requires i < |p.ids| && j < |p.ids|
  {
    p.ids[j] == p.ids[i] || p.ids[j] in DepsOf(p.deps, p.ids[i])
  }

  predicate ShouldSchedule(p: Plan, i: nat, running: set<nat>)
    requires i < |p.ids|
  {
    && (forall j :: j in running && j < |p.ids| ==> !Conflicts(p, i, j))
    && |running| < p.numTasks
  }

  /** Performs one action; None when it is not enabled. */
  function Next(p: Plan, s: State, a: Action): Option<State> {
    match a
    case Check =>
      if s.stage.Polling? && s.next < |p.ids| then
        Some(if ShouldSchedule(p, s.next, s.running) then s.(stage := Cleared) else s)
      else None
    case Register =>
      if s.stage.Cleared? then Some(s.(stage := Registered, running := s.running + {s.next})) else None
    case Send =>
      if s.stage.Registered? && |s.channel| < |p.ids| then
        Some(s.(stage := Polling, next := s.next + 1, channel := s.channel + [s.next]))
      else None
    case Close =>
      if s.stage.Polling? && s.next == |p.ids| && !s.closed then Some(s.(closed := true)) else None
    case Take(k) =>
      if k < |s.workers| && s.workers[k].Idle? && |s.channel| > 0 then
        var i := s.channel[0];
        Some(s.(channel := s.channel[1..], workers := s.workers[k := Executing(i)], log := s.log + [Start(i)]))
      else None
    case Complete(k) =>
      if k < |s.workers| && s.workers[k].Executing? then
        var i := s.workers[k].i;
        Some(s.(workers := s.workers[k := Executed(i)], log := s.log + [Finish(i)]))
      else None
    case Remove(k) =>
      if k < |s.workers| && s.workers[k].Executed? then
        Some(s.(workers := s.workers[k := Idle], running := s.running - {s.workers[k].i}))
      else None
  }

  function Exec(p: Plan, acts: seq<Action>): Option<State> {
    if acts == [] then Some(Init(p))
    else
      var s := Exec(p, acts[..|acts| - 1]);
      if s.None? then None else Next(p, s.value, acts[|acts| - 1])
  }

  // ------------------------------------------------------------ invariants

  /** Statements registered so far. */
  function Bound(s: State): nat {
    if s.stage.Registered? then s.next + 1 else s.next
  }

  /** Everything `i` must wait for has been executed. */
  predicate Ready(p: Plan, s: State, i: nat)
    requires i < |p.ids|
  {
    forall j :: 0 <= j < i && Conflicts(p, i, j) ==> Finish(j) in s.log
  }

  /** `log` starts a statement only after finishing all earlier ones it must wait for. */
  predicate Ordered(p: Plan, log: seq<Event>) {
    forall q :: 0 <= q < |log| && log[q].Start? && log[q].i < |p.ids| ==> OrderedAt(p, log, q)
  }

  predicate OrderedAt(p: Plan, log: seq<Event>, q: nat)
    requires q < |log| && log[q].i < |p.ids|
  {
    forall j :: 0 <= j < log[q].i && Conflicts(p, log[q].i, j) ==> Finish(j) in log[..q]
  }

  /** Progress of the scheduling loop. */
  ghost predicate LoopInv(p: Plan, s: State) {
    && s.next <= |p.ids|
    && (!s.stage.Polling? ==> s.next < |p.ids| && Ready(p, s, s.next))
    && (forall k :: 0 <= k < |s.channel| ==> s.channel[k] < s.next && Ready(p, s, s.channel[k]))
    && (s.closed ==> s.next == |p.ids|)
  }

  /** A registered statement is in the running table until it has been executed. */
  ghost predicate RunningInv(s: State) {
    && (forall j: nat :: j < Bound(s) && j !in s.running ==> Finish(j) in s.log)
    && (forall k :: 0 <= k < |s.workers| && s.workers[k].Executed? ==> Finish(s.workers[k].i) in s.log)
  }

  ghost predicate LimitInv(p: Plan, s: State) {
    |s.running| <= p.numTasks && (s.stage.Cleared? ==> |s.running| < p.numTasks)
  }

  ghost predicate Inv(p: Plan, s: State) {
    LoopInv(p, s) && RunningInv(s) && LimitInv(p, s) && Ordered(p, s.log)
  }

  lemma LoopKept(p: Plan, s: State, a: Action)
    requires LoopInv(p, s) && RunningInv(s) && Next(p, s, a).Some?
    ensures LoopInv(p, Next(p, s, a).value)
  {
    var s' := Next(p, s, a).value;
    if a.Check? && s'.stage.Cleared? {
      forall j | 0 <= j < s.next && Conflicts(p, s.next, j) ensures Finish(j) in s'.log {
        assert j !in s.running;
      }
    }
    forall k | 0 <= k < |s'.channel| ensures s'.channel[k] < s'.next && Ready(p, s', s'.channel[k]) {
      if a.Take? {
        assert s'.channel[k] == s.channel[k + 1];
      }
    }
  }

  lemma RunningKept(p: Plan, s: State, a: Action)
    requires LoopInv(p, s) && RunningInv(s) && Next(p, s, a).Some?
    ensures RunningInv(Next(p, s, a).value)
  {
  }

  lemma LimitKept(p: Plan, s: State, a: Action)
    requires LimitInv(p, s) && Next(p, s, a).Some?
    ensures LimitInv(p, Next(p, s, a).value)
  {
    var s' := Next(p, s, a).value;
    if a.Register? {
      SubsetSize(s'.running - {s.next}, s.running);
    } else {
      SubsetSize(s'.running, s.running);
    }
  }

  lemma OrderedKept(p: Plan, log: seq<Event>, e: Event)
    requires Ordered(p, log)
    requires e.Start? && e.i < |p.ids| ==> forall j :: 0 <= j < e.i && Conflicts(p, e.i, j) ==> Finish(j) in log
    ensures Ordered(p, log + [e])
  {
    var l := log + [e];
    forall q | 0 <= q < |l| && l[q].Start? && l[q].i < |p.ids| ensures OrderedAt(p, l, q) {
      assert l[..q] == log[..q];
      if q < |log| {
        assert OrderedAt(p, log, q);
      } else {
        assert l[..q] == log;
      }
    }
  }

  lemma NextKeepsInv(p: Plan, s: State, a: Action)
    requires Inv(p, s) && Next(p, s, a).Some?
    ensures Inv(p, Next(p, s, a).value)
  {
    LoopKept(p, s, a);
    RunningKept(p, s, a);
    LimitKept(p, s, a);
    if a.Take? {
      assert Ready(p, s, s.channel[0]);
      OrderedKept(p, s.log, Start(s.channel[0]));
    } else if a.Complete? {
      OrderedKept(p, s.log, Finish(s.workers[a.k].i));
    }
  }

  lemma {:induction false} ExecInv(p: Plan, acts: seq<Action>)
    requires Exec(p, acts).Some?
    ensures Inv(p, Exec(p, acts).value)
  {
    if acts != [] {
      ExecInv(p, acts[..|acts| - 1]);
      NextKeepsInv(p, Exec(p, acts[..|acts| - 1]).value, acts[|acts| - 1]);
    }
  }

  // ------------------------------------------------------------ every statement once, in list order

  function StartsOf(log: seq<Event>): seq<nat> {
    if log == [] then []
    else StartsOf(log[..|log| - 1]) + match log[|log| - 1] case Start(i) => [i] case Finish(_) => []
  }

  /** Started and waiting statements together are the registered ones, in list order. */
  ghost predicate FifoInv(s: State) {
    StartsOf(s.log) + s.channel == UpTo(s.next)
  }

  lemma StartsOneMore(log: seq<Event>, e: Event)
    ensures StartsOf(log + [e]) == StartsOf(log) + match e case Start(i) => [i] case Finish(_) => []
  {
    assert (log + [e])[..|log|] == log;
  }

  lemma SendKeepsOrder(starts: seq<nat>, channel: seq<nat>, n: nat)
    requires starts + channel == UpTo(n)
    ensures starts + (channel + [n]) == UpTo(n + 1)
  {
    assert starts + (channel + [n]) == (starts + channel) + [n];
  }

  lemma TakeKeepsOrder(starts: seq<nat>, channel: seq<nat>, all: seq<nat>)
    requires starts + channel == all && channel != []
    ensures (starts + [channel[0]]) + channel[1..] == all
  {
  }

  lemma FifoKept(p: Plan, s: State, a: Action)
    requires FifoInv(s) && Next(p, s, a).Some?
    ensures FifoInv(Next(p, s, a).value)
  {
    match a
    case Send =>
      SendKeepsOrder(StartsOf(s.log), s.channel, s.next);
    case Take(_) =>
      StartsOneMore(s.log, Start(s.channel[0]));
      TakeKeepsOrder(StartsOf(s.log), s.channel, UpTo(s.next));
    case Complete(k) =>
      StartsOneMore(s.log, Finish(s.workers[k].i));
    case _ =>
  }

  lemma {:induction false} ExecFifo(p: Plan, acts: seq<Action>)
    requires Exec(p, acts).Some?
    ensures FifoInv(Exec(p, acts).value)
  {
    if acts != [] {
      ExecFifo(p, acts[..|acts| - 1]);
      FifoKept(p, Exec(p, acts[..|acts| - 1]).value, acts[|acts| - 1]);
    }
  }

  /** In every run statements start one after another in list order, none twice, none skipped. */
  lemma StartsInListOrder(p: Plan, acts: seq<Action>)
    requires Exec(p, acts).Some?
    ensures var starts := StartsOf(Exec(p, acts).value.log);
      |starts| <= |p.ids| && starts == UpTo(|starts|)
  {
    ExecFifo(p, acts);
    ExecInv(p, acts);
    var s := Exec(p, acts).value;
    var starts := StartsOf(s.log);
    forall i | 0 <= i < |starts| ensures starts[i] == i {
      assert (starts + s.channel)[i] == starts[i];
    }
  }

  /** The channel has room for all statements, so the loop never waits to send one. */
  lemma SendNeverBlocks(p: Plan, acts: seq<Action>, s: State)
    requires Exec(p, acts) == Some(s) && s.stage.Registered?
    ensures Next(p, s, Send) == Some(s.(stage := Polling, next := s.next + 1, channel := s.channel + [s.next]))
  {
    ExecFifo(p, acts);
    ExecInv(p, acts);
    ChannelIsShort(s);
  }

  lemma ChannelIsShort(s: State)
    requires FifoInv(s)
    ensures |s.channel| <= s.next
  {
    assert |StartsOf(s.log) + s.channel| == s.next;
  }

  lemma {:induction false} StartIsCounted(log: seq<Event>, i: nat)
    ensures Start(i) in log <==> i in StartsOf(log)
  {
    if log != [] {
      StartIsCounted(log[..|log| - 1], i);
      assert log == log[..|log| - 1] + [log[|log| - 1]];
    }
  }

  /** Statements being executed right now. */
  ghost function InFlight(s: State): set<nat> {
    set i: nat | i < s.next && Start(i) in s.log && Finish(i) !in s.log
  }

  /** In every run at most numTasks statements are in flight. */
  lemma FlightLimit(p: Plan, acts: seq<Action>)
    requires Exec(p, acts).Some?
    ensures |InFlight(Exec(p, acts).value)| <= p.numTasks
  {
    ExecInv(p, acts);
    var s := Exec(p, acts).value;
    SubsetSize(InFlight(s), s.running);
  }

  /** The statements are listed with the dependencies of each before it. */
  ghost predicate ListedFirst(p: Plan) {
    forall i, j ::
      0 <= i < |p.ids| && 0 <= j < |p.ids| && p.ids[j] in DepsOf(p.deps, p.ids[i]) && p.ids[j] != p.ids[i] ==> j < i
  }

  /**
   Dependency safety. For any ids and any dependency map, if dependencies are listed first:
   whenever a statement starts, every listed statement it depends on and every earlier
   statement for the same object has been executed.
   */
  lemma NoEarlyStart(p: Plan, acts: seq<Action>, q: nat, j: nat)
    requires Exec(p, acts).Some? && ListedFirst(p)
    requires q < |Exec(p, acts).value.log| && Exec(p, acts).value.log[q].Start? && j < |p.ids|
    ensures var i := Exec(p, acts).value.log[q].i;
      && i < |p.ids|
      && (p.ids[j] in DepsOf(p.deps, p.ids[i]) && p.ids[j] != p.ids[i] ==> Finish(j) in Exec(p, acts).value.log[..q])
      && (p.ids[j] == p.ids[i] && j < i ==> Finish(j) in Exec(p, acts).value.log[..q])
  {
    ExecInv(p, acts);
    StartsInListOrder(p, acts);
    var s := Exec(p, acts).value;
    var i := s.log[q].i;
    StartIsCounted(s.log, i);
    assert OrderedAt(p, s.log, q);
  }

  // ------------------------------------------------------------ one id for all: a serial run

  function SerialEvent(k: nat): Event {
    if k % 2 == 0 then Start(k / 2) else Finish(k / 2)
  }

  /** The first `n` events of start 0, finish 0, start 1, finish 1, ... */
  function SerialLog(n: nat): (l: seq<Event>)
    ensures |l| == n && forall k :: 0 <= k < n ==> l[k] == SerialEvent(k)
  {
    seq(n, k requires 0 <= k => SerialEvent(k))
  }

  lemma {:induction false} SerialStarts(n: nat)
    ensures |StartsOf(SerialLog(n))| == (n + 1) / 2
  {
    if n > 0 {
      SerialStarts(n - 1);
      assert SerialLog(n)[..n - 1] == SerialLog(n - 1);
    }
  }

  /** Executions alternate, and a worker is executing exactly when a finish is due. */
  ghost predicate SerialInv(s: State) {
    && s.log == SerialLog(|s.log|)
    && (forall k :: 0 <= k < |s.workers| && s.workers[k].Executing? ==>
          |s.log| % 2 == 1 && s.workers[k].i == |s.log| / 2)
    && (forall k, l :: 0 <= k < l < |s.workers| && s.workers[k].Executing? ==> !s.workers[l].Executing?)
  }

  ghost predicate SameIds(p: Plan) {
    forall i, j :: 0 <= i < |p.ids| && 0 <= j < |p.ids| ==> p.ids[i] == p.ids[j]
  }

  /** The next statement to be taken is numbered by the starts so far. */
  lemma HeadIsNext(s: State)
    requires FifoInv(s) && |s.channel| > 0
    ensures s.channel[0] == |StartsOf(s.log)|
  {
    var n := |StartsOf(s.log)|;
    assert (StartsOf(s.log) + s.channel)[n] == s.channel[0];
    assert UpTo(s.next)[n] == n;
  }

  /** With a single id a statement is only taken when nothing is executing. */
  lemma TakenWhenQuiet(p: Plan, s: State)
    requires SameIds(p) && Inv(p, s) && FifoInv(s) && s.log == SerialLog(|s.log|) && |s.channel| > 0
    ensures |s.log| % 2 == 0 && s.channel[0] == |s.log| / 2
  {
    HeadIsNext(s);
    SerialStarts(|s.log|);
    var i := s.channel[0];
    if i > 0 {
      assert Ready(p, s, i) && Conflicts(p, i, i - 1);
      SerialFinishes(|s.log|, i - 1);
    }
  }

  lemma SerialFinishes(n: nat, i: nat)
    requires Finish(i) in SerialLog(n)
    ensures 2 * i + 1 < n
  {
    var k :| 0 <= k < n && SerialLog(n)[k] == Finish(i);
    assert SerialEvent(k) == Finish(i);
  }

  lemma SerialLogOneMore(n: nat)
    ensures SerialLog(n) + [SerialEvent(n)] == SerialLog(n + 1)
  {
  }

  lemma TakeIsSerial(p: Plan, s: State, k: nat, s': State)
    requires SameIds(p) && Inv(p, s) && FifoInv(s) && SerialInv(s) && Next(p, s, Take(k)) == Some(s')
    ensures SerialInv(s')
  {
    TakenWhenQuiet(p, s);
    SerialLogOneMore(|s.log|);
  }

  lemma CompleteIsSerial(p: Plan, s: State, k: nat, s': State)
    requires SerialInv(s) && Next(p, s, Complete(k)) == Some(s')
    ensures SerialInv(s')
  {
    SerialLogOneMore(|s.log|);
  }

  lemma SerialKept(p: Plan, s: State, a: Action)
    requires SameIds(p) && Inv(p, s) && FifoInv(s) && SerialInv(s) && Next(p, s, a).Some?
    ensures SerialInv(Next(p, s, a).value)
  {
    match a
    case Take(k) => TakeIsSerial(p, s, k, Next(p, s, a).value);
    case Complete(k) => CompleteIsSerial(p, s, k, Next(p, s, a).value);
    case _ =>
  }

  /** Statements that all carry the same id run strictly one after another, on any number of connections. */
  lemma {:induction false} SameIdsRunSerially(p: Plan, acts: seq<Action>)
    requires SameIds(p) && Exec(p, acts).Some?
    ensures SerialInv(Exec(p, acts).value)
  {
    if acts != [] {
      var before := acts[..|acts| - 1];
      SameIdsRunSerially(p, before);
      ExecInv(p, before);
      ExecFifo(p, before);
      SerialKept(p, Exec(p, before).value, acts[|acts| - 1]);
    }
  }

  /** ... so at most one is in flight and each starts only after all earlier ones were executed. */
  lemma SerialMeansOrdered(p: Plan, acts: seq<Action>, q: nat, j: nat)
    requires SameIds(p) && Exec(p, acts).Some?
    requires q < |Exec(p, acts).value.log| && Exec(p, acts).value.log[q].Start? && j < Exec(p, acts).value.log[q].i
    ensures Finish(j) in Exec(p, acts).value.log[..q]
  {
    SameIdsRunSerially(p, acts);
    FinishedBefore(Exec(p, acts).value.log, q, j);
  }

  lemma FinishedBefore(log: seq<Event>, q: nat, j: nat)
    requires log == SerialLog(|log|) && q < |log| && log[q].Start? && j < log[q].i
    ensures Finish(j) in log[..q]
  {
    assert log[q] == SerialEvent(q);
    assert SerialEvent(2 * j + 1) == Finish(j);
    assert log[..q][2 * j + 1] == SerialEvent(2 * j + 1);
  }

  // ------------------------------------------------------------ no deadlock, bounded work

  ghost predicate Held(s: State, j: nat) {
    exists k :: 0 <= k < |s.workers| && !s.workers[k].Idle? && s.workers[k].i == j
  }

  /** Every running task is on its way: registered, on the channel, or with a worker. */
  ghost predicate AccountedInv(s: State) {
    forall j :: j in s.running ==> j in s.channel || Held(s, j) || (s.stage.Registered? && j == s.next)
  }

  lemma AccountedKept(p: Plan, s: State, a: Action)
    requires AccountedInv(s) && Next(p, s, a).Some?
    ensures AccountedInv(Next(p, s, a).value)
  {
    var s' := Next(p, s, a).value;
    forall j | j in s'.running ensures j in s'.channel || Held(s', j) || (s'.stage.Registered? && j == s'.next) {
      if Held(s, j) {
        var k :| 0 <= k < |s.workers| && !s.workers[k].Idle? && s.workers[k].i == j;
        assert s'.workers[k].Idle? || s'.workers[k].i == j;
      }
      if a.Take? && j == s.channel[0] {
        assert s'.workers[a.k] == Executing(j);
      }
    }
  }

  lemma {:induction false} ExecAccounted(p: Plan, acts: seq<Action>)
    requires Exec(p, acts).Some?
    ensures AccountedInv(Exec(p, acts).value) && |Exec(p, acts).value.workers| == p.numWorkers
  {
    if acts != [] {
      ExecAccounted(p, acts[..|acts| - 1]);
      AccountedKept(p, Exec(p, acts[..|acts| - 1]).value, acts[|acts| - 1]);
    }
  }

  predicate AllDone(p: Plan, s: State) {
    s.closed && s.channel == [] && forall k :: 0 <= k < |s.workers| ==> s.workers[k].Idle?
  }

  /** A run that has come to its end has executed every statement. */
  lemma DoneMeansExecuted(p: Plan, acts: seq<Action>, i: nat)
    requires Exec(p, acts).Some? && AllDone(p, Exec(p, acts).value) && i < |p.ids|
    ensures Finish(i) in Exec(p, acts).value.log
  {
    ExecInv(p, acts);
    ExecAccounted(p, acts);
    DoneIsPolling(p, acts);
    assert i !in Exec(p, acts).value.running;
  }

  lemma {:induction false} DoneIsPolling(p: Plan, acts: seq<Action>)
    requires Exec(p, acts).Some?
    ensures Exec(p, acts).value.closed ==> Exec(p, acts).value.stage.Polling?
  {
    if acts != [] {
      DoneIsPolling(p, acts[..|acts| - 1]);
      ExecInv(p, acts[..|acts| - 1]);
    }
  }

  /** A worker that is not idle can go on. */
  lemma BusyCanAct(p: Plan, s: State, k: nat) returns (a: Action)
    requires k < |s.workers| && !s.workers[k].Idle?
    ensures Next(p, s, a).Some? && Next(p, s, a).value != s
  {
    a := if s.workers[k].Executing? then Complete(k) else Remove(k);
    assert s.workers[k := if s.workers[k].Executing? then Executed(s.workers[k].i) else Idle] != s.workers;
  }

  /** With idle workers and an empty channel the scheduling loop can go on. */
  lemma LoopCanAct(p: Plan, s: State) returns (a: Action)
    requires p.numTasks > 0 && s.channel == [] && !s.closed && s.next <= |p.ids| && AccountedInv(s)
    requires (forall k :: 0 <= k < |s.workers| ==> s.workers[k].Idle?) && (!s.stage.Polling? ==> s.next < |p.ids|)
    ensures Next(p, s, a).Some? && Next(p, s, a).value != s
  {
    if s.stage.Registered? {
      a := Send;
    } else if s.stage.Cleared? {
      a := Register;
    } else if s.next < |p.ids| {
      assert s.running == {};
      a := Check;
    } else {
      a := Close;
    }
  }

  /** In every reachable state some step changes the state, until every statement was executed. */
  lemma NoDeadlock(p: Plan, acts: seq<Action>, s: State) returns (a: Action)
    requires p.numTasks > 0 && p.numWorkers > 0 && Exec(p, acts) == Some(s) && !AllDone(p, s)
    ensures Next(p, s, a).Some? && Next(p, s, a).value != s
  {
    ExecInv(p, acts);
    ExecAccounted(p, acts);
    if k: nat :| k < |s.workers| && !s.workers[k].Idle? {
      a := BusyCanAct(p, s, k);
    } else if |s.channel| > 0 {
      a := Take(0);
    } else {
      a := LoopCanAct(p, s);
    }
  }

  function WorkerWork(w: seq<Worker>): nat {
    if w == [] then 0
    else WorkerWork(w[..|w| - 1]) + match w[|w| - 1] case Idle => 0 case Executing(_) => 2 case Executed(_) => 1
  }

  /** An upper bound on the state-changing steps left. */
  function WorkLeft(p: Plan, s: State): int {
    6 * (|p.ids| - s.next) + 3 * |s.channel| + WorkerWork(s.workers)
    - (match s.stage case Polling => 0 case Cleared => 1 case Registered => 2)
    - (if s.closed then 1 else 0)
  }

  lemma {:induction false} WorkerUpdate(w: seq<Worker>, k: nat, x: Worker)
    requires k < |w|
    ensures WorkerWork(w[k := x]) - WorkerWork([x]) == WorkerWork(w) - WorkerWork([w[k]])
  {
    var n := |w| - 1;
    if k < n {
      WorkerUpdate(w[..n], k, x);
      assert w[k := x][..n] == w[..n][k := x];
    } else {
      assert w[k := x][..n] == w[..n];
    }
    assert [x][..0] == [] && [w[k]][..0] == [];
  }

  /** Every step other than a refused check brings the run strictly closer to its end. */
  lemma StepsAreBounded(p: Plan, s: State, a: Action)
    requires Next(p, s, a).Some? && Next(p, s, a).value != s
    ensures WorkLeft(p, Next(p, s, a).value) < WorkLeft(p, s)
  {
    if a.Take? || a.Complete? || a.Remove? {
      var x := Next(p, s, a).value.workers[a.k];
      WorkerUpdate(s.workers, a.k, x);
      assert [x][..0] == [] && [s.workers[a.k]][..0] == [];
    }
  }

  /** How many actions of a run changed the state. */
  function Changes(p: Plan, acts: seq<Action>): nat
    requires Exec(p, acts).Some?
  {
    if acts == [] then 0
    else
      var before := acts[..|acts| - 1];
      Changes(p, before) + if Exec(p, acts) == Exec(p, before) then 0 else 1
  }

  lemma {:induction false} IdleWork(n: nat)
    ensures WorkerWork(seq(n, _ => Idle)) == 0
  {
    if n > 0 {
      IdleWork(n - 1);
      assert seq(n, _ => Idle)[..n - 1] == seq(n - 1, _ => Idle);
    }
  }

  lemma {:induction false} ChangesAreWorkDone(p: Plan, acts: seq<Action>)
    requires Exec(p, acts).Some?
    ensures Changes(p, acts) + WorkLeft(p, Exec(p, acts).value) <= 6 * |p.ids|
  {
    if acts == [] {
      IdleWork(p.numWorkers);
    } else {
      var before, a := acts[..|acts| - 1], acts[|acts| - 1];
      ChangesAreWorkDone(p, before);
      if Exec(p, acts) != Exec(p, before) {
        StepsAreBounded(p, Exec(p, before).value, a);
      }
    }
  }

  /** Every run ends: no run changes the state more than 6 times for each statement and once to close the channel. */
  lemma RunsEnd(p: Plan, acts: seq<Action>)
    requires Exec(p, acts).Some?
    ensures Changes(p, acts) <= 6 * |p.ids| + 1
  {
    ChangesAreWorkDone(p, acts);
    ExecInv(p, acts);
  }

  // ------------------------------------------------------------ independent statements do run in parallel

  /** No statement has the id of another or depends on another. */
  predicate Independent(p: Plan) {
    forall i, j :: 0 <= i < |p.ids| && 0 <= j < |p.ids| && i != j ==>
      p.ids[i] != p.ids[j] && p.ids[j] !in DepsOf(p.deps, p.ids[i])
  }

  /** The first `m` statements are executing at the same time. */
  function Together(p: Plan, m: nat): State
    requires m <= p.numWorkers
  {
    State(m, Polling, Range(m), [], false, seq(p.numWorkers, k => if 0 <= k < m then Executing(k) else Idle),
          seq(m, k requires 0 <= k < m => Start(k)))
  }

  lemma CheckClears(p: Plan, m: nat)
    requires Independent(p) && m < p.numTasks && m < |p.ids|
    ensures ShouldSchedule(p, m, Range(m))
  {
  }

  lemma TogetherOneMore(p: Plan, m: nat, s: State)
    requires m < p.numWorkers && s == Together(p, m)
    ensures s.workers[m].Idle? && s.next == m && s.channel == []
    ensures Together(p, m + 1) ==
      State(m + 1, Polling, s.running + {m}, [], s.closed, s.workers[m := Executing(m)], s.log + [Start(m)])
  {
    var t := Together(p, m + 1);
    assert s.workers[m := Executing(m)] == t.workers;
    assert s.log + [Start(m)] == t.log;
  }

  ghost predicate Reached(p: Plan, s: State) {
    exists acts :: Exec(p, acts) == Some(s)
  }

  lemma ReachedNext(p: Plan, s: State, a: Action, s': State)
    requires Reached(p, s) && Next(p, s, a) == Some(s')
    ensures Reached(p, s')
  {
    var acts :| Exec(p, acts) == Some(s);
    var acts' := acts + [a];
    assert acts'[..|acts|] == acts;
    assert Exec(p, acts') == Some(s');
  }

  lemma StartOneMore(p: Plan, m: nat, s: State)
    requires Independent(p) && m < p.numWorkers && m < p.numTasks && m < |p.ids|
    requires s == Together(p, m) && Reached(p, s)
    ensures Reached(p, Together(p, m + 1))
  {
    CheckClears(p, m);
    ReachedNext(p, s, Check, s.(stage := Cleared));
    TogetherOneMore(p, m, s);
    PassOn(p, s.(stage := Cleared), m, s.running + {m}, s.workers[m := Executing(m)], s.log + [Start(m)]);
  }

  /** A cleared statement goes through the channel to worker `k`. */
  lemma PassOn(p: Plan, s: State, k: nat, running: set<nat>, workers: seq<Worker>, log: seq<Event>)
    requires Reached(p, s) && s.stage.Cleared? && s.channel == [] && s.next < |p.ids|
    requires k < |s.workers| && s.workers[k].Idle? && running == s.running + {s.next}
    requires workers == s.workers[k := Executing(s.next)] && log == s.log + [Start(s.next)]
    ensures Reached(p, State(s.next + 1, Polling, running, [], s.closed, workers, log))
  {
    var s' := State(s.next + 1, Polling, running, [s.next], s.closed, s.workers, s.log);
    Queue(p, s, s');
    assert [s.next][1..] == [];
    ReachedNext(p, s', Take(k), State(s.next + 1, Polling, running, [], s.closed, workers, log));
  }

  lemma Queue(p: Plan, s: State, s': State)
    requires Reached(p, s) && s.stage.Cleared? && s.channel == [] && s.next < |p.ids|
    requires s' == State(s.next + 1, Polling, s.running + {s.next}, [s.next], s.closed, s.workers, s.log)
    ensures Reached(p, s')
  {
    assert s.channel + [s.next] == [s.next];
    var mid := s.(stage := Registered, running := s'.running);
    ReachedNext(p, s, Register, mid);
    ReachedNext(p, mid, Send, s');
  }

  /** As many independent statements as there are connections and the limit allows can be in flight at once. */
  lemma IndependentRunTogether(p: Plan, m: nat) returns (acts: seq<Action>)
    requires Independent(p) && m <= p.numWorkers && m <= p.numTasks && m <= |p.ids|
    ensures Exec(p, acts).Some? && |Exec(p, acts).value.workers| == p.numWorkers
    ensures forall k :: 0 <= k < m ==> Exec(p, acts).value.workers[k] == Executing(k)
  {
    TogetherIsReached(p, m);
    acts :| Exec(p, acts) == Some(Together(p, m));
  }

  lemma {:induction false} TogetherIsReached(p: Plan, m: nat)
    requires Independent(p) && m <= p.numWorkers && m <= p.numTasks && m <= |p.ids|
    ensures Reached(p, Together(p, m))
  {
    if m == 0 {
      var s := Together(p, 0);
      assert Init(p).workers == s.workers && Init(p).log == s.log && Range(0) == {};
      assert Exec(p, []) == Some(s);
    } else {
      TogetherIsReached(p, m - 1);
      StartOneMore(p, m - 1, Together(p, m - 1));
    }
  }
}
