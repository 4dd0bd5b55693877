/**
 The hand-off of tables always comes to its end: until the channel is closed some goroutine can
 act without waiting for a copier, and only a bounded number of such actions is possible.
 */
module HandoffProgress {
  import opened Wrappers
  import opened FiniteSets
  import opened Strings
  import opened TableMap
  import opened TableHandoff

  // ------------------------------------------------------------ the planned channel

  /** The plan's map was built from the lists of tables, and the channel has a place for each of them. */
  predicate Planned(p: Plan, src: seq<Table>, dest: seq<Table>) {
    |src| <= |dest| && p.tabMap == TableMapOf(src, dest) && p.capacity == |dest|
  }

  lemma PlannedHoldsAll(p: Plan, src: seq<Table>, dest: seq<Table>)
    requires Planned(p, src, dest)
    ensures p.capacity >= |p.tabMap|
  {
    MapOfSize(Keys(dest), Values(src), |src|);
  }

  /** Entry `k` can be decoded, value and key. */
  predicate Readable(p: Plan, k: string) {
    k in p.tabMap ==> Decode(p.tabMap[k]).Some? && DecodeKey(k).Some?
  }

  lemma {:induction false} BuiltFrom<K, V>(keys: seq<K>, values: seq<V>, n: nat, k: K) returns (i: nat)
    requires n <= |values| && n <= |keys| && k in MapOf(keys, values, n)
    ensures i < n && k == keys[i] && MapOf(keys, values, n)[k] == values[i]
  {
    i := n - 1;
    if k != keys[n - 1] {
      i := BuiltFrom(keys, values, n - 1, k);
    }
  }

  /** A planned map can be decoded, with dots in its names or without. */
  lemma PlannedIsReadable(p: Plan, src: seq<Table>, dest: seq<Table>, k: string)
    requires Planned(p, src, dest)
    ensures Readable(p, k)
  {
    if k in p.tabMap {
      var i := BuiltFrom(Keys(dest), Values(src), |src|, k);
      EncodedCanBeRead(src[i], dest[i].schema, dest[i].name);
    }
  }

  /** No send ever waits: neither a worker's nor the cleanup's. */
  lemma PlannedSendsNeverBlock(p: Plan, src: seq<Table>, dest: seq<Table>, acts: seq<Action>, s: State)
    requires Planned(p, src, dest) && Exec(p, acts) == Some(s)
    ensures forall w: nat :: w < |s.workers| && s.workers[w].Sending? && s.workers[w].found != [] ==>
      Next(p, s, Send(w)).Some?
    ensures forall k :: s.stage.CleaningUp? && k in s.stage.todo ==> Next(p, s, CleanupSend(k)).Some?
  {
    PlannedHoldsAll(p, src, dest);
    forall w: nat | w < |s.workers| && s.workers[w].Sending? && s.workers[w].found != []
      ensures Next(p, s, Send(w)).Some?
    {
      WorkerNeverBlocks(p, acts, w);
    }
    forall k | s.stage.CleaningUp? && k in s.stage.todo ensures Next(p, s, CleanupSend(k)).Some? {
      PlannedIsReadable(p, src, dest, k);
      CleanupNeverBlocks(p, acts, k);
    }
  }

  // ------------------------------------------------------------ progress

  /** The leaf names that a TABLE statement leads to have the form that is expected. */
  predicate AllLeavesNamed(p: Plan) {
    forall i :: 0 <= i < |p.statements| && p.statements[i].isTable ==> LeavesNamed(p, p.statements[i])
  }

  /** Nothing in the plan makes an index go out of range. */
  ghost predicate Sound(p: Plan) {
    (forall k :: k in p.tabMap ==> Readable(p, k)) && AllLeavesNamed(p)
  }

  /** Statements are numbered by their positions. */
  ghost predicate Numbered(p: Plan, s: State) {
    && |s.workers| == p.numWorkers
    && (forall i :: i in s.pending || i in s.attempted ==> i < |p.statements|)
  }

  lemma NextNumbered(p: Plan, s: State, a: Action)
    requires Numbered(p, s) && Next(p, s, a).Some?
    ensures Numbered(p, Next(p, s, a).value)
  {
  }

  lemma {:induction false} ExecNumbered(p: Plan, acts: seq<Action>)
    requires Exec(p, acts).Some?
    ensures Numbered(p, Exec(p, acts).value)
  {
    if acts != [] {
      ExecNumbered(p, acts[..|acts| - 1]);
      NextNumbered(p, Exec(p, acts[..|acts| - 1]).value, acts[|acts| - 1]);
    }
  }

  lemma CollectorCanAct(p: Plan, s: State, w: nat)
    requires Sound(p) && w < |s.workers| && s.workers[w].Collecting? && MapUntouched(p, s)
    ensures CollectNext(s, w).Some?
  {
    var todo := s.workers[w].todo;
    if todo != [] {
      var k := Qualify(todo[0].schema, todo[0].name);
      assert k in s.tabMap ==> Readable(p, k);
    }
  }

  lemma AttemptedCanAct(p: Plan, s: State, w: nat)
    requires Sound(p) && Numbered(p, s) && w < |s.workers| && s.workers[w].Attempted? && s.workers[w].i in s.attempted
    ensures LookNext(p, s, w).Some?
  {
  }

  /** A worker that is not idle can act, if it need not wait for room. */
  lemma BusyCanAct(p: Plan, s: State, w: nat) returns (a: Action)
    requires Sound(p) && Numbered(p, s) && w < |s.workers| && !s.workers[w].Idle?
    requires s.workers[w].Attempted? ==> s.workers[w].i in s.attempted
    requires MapUntouched(p, s)
    requires s.workers[w].Sending? && s.workers[w].found != [] ==> SendNext(p, s, w).Some?
    ensures (a.Look? || a.Collect? || a.Send? || a.Rest?) && a.w == w && Next(p, s, a).Some?
  {
    match s.workers[w]
    case Attempted(i) =>
      a := Look(w);
      AttemptedCanAct(p, s, w);
    case Collecting(_, _, _) =>
      a := Collect(w);
      CollectorCanAct(p, s, w);
    case Sending(found) =>
      a := if found == [] then Rest(w) else Send(w);
  }

  /** The entries that are left are those of the plan. */
  ghost predicate MapUntouched(p: Plan, s: State) {
    forall k :: k in s.tabMap ==> k in p.tabMap && s.tabMap[k] == p.tabMap[k]
  }

  lemma ContentOf(p: Plan, s: State, w: nat)
    requires ContentInv(p, s) && w < |s.workers|
    ensures MapUntouched(p, s) && (s.workers[w].Attempted? ==> s.workers[w].i in s.attempted)
  {
    assert WorkerOk(p, s.attempted, s.workers[w]);
  }

  lemma WorkerCanAct(p: Plan, acts: seq<Action>, s: State, w: nat) returns (a: Action)
    requires Sound(p) && p.capacity >= |p.tabMap| && Exec(p, acts) == Some(s)
    requires w < |s.workers| && !s.workers[w].Idle?
    ensures (a.Look? || a.Collect? || a.Send? || a.Rest?) && a.w == w && Next(p, s, a).Some?
  {
    ExecContent(p, acts);
    ExecNumbered(p, acts);
    if s.workers[w].Sending? && s.workers[w].found != [] {
      SenderCanAct(p, acts, s, w);
    }
    ContentOf(p, s, w);
    a := BusyCanAct(p, s, w);
  }

  lemma SenderCanAct(p: Plan, acts: seq<Action>, s: State, w: nat)
    requires p.capacity >= |p.tabMap| && Exec(p, acts) == Some(s)
    requires w < |s.workers| && s.workers[w].Sending? && s.workers[w].found != []
    ensures SendNext(p, s, w).Some?
  {
    WorkerNeverBlocks(p, acts, w);
  }

  lemma CleanupSends(p: Plan, acts: seq<Action>, s: State, k: string)
    requires Sound(p) && p.capacity >= |p.tabMap| && Exec(p, acts) == Some(s)
    requires s.stage.CleaningUp? && k in s.stage.todo
    ensures Next(p, s, CleanupSend(k)).Some?
  {
    assert k in p.tabMap ==> Readable(p, k);
    CleanupNeverBlocks(p, acts, k);
  }

  lemma AllCleanupSends(p: Plan, acts: seq<Action>, s: State)
    requires Sound(p) && p.capacity >= |p.tabMap| && Exec(p, acts) == Some(s) && s.stage.CleaningUp?
    ensures forall k :: k in s.stage.todo ==> Next(p, s, CleanupSend(k)).Some?
  {
    forall k | k in s.stage.todo ensures Next(p, s, CleanupSend(k)).Some? {
      CleanupSends(p, acts, s, k);
    }
  }

  lemma CleanupCanAct(p: Plan, s: State) returns (a: Action)
    requires s.stage.CleaningUp? && forall k :: k in s.stage.todo ==> Next(p, s, CleanupSend(k)).Some?
    ensures !a.Receive? && Next(p, s, a).Some?
  {
    if s.stage.todo == {} {
      a := CloseChannel;
    } else {
      var k :| k in s.stage.todo;
      a := CleanupSend(k);
    }
  }

  /** With idle workers a statement can be attempted, or the cleanup begins. */
  lemma IdleCanAct(p: Plan, s: State) returns (a: Action)
    requires s.stage.Restoring? && |s.workers| > 0 && forall w :: 0 <= w < |s.workers| ==> s.workers[w].Idle?
    ensures !a.Receive? && Next(p, s, a).Some?
  {
    if s.pending == {} {
      a := StartCleanup;
    } else {
      var i :| i in s.pending;
      a := Attempt(0, i);
    }
  }

  /** Until the channel is closed somebody can act, even if no copier ever receives. */
  lemma SomebodyCanAct(p: Plan, acts: seq<Action>, s: State) returns (a: Action)
    requires Sound(p) && p.capacity >= |p.tabMap| && p.numWorkers > 0 && Exec(p, acts) == Some(s)
    requires !s.stage.Closed?
    ensures !a.Receive? && Next(p, s, a).Some?
  {
    if s.stage.CleaningUp? {
      AllCleanupSends(p, acts, s);
      a := CleanupCanAct(p, s);
    } else if w: nat :| w < |s.workers| && !s.workers[w].Idle? {
      a := WorkerCanAct(p, acts, s, w);
    } else {
      ExecNumbered(p, acts);
      a := IdleCanAct(p, s);
    }
  }

  // ------------------------------------------------------------ a bound on the actions

  function TargetCount(p: Plan, i: nat): nat {
    if i < |p.statements| then |Targets(p, p.statements[i])| else 0
  }

  /** Actions that the pending ones of the first `n` statements can still give rise to. */
  function PendingWork(p: Plan, pending: set<nat>, n: nat): nat {
    if n == 0 then 0
    else PendingWork(p, pending, n - 1) + if n - 1 in pending then 2 * TargetCount(p, n - 1) + 4 else 0
  }

  function WorkOf(p: Plan, w: Worker): nat {
    match w
    case Idle => 0
    case Attempted(i) => 2 * TargetCount(p, i) + 3
    case Collecting(_, todo, found) => 2 * |todo| + |found| + 2
    case Sending(found) => |found| + 1
  }

  function HandsWork(p: Plan, ws: seq<Worker>): nat {
    if ws == [] then 0 else HandsWork(p, ws[..|ws| - 1]) + WorkOf(p, ws[|ws| - 1])
  }

  function StageWork(s: State): nat {
    match s.stage
    case Restoring => |s.tabMap.Keys| + 2
    case CleaningUp(todo) => |todo| + 1
    case Closed => 0
  }

  function Work(p: Plan, s: State): nat {
    PendingWork(p, s.pending, |p.statements|) + HandsWork(p, s.workers) + StageWork(s)
  }

  lemma {:induction false} HandsUpdate(p: Plan, ws: seq<Worker>, w: nat, x: Worker)
    requires w < |ws|
    ensures HandsWork(p, ws[w := x]) - WorkOf(p, x) == HandsWork(p, ws) - WorkOf(p, ws[w])
  {
    var n := |ws| - 1;
    if w < n {
      HandsUpdate(p, ws[..n], w, x);
      assert ws[w := x][..n] == ws[..n][w := x];
    } else {
      assert ws[w := x][..n] == ws[..n];
    }
  }

  lemma {:induction false} PendingLess(p: Plan, pending: set<nat>, n: nat, i: nat)
    requires i in pending
    ensures PendingWork(p, pending, n) ==
      PendingWork(p, pending - {i}, n) + if i < n then 2 * TargetCount(p, i) + 4 else 0
  {
    if n > 0 {
      PendingLess(p, pending, n - 1, i);
    }
  }

  /** A worker's own action takes work off its hands. */
  lemma WorkerWorks(p: Plan, s: State, w: nat, s': State)
    requires w < |s.workers| && |s'.workers| == |s.workers| && s'.workers == s.workers[w := s'.workers[w]]
    requires WorkOf(p, s'.workers[w]) < WorkOf(p, s.workers[w])
    requires s'.pending == s.pending && StageWork(s') <= StageWork(s)
    ensures Work(p, s') < Work(p, s)
  {
    HandsUpdate(p, s.workers, w, s'.workers[w]);
  }

  lemma AttemptWorks(p: Plan, s: State, w: nat, i: nat, s': State)
    requires Numbered(p, s) && AttemptNext(s, w, i) == Some(s')
    ensures Work(p, s') < Work(p, s)
  {
    HandsUpdate(p, s.workers, w, Attempted(i));
    PendingLess(p, s.pending, |p.statements|, i);
  }

  lemma CollectWorks(p: Plan, s: State, w: nat, s': State)
    requires w < |s.workers| && s.workers[w].Collecting? && CollectNext(s, w) == Some(s')
    ensures Work(p, s') < Work(p, s)
  {
    var got := CollectTakes(s, w, s');
    SubsetSize(s'.tabMap.Keys, s.tabMap.Keys);
    WorkerWorks(p, s, w, s');
  }

  lemma LookWorks(p: Plan, s: State, w: nat, s': State)
    requires LookNext(p, s, w) == Some(s')
    ensures Work(p, s') < Work(p, s)
  {
    WorkerWorks(p, s, w, s');
  }

  lemma SendWorks(p: Plan, s: State, w: nat, s': State)
    requires SendNext(p, s, w) == Some(s')
    ensures Work(p, s') < Work(p, s)
  {
    WorkerWorks(p, s, w, s');
  }

  lemma CleanupWorks(p: Plan, s: State, key: string, s': State)
    requires CleanupNext(p, s, key) == Some(s')
    ensures Work(p, s') < Work(p, s)
  {
    var x := CleanupCleans(p, s, key, s');
    CleaningWorks(p, s, key, s', x);
  }

  lemma CleaningWorks(p: Plan, s: State, key: string, s': State, x: Sent)
    requires Cleans(s, key, s', x) && s'.pending == s.pending
    ensures Work(p, s') < Work(p, s)
  {
  }

  /** Every action but a receive leaves less to do. */
  lemma ActionWorks(p: Plan, s: State, a: Action, s': State)
    requires Numbered(p, s) && Next(p, s, a) == Some(s') && !a.Receive?
    ensures Work(p, s') < Work(p, s)
  {
    match a
    case Attempt(w, i) => AttemptWorks(p, s, w, i, s');
    case Look(w) => LookWorks(p, s, w, s');
    case Collect(w) => CollectWorks(p, s, w, s');
    case Send(w) => SendWorks(p, s, w, s');
    case Rest(w) => WorkerWorks(p, s, w, s');
    case CleanupSend(k) => CleanupWorks(p, s, k, s');
    case _ =>
  }

  /** Actions of a run other than receives. */
  function Actions(acts: seq<Action>): nat {
    if acts == [] then 0 else Actions(acts[..|acts| - 1]) + if acts[|acts| - 1].Receive? then 0 else 1
  }

  /**
   Every run ends: a run has at most Work(p, Init(p)) actions besides receives. Together with
   SomebodyCanAct this means that the channel is closed in the end, with every table sent once.
   */
  lemma {:induction false} RunsEnd(p: Plan, acts: seq<Action>)
    requires Exec(p, acts).Some?
    ensures Actions(acts) + Work(p, Exec(p, acts).value) <= Work(p, Init(p))
  {
    if acts != [] {
      var before, a := acts[..|acts| - 1], acts[|acts| - 1];
      RunsEnd(p, before);
      ExecNumbered(p, before);
      if !a.Receive? {
        ActionWorks(p, Exec(p, before).value, a, Exec(p, acts).value);
      }
    }
  }

  /** Nobody but a copier can act. */
  ghost predicate AtEnd(p: Plan, s: State) {
    forall a: Action :: !a.Receive? ==> Next(p, s, a).None?
  }

  /**
   From the planner to a closed channel, whether or not any copier receives: a run has a bounded
   number of actions, and where it can go no further the channel is closed and every entry of the
   planned map was sent, each once, and nothing else.
   */
  lemma PlannedTablesAreDelivered(p: Plan, src: seq<Table>, dest: seq<Table>, acts: seq<Action>, s: State)
    requires Planned(p, src, dest) && AllLeavesNamed(p) && p.numWorkers > 0 && Exec(p, acts) == Some(s)
    ensures Actions(acts) <= Work(p, Init(p))
    ensures AtEnd(p, s) ==>
      s.stage.Closed? && forall k :: Times(s.sent, k) == if k in TableMapOf(src, dest) then 1 else 0
  {
    RunsEnd(p, acts);
    if AtEnd(p, s) {
      PlannedHoldsAll(p, src, dest);
      forall k | k in p.tabMap ensures Readable(p, k) {
        PlannedIsReadable(p, src, dest, k);
      }
      if !s.stage.Closed? {
        var a := SomebodyCanAct(p, acts, s);
      }
      forall k ensures Times(s.sent, k) == if k in TableMapOf(src, dest) then 1 else 0 {
        SentExactlyOnce(p, acts, k);
      }
    }
  }
}
