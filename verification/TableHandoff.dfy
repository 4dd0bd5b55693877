/**
 Handing created tables to the data copiers (meta/builtin/parallel_depend.go): after a TABLE
 statement was attempted its worker takes the matching entries out of the shared table map and
 sends them to the copy channel; when all workers are done, RestoreCleanup sends what is left
 and the channel is closed. Statements reach workers in any order, steps interleave freely.
 */
module TableHandoff {
  import opened Wrappers
  import opened Strings
  import opened TableMap
  import opened FiniteSets

  /** A statement as far as the hand-off looks at it. */
  datatype Statement = Statement(schema: string, name: string, isTable: bool)

  /**
   The fixed inputs: the statements, the partition leaves of each destination root (used for
   sources older than GPDB 7 only), the initial table map, the channel's capacity and the workers.
   */
  datatype Plan = Plan(
    statements: seq<Statement>, partNameMap: map<string, seq<string>>, declarativePartitions: bool,
    tabMap: map<string, string>, capacity: nat, numWorkers: nat)

  /** Entry `key` of the table map as sent; `cause` is the statement that released it, if any. */
  datatype Sent = Sent(key: string, pair: TablePair, cause: Option<nat>)

  datatype Name = Name(schema: string, name: string)

  datatype Worker =
    | Idle
    | Attempted(i: nat)                                        // the statement was executed, or failed
    | Collecting(i: nat, todo: seq<Name>, found: seq<Sent>)    // lookupSourceTables
    | Sending(found: seq<Sent>)

  datatype Stage = Restoring | CleaningUp(todo: set<string>) | Closed

  datatype State = State(
    pending: set<nat>, attempted: set<nat>, tabMap: map<string, string>, workers: seq<Worker>,
    sent: seq<Sent>, received: nat, stage: Stage)

  datatype Action =
    | Attempt(w: nat, i: nat)       // worker w executes statement i
    | Look(w: nat)                  // find out which tables the statement may release
    | Collect(w: nat)               // formTablePair for the next of them, under the map's mutex
    | Send(w: nat)                  // put a collected pair on the channel
    | Rest(w: nat)                  // nothing left to send
    | Receive                       // a copier takes a pair off the channel
    | StartCleanup
    | CleanupSend(k: string)
    | CloseChannel

  /** The tables a statement releases: itself, or all leaves of an old-style partition root. */
  function Targets(p: Plan, st: Statement): seq<Name> {
    if p.declarativePartitions || Qualify(st.schema, st.name) !in p.partNameMap then [Name(st.schema, st.name)]
    else LeafNames(p.partNameMap[Qualify(st.schema, st.name)])
  }

  /** The first two dot-separated parts of each leaf name. */
  function LeafNames(leaves: seq<string>): seq<Name> {
    if leaves == [] then []
    else
      var sl := Split(leaves[0], '.');
      (if |sl| < 2 then [] else [Name(sl[0], sl[1])]) + LeafNames(leaves[1..])
  }

  /**
   Statement `st` releases the table `n`. Where partitions are created by statements of their own
   that is the table created; a root of the old kind releases the leaves listed for it instead.
   */
  ghost predicate Releases(p: Plan, st: Statement, n: Name) {
    var root := Qualify(st.schema, st.name);
    if !p.declarativePartitions && root in p.partNameMap then
      exists k :: 0 <= k < |p.partNameMap[root]| && IsLeaf(p.partNameMap[root][k], n)
    else n.schema == st.schema && n.name == st.name
  }

  /** The first two dot-separated parts of `leaf` are schema and name of `n`. */
  predicate IsLeaf(leaf: string, n: Name) {
    var parts := Split(leaf, '.');
    |parts| >= 2 && parts[0] == n.schema && parts[1] == n.name
  }

  lemma {:induction false} LeafNamesAre(leaves: seq<string>, n: Name)
    ensures n in LeafNames(leaves) <==> exists k :: 0 <= k < |leaves| && IsLeaf(leaves[k], n)
  {
    if leaves != [] {
      LeafNamesAre(leaves[1..], n);
      assert forall k :: 0 < k < |leaves| ==> leaves[k] == leaves[1..][k - 1];
      if n in LeafNames(leaves[1..]) {
        var k :| 0 <= k < |leaves[1..]| && IsLeaf(leaves[1..][k], n);
        assert IsLeaf(leaves[k + 1], n);
      }
    }
  }

  lemma TargetsAreReleased(p: Plan, st: Statement, n: Name)
    ensures n in Targets(p, st) <==> Releases(p, st, n)
  {
    var root := Qualify(st.schema, st.name);
    if root in p.partNameMap {
      LeafNamesAre(p.partNameMap[root], n);
    }
  }

  /** No leaf name makes the lookup index past its parts. */
  predicate LeavesNamed(p: Plan, st: Statement) {
    var root := Qualify(st.schema, st.name);
    !p.declarativePartitions && root in p.partNameMap ==>
      forall i :: 0 <= i < |p.partNameMap[root]| ==> '.' in p.partNameMap[root][i]
  }

  function Init(p: Plan): State {
    State(Range(|p.statements|), {}, p.tabMap, seq(p.numWorkers, _ => Idle), [], 0, Restoring)
  }

  predicate HasRoom(p: Plan, s: State) {
    |s.sent| - s.received < p.capacity
  }

  /** Performs one action; None when it is not enabled (or would panic). */
  function Next(p: Plan, s: State, a: Action): Option<State> {
    match a
    case Attempt(w, i) => AttemptNext(s, w, i)
    case Look(w) => LookNext(p, s, w)
    case Collect(w) => if w < |s.workers| && s.workers[w].Collecting? then CollectNext(s, w) else None
    case Send(w) => SendNext(p, s, w)
    case Rest(w) => RestNext(s, w)
    case Receive => if s.received < |s.sent| then Some(s.(received := s.received + 1)) else None
    case StartCleanup => StartCleanupNext(s)
    case CleanupSend(k) => CleanupNext(p, s, k)
    case CloseChannel => if s.stage.CleaningUp? && s.stage.todo == {} then Some(s.(stage := Closed)) else None
  }

  function AttemptNext(s: State, w: nat, i: nat): Option<State> {
    if w < |s.workers| && s.workers[w].Idle? && i in s.pending then
      Some(s.(pending := s.pending - {i}, attempted := s.attempted + {i}, workers := s.workers[w := Attempted(i)]))
    else None
  }

  function LookNext(p: Plan, s: State, w: nat): Option<State> {
    if w < |s.workers| && s.workers[w].Attempted? && s.workers[w].i < |p.statements| then
      var i := s.workers[w].i;
      var st := p.statements[i];
      if !st.isTable then Some(s.(workers := s.workers[w := Idle]))
      else if !LeavesNamed(p, st) then None
      else Some(s.(workers := s.workers[w := Collecting(i, Targets(p, st), [])]))
    else None
  }

  function SendNext(p: Plan, s: State, w: nat): Option<State> {
    if w < |s.workers| && s.workers[w].Sending? && |s.workers[w].found| > 0 && HasRoom(p, s) && !s.stage.Closed? then
      var f := s.workers[w].found;
      Some(s.(sent := s.sent + [f[0]], workers := s.workers[w := Sending(f[1..])]))
    else None
  }

  function RestNext(s: State, w: nat): Option<State> {
    if w < |s.workers| && s.workers[w].Sending? && |s.workers[w].found| == 0 then
      Some(s.(workers := s.workers[w := Idle]))
    else None
  }

  /** All statements were attempted and all workers have left their loops. */
  function StartCleanupNext(s: State): Option<State> {
    if s.stage.Restoring? && s.pending == {} && forall w :: 0 <= w < |s.workers| ==> s.workers[w].Idle? then
      Some(s.(stage := CleaningUp(s.tabMap.Keys)))
    else None
  }

  function CleanupNext(p: Plan, s: State, k: string): Option<State> {
    if s.stage.CleaningUp? && k in s.stage.todo && k in s.tabMap && HasRoom(p, s)
       && Decode(s.tabMap[k]).Some? && DecodeKey(k).Some? then
      Some(s.(stage := CleaningUp(s.stage.todo - {k}),
              sent := s.sent + [Sent(k, TablePair(Decode(s.tabMap[k]).value, DecodeKey(k).value), None)]))
    else None
  }

  /** formTablePair: an entry that is there is decoded, removed and kept for sending. */
  function CollectNext(s: State, w: nat): Option<State>
    requires w < |s.workers| && s.workers[w].Collecting?
  {
    var Collecting(i, todo, found) := s.workers[w];
    if todo == [] then Some(s.(workers := s.workers[w := Sending(found)]))
    else
      var k := Qualify(todo[0].schema, todo[0].name);
      if k !in s.tabMap then Some(s.(workers := s.workers[w := Collecting(i, todo[1..], found)]))
      else if Decode(s.tabMap[k]).None? then None
      else
        var pair := TablePair(Decode(s.tabMap[k]).value, Dest(todo[0].schema, todo[0].name));
        Some(s.(tabMap := s.tabMap - {k},
                workers := s.workers[w := Collecting(i, todo[1..], found + [Sent(k, pair, Some(i))])]))
  }

  function Exec(p: Plan, acts: seq<Action>): Option<State> {
    if acts == [] then Some(Init(p))
    else
      var s := Exec(p, acts[..|acts| - 1]);
      if s.None? then None else Next(p, s.value, acts[|acts| - 1])
  }

  // ------------------------------------------------------------ conservation

  function Times(l: seq<Sent>, k: string): nat {
    if l == [] then 0 else Times(l[..|l| - 1], k) + if l[|l| - 1].key == k then 1 else 0
  }

  function FoundBy(w: Worker): seq<Sent> {
    match w
    case Idle => []
    case Attempted(_) => []
    case Collecting(_, _, found) => found
    case Sending(found) => found
  }

  /** How often `k` is in the hands of the workers. */
  function HeldTimes(ws: seq<Worker>, k: string): nat {
    if ws == [] then 0 else HeldTimes(ws[..|ws| - 1], k) + Times(FoundBy(ws[|ws| - 1]), k)
  }

  /** Entries nobody has taken yet. */
  function Unclaimed(s: State): set<string> {
    match s.stage
    case Restoring => s.tabMap.Keys
    case CleaningUp(todo) => todo
    case Closed => {}
  }

  function One(b: bool): nat { if b then 1 else 0 }

  /** Every original entry is in exactly one place: the map, a worker's hands, or sent. */
  ghost predicate Conserved(p: Plan, s: State, k: string) {
    One(k in Unclaimed(s)) + HeldTimes(s.workers, k) + Times(s.sent, k) == One(k in p.tabMap)
  }

  lemma {:induction false} TimesConcat(a: seq<Sent>, b: seq<Sent>, k: string)
    ensures Times(a + b, k) == Times(a, k) + Times(b, k)
  {
    if b == [] {
      assert a + b == a;
    } else {
      assert (a + b)[..|a + b| - 1] == a + b[..|b| - 1];
      TimesConcat(a, b[..|b| - 1], k);
    }
  }

  lemma TimesOne(x: Sent, k: string)
    ensures Times([x], k) == One(x.key == k)
  {
    assert [x][..0] == [];
  }

  lemma {:induction false} HeldUpdate(ws: seq<Worker>, w: nat, x: Worker, k: string)
    requires w < |ws|
    ensures HeldTimes(ws[w := x], k) - Times(FoundBy(x), k) == HeldTimes(ws, k) - Times(FoundBy(ws[w]), k)
  {
    var n := |ws| - 1;
    if w < n {
      HeldUpdate(ws[..n], w, x, k);
      assert ws[w := x][..n] == ws[..n][w := x];
    } else {
      assert ws[w := x][..n] == ws[..n];
    }
  }

  /** Nothing outside the initial stage is in a worker's hands. */
  ghost predicate StageInv(s: State) {
    && s.received <= |s.sent|
    && (!s.stage.Restoring? ==> s.pending == {} && forall w :: 0 <= w < |s.workers| ==> s.workers[w].Idle?)
    && (s.stage.CleaningUp? ==> s.stage.todo <= s.tabMap.Keys)
  }

  lemma StageKept(p: Plan, s: State, a: Action)
    requires StageInv(s) && Next(p, s, a).Some?
    ensures StageInv(Next(p, s, a).value)
  {
  }

  lemma SendConserves(p: Plan, s: State, w: nat, s': State, k: string)
    requires Conserved(p, s, k) && SendNext(p, s, w) == Some(s')
    ensures Conserved(p, s', k)
  {
    var f := s.workers[w].found;
    HeadTimes(f, k);
    TimesConcat(s.sent, [f[0]], k);
    HeldUpdate(s.workers, w, Sending(f[1..]), k);
  }

  /** A worker that only changes what it does, not what it holds. */
  lemma MovingConserves(p: Plan, s: State, w: nat, x: Worker, s': State, k: string)
    requires Conserved(p, s, k) && w < |s.workers| && FoundBy(x) == FoundBy(s.workers[w])
    requires s'.workers == s.workers[w := x] && s'.sent == s.sent && Unclaimed(s') == Unclaimed(s)
    ensures Conserved(p, s', k)
  {
    HeldUpdate(s.workers, w, x, k);
  }

  lemma HeadTimes(f: seq<Sent>, k: string)
    requires f != []
    ensures Times(f, k) == Times([f[0]], k) + Times(f[1..], k)
  {
    assert f == [f[0]] + f[1..];
    TimesConcat([f[0]], f[1..], k);
  }

  function KeysOf(got: seq<Sent>): set<string> {
    if got == [] then {} else {got[0].key}
  }

  /** What a look at the map does: the entries `got`, at most one, move from the map to the worker. */
  ghost predicate Takes(s: State, w: nat, s': State, got: seq<Sent>)
    requires w < |s.workers|
  {
    && |s'.workers| == |s.workers| && s'.workers == s.workers[w := s'.workers[w]]
    && s'.sent == s.sent && s'.stage == s.stage && s'.attempted == s.attempted
    && |got| <= 1 && FoundBy(s'.workers[w]) == FoundBy(s.workers[w]) + got
    && s'.tabMap.Keys == s.tabMap.Keys - KeysOf(got) && KeysOf(got) <= s.tabMap.Keys
  }

  lemma CollectTakes(s: State, w: nat, s': State) returns (got: seq<Sent>)
    requires w < |s.workers| && s.workers[w].Collecting? && CollectNext(s, w) == Some(s')
    ensures Takes(s, w, s', got)
  {
    var found := s.workers[w].found;
    got := if s'.tabMap == s.tabMap then [] else [FoundBy(s'.workers[w])[|found|]];
    assert found + [] == found;
  }

  lemma TakingConserves(p: Plan, s: State, w: nat, s': State, got: seq<Sent>, k: string)
    requires w < |s.workers| && Conserved(p, s, k) && s.stage.Restoring? && Takes(s, w, s', got)
    ensures Conserved(p, s', k)
  {
    HeldUpdate(s.workers, w, s'.workers[w], k);
    TimesConcat(FoundBy(s.workers[w]), got, k);
    GotTimes(got, k);
  }

  lemma GotTimes(got: seq<Sent>, k: string)
    requires |got| <= 1
    ensures Times(got, k) == One(k in KeysOf(got))
  {
    if got != [] {
      assert got == [got[0]];
      TimesOne(got[0], k);
    }
  }

  /** What a send of the cleanup does. */
  ghost predicate Cleans(s: State, key: string, s': State, x: Sent) {
    && s.stage.CleaningUp? && s'.stage == CleaningUp(s.stage.todo - {key}) && key in s.stage.todo
    && s'.workers == s.workers && s'.sent == s.sent + [x] && x.key == key
  }

  lemma CleanupCleans(p: Plan, s: State, key: string, s': State) returns (x: Sent)
    requires CleanupNext(p, s, key) == Some(s')
    ensures Cleans(s, key, s', x)
  {
    x := s'.sent[|s.sent|];
  }

  lemma CleaningConserves(p: Plan, s: State, key: string, s': State, x: Sent, k: string)
    requires Conserved(p, s, k) && Cleans(s, key, s', x)
    ensures Conserved(p, s', k)
  {
    TimesConcat(s.sent, [x], k);
    TimesOne(x, k);
  }

  lemma NextConserves(p: Plan, s: State, a: Action, k: string)
    requires Conserved(p, s, k) && StageInv(s) && Next(p, s, a).Some?
    ensures Conserved(p, Next(p, s, a).value, k)
  {
    var s' := Next(p, s, a).value;
    match a
    case Send(w) => SendConserves(p, s, w, s', k);
    case Collect(w) =>
      var got := CollectTakes(s, w, s');
      TakingConserves(p, s, w, s', got, k);
    case CleanupSend(key) =>
      var x := CleanupCleans(p, s, key, s');
      CleaningConserves(p, s, key, s', x, k);
    case Attempt(w, i) => MovingConserves(p, s, w, Attempted(i), s', k);
    case Look(w) => LookConserves(p, s, w, s', k);
    case Rest(w) => MovingConserves(p, s, w, Idle, s', k);
    case _ =>
  }

  lemma LookConserves(p: Plan, s: State, w: nat, s': State, k: string)
    requires Conserved(p, s, k) && LookNext(p, s, w) == Some(s')
    ensures Conserved(p, s', k)
  {
    MovingConserves(p, s, w, s'.workers[w], s', k);
  }

  lemma {:induction false} InitHeld(n: nat, k: string)
    ensures HeldTimes(seq(n, _ => Idle), k) == 0
  {
    if n > 0 {
      InitHeld(n - 1, k);
      assert seq(n, _ => Idle)[..n - 1] == seq(n - 1, _ => Idle);
    }
  }

  /** In every run, at every moment, each original entry is unclaimed, held or sent, exactly once. */
  lemma {:induction false} ExecConserves(p: Plan, acts: seq<Action>, k: string)
    requires Exec(p, acts).Some?
    ensures Conserved(p, Exec(p, acts).value, k) && StageInv(Exec(p, acts).value)
  {
    if acts == [] {
      InitHeld(p.numWorkers, k);
    } else {
      var s, a := Exec(p, acts[..|acts| - 1]).value, acts[|acts| - 1];
      ExecConserves(p, acts[..|acts| - 1], k);
      NextConserves(p, s, a, k);
      StageKept(p, s, a);
    }
  }

  /** In every run that closes the channel, exactly the original entries were sent, once each. */
  lemma SentExactlyOnce(p: Plan, acts: seq<Action>, k: string)
    requires Exec(p, acts).Some? && Exec(p, acts).value.stage.Closed?
    ensures Times(Exec(p, acts).value.sent, k) == if k in p.tabMap then 1 else 0
  {
    ExecConserves(p, acts, k);
    AllIdleHoldNothing(Exec(p, acts).value.workers, k);
  }

  lemma {:induction false} AllIdleHoldNothing(ws: seq<Worker>, k: string)
    requires forall w :: 0 <= w < |ws| ==> ws[w].Idle?
    ensures HeldTimes(ws, k) == 0
  {
    if ws != [] {
      AllIdleHoldNothing(ws[..|ws| - 1], k);
    }
  }

  // ------------------------------------------------------------ what is sent

  /** A sent or held pair decodes its map entry and names its destination. */
  ghost predicate Faithful(p: Plan, attempted: set<nat>, x: Sent) {
    && x.key in p.tabMap && Decode(p.tabMap[x.key]) == Some(x.pair.src)
    && match x.cause
       case Some(i) =>
         && i in attempted && i < |p.statements| && p.statements[i].isTable
         && Name(x.pair.dest.schema, x.pair.dest.name) in Targets(p, p.statements[i])
         && x.pair.dest == Dest(x.pair.dest.schema, x.pair.dest.name)
         && Qualify(x.pair.dest.schema, x.pair.dest.name) == x.key
       case None => DecodeKey(x.key) == Some(x.pair.dest)
  }

  ghost predicate AllFaithful(p: Plan, attempted: set<nat>, l: seq<Sent>) {
    forall k :: 0 <= k < |l| ==> Faithful(p, attempted, l[k])
  }

  /** A worker looks up only what the statement it attempted may release. */
  ghost predicate WorkerOk(p: Plan, attempted: set<nat>, w: Worker) {
    && AllFaithful(p, attempted, FoundBy(w))
    && match w
       case Attempted(i) => i in attempted
       case Collecting(i, todo, _) =>
         && i in attempted && i < |p.statements| && p.statements[i].isTable
         && (forall t :: t in todo ==> t in Targets(p, p.statements[i]))
       case _ => true
  }

  ghost predicate ContentInv(p: Plan, s: State) {
    && (forall k :: k in s.tabMap ==> k in p.tabMap && s.tabMap[k] == p.tabMap[k])
    && (forall w :: 0 <= w < |s.workers| ==> WorkerOk(p, s.attempted, s.workers[w]))
    && AllFaithful(p, s.attempted, s.sent)
  }

  lemma WorkerOkGrows(p: Plan, a: set<nat>, b: set<nat>, w: Worker)
    requires WorkerOk(p, a, w) && a <= b
    ensures WorkerOk(p, b, w)
  {
    forall k | 0 <= k < |FoundBy(w)| ensures Faithful(p, b, FoundBy(w)[k]) {
      assert Faithful(p, a, FoundBy(w)[k]);
    }
  }

  /** The acting worker stays sound. */
  lemma ActorOk(p: Plan, s: State, a: Action, s': State, w: nat)
    requires ContentInv(p, s) && Next(p, s, a) == Some(s') && w < |s.workers| == |s'.workers|
    requires s'.workers[w] != s.workers[w]
    ensures WorkerOk(p, s'.attempted, s'.workers[w])
  {
    assert WorkerOk(p, s.attempted, s.workers[w]);
    if a.Collect? {
      CollectOk(p, s, s', w);
    }
  }

  lemma CollectOk(p: Plan, s: State, s': State, w: nat)
    requires ContentInv(p, s) && w < |s.workers| == |s'.workers| && s.workers[w].Collecting?
    requires CollectNext(s, w) == Some(s')
    ensures WorkerOk(p, s'.attempted, s'.workers[w])
  {
    assert WorkerOk(p, s.attempted, s.workers[w]);
    var todo, x := s.workers[w].todo, s'.workers[w];
    if todo != [] {
      assert forall t :: t in x.todo ==> t in todo;
      forall k | 0 <= k < |x.found| ensures Faithful(p, s'.attempted, x.found[k]) {
        if k < |s.workers[w].found| {
          assert Faithful(p, s.attempted, FoundBy(s.workers[w])[k]);
        } else {
          assert todo[0] in todo;
        }
      }
    }
  }

  lemma FaithfulGrows(p: Plan, a: set<nat>, b: set<nat>, l: seq<Sent>)
    requires AllFaithful(p, a, l) && a <= b
    ensures AllFaithful(p, b, l)
  {
    forall k | 0 <= k < |l| ensures Faithful(p, b, l[k]) {
      assert Faithful(p, a, l[k]);
    }
  }

  lemma FaithfulAppend(p: Plan, a: set<nat>, l: seq<Sent>, x: Sent)
    requires AllFaithful(p, a, l) && Faithful(p, a, x)
    ensures AllFaithful(p, a, l + [x])
  {
  }

  lemma CleanupFaithful(p: Plan, s: State, key: string, s': State) returns (x: Sent)
    requires ContentInv(p, s) && CleanupNext(p, s, key) == Some(s')
    ensures s'.sent == s.sent + [x] && Faithful(p, s.attempted, x)
  {
    x := s'.sent[|s.sent|];
  }

  lemma SentOk(p: Plan, s: State, a: Action, s': State)
    requires ContentInv(p, s) && Next(p, s, a) == Some(s') && s.attempted <= s'.attempted
    ensures AllFaithful(p, s'.attempted, s'.sent)
  {
    match a
    case Send(w) =>
      assert WorkerOk(p, s.attempted, s.workers[w]);
      assert Faithful(p, s.attempted, FoundBy(s.workers[w])[0]);
      FaithfulAppend(p, s.attempted, s.sent, s.workers[w].found[0]);
    case CleanupSend(key) =>
      var x := CleanupFaithful(p, s, key, s');
      FaithfulAppend(p, s.attempted, s.sent, x);
    case _ =>
      FaithfulGrows(p, s.attempted, s'.attempted, s.sent);
  }

  lemma NextKeepsContent(p: Plan, s: State, a: Action)
    requires ContentInv(p, s) && Next(p, s, a).Some?
    ensures ContentInv(p, Next(p, s, a).value)
  {
    var s' := Next(p, s, a).value;
    MapShrinks(p, s, a, s');
    SentOk(p, s, a, s');
    forall w | 0 <= w < |s'.workers| ensures WorkerOk(p, s'.attempted, s'.workers[w]) {
      WorkersOk(p, s, a, s', w);
    }
  }

  /** Nothing is ever added to the map, nor to the workers. */
  lemma MapShrinks(p: Plan, s: State, a: Action, s': State)
    requires Next(p, s, a) == Some(s')
    ensures |s'.workers| == |s.workers| && s.attempted <= s'.attempted
    ensures forall k :: k in s'.tabMap ==> k in s.tabMap && s'.tabMap[k] == s.tabMap[k]
  {
  }

  lemma WorkersOk(p: Plan, s: State, a: Action, s': State, w: nat)
    requires ContentInv(p, s) && Next(p, s, a) == Some(s')
    requires w < |s.workers| == |s'.workers| && s.attempted <= s'.attempted
    ensures WorkerOk(p, s'.attempted, s'.workers[w])
  {
    if s'.workers[w] != s.workers[w] {
      ActorOk(p, s, a, s', w);
    } else {
      WorkerOkGrows(p, s.attempted, s'.attempted, s.workers[w]);
    }
  }

  lemma {:induction false} ExecContent(p: Plan, acts: seq<Action>)
    requires Exec(p, acts).Some?
    ensures ContentInv(p, Exec(p, acts).value)
  {
    if acts != [] {
      ExecContent(p, acts[..|acts| - 1]);
      NextKeepsContent(p, Exec(p, acts[..|acts| - 1]).value, acts[|acts| - 1]);
    }
  }

  /**
   In every run a pair leaves a worker only after the TABLE statement that releases it was
   attempted: the table's own statement or, for old sources, that of its partition root.
   */
  lemma SentAfterAttempt(p: Plan, acts: seq<Action>, n: nat)
    requires Exec(p, acts).Some? && n < |Exec(p, acts).value.sent| && Exec(p, acts).value.sent[n].cause.Some?
    ensures var (x, s) := (Exec(p, acts).value.sent[n], Exec(p, acts).value);
      && x.cause.value in s.attempted && x.cause.value < |p.statements| && p.statements[x.cause.value].isTable
      && Releases(p, p.statements[x.cause.value], Name(x.pair.dest.schema, x.pair.dest.name))
  {
    ExecContent(p, acts);
    var x := Exec(p, acts).value.sent[n];
    assert Faithful(p, Exec(p, acts).value.attempted, x);
    TargetsAreReleased(p, p.statements[x.cause.value], Name(x.pair.dest.schema, x.pair.dest.name));
  }

  // ------------------------------------------------------------ the channel never blocks

  lemma {:induction false} DistinctSent(l: seq<Sent>, keys: set<string>)
    requires forall k: string :: Times(l, k) <= One(k in keys)
    ensures |l| <= |keys|
  {
    if l != [] {
      var rest, x := l[..|l| - 1], l[|l| - 1].key;
      assert Times(l, x) >= 1;
      forall k: string ensures Times(rest, k) <= One(k in keys - {x}) {
        assert Times(l, k) == Times(rest, k) + One(k == x);
      }
      DistinctSent(rest, keys - {x});
    }
  }

  /** An entry still to be sent leaves room for itself. */
  lemma RoomForUnsent(p: Plan, acts: seq<Action>, key: string)
    requires Exec(p, acts).Some? && p.capacity >= |p.tabMap| && key in p.tabMap
    requires Times(Exec(p, acts).value.sent, key) == 0
    ensures HasRoom(p, Exec(p, acts).value)
  {
    var s := Exec(p, acts).value;
    forall k: string ensures Times(s.sent, k) <= One(k in p.tabMap.Keys - {key}) {
      ExecConserves(p, acts, k);
    }
    DistinctSent(s.sent, p.tabMap.Keys - {key});
    ExecConserves(p, acts, key);
  }

  lemma {:induction false} HeldAtLeast(ws: seq<Worker>, w: nat, k: string)
    requires w < |ws|
    ensures HeldTimes(ws, k) >= Times(FoundBy(ws[w]), k)
  {
    if w < |ws| - 1 {
      HeldAtLeast(ws[..|ws| - 1], w, k);
    }
  }

  /**
   With a channel at least as large as the table map, no send of a worker ever has to wait,
   even if no copier receives anything.
   */
  lemma WorkerNeverBlocks(p: Plan, acts: seq<Action>, w: nat)
    requires Exec(p, acts).Some? && p.capacity >= |p.tabMap|
    requires w < |Exec(p, acts).value.workers| && Exec(p, acts).value.workers[w].Sending?
    requires Exec(p, acts).value.workers[w].found != []
    ensures Next(p, Exec(p, acts).value, Send(w)).Some?
  {
    var s := Exec(p, acts).value;
    ExecConserves(p, acts, s.workers[w].found[0].key);
    HeldIsUnsent(p, s, w);
    RoomForUnsent(p, acts, s.workers[w].found[0].key);
  }

  lemma HeldIsUnsent(p: Plan, s: State, w: nat)
    requires w < |s.workers| && s.workers[w].Sending? && s.workers[w].found != []
    requires Conserved(p, s, s.workers[w].found[0].key)
    ensures s.workers[w].found[0].key in p.tabMap && Times(s.sent, s.workers[w].found[0].key) == 0
  {
    var f := s.workers[w].found;
    var k := f[0].key;
    HeldAtLeast(s.workers, w, k);
    assert f == [f[0]] + f[1..];
    TimesConcat([f[0]], f[1..], k);
    TimesOne(f[0], k);
  }

  /** ... and neither has a send of the cleanup. */
  lemma CleanupNeverBlocks(p: Plan, acts: seq<Action>, k: string)
    requires Exec(p, acts).Some? && p.capacity >= |p.tabMap|
    requires Exec(p, acts).value.stage.CleaningUp? && k in Exec(p, acts).value.stage.todo
    requires k in p.tabMap ==> Decode(p.tabMap[k]).Some? && DecodeKey(k).Some?
    ensures Next(p, Exec(p, acts).value, CleanupSend(k)).Some?
  {
    TodoIsUnsent(p, acts, k);
    RoomForUnsent(p, acts, k);
  }

  /** In every run the channel holds at most as many pairs as it was made for. */
  lemma {:induction false} WithinCapacity(p: Plan, acts: seq<Action>, s: State)
    requires Exec(p, acts) == Some(s)
    ensures s.received <= |s.sent| <= s.received + p.capacity
  {
    if acts != [] {
      var n := |acts| - 1;
      WithinCapacity(p, acts[..n], Exec(p, acts[..n]).value);
      NextWithin(p, Exec(p, acts[..n]).value, acts[n], s);
    }
  }

  lemma NextWithin(p: Plan, s: State, a: Action, s': State)
    requires Next(p, s, a) == Some(s') && s.received <= |s.sent| <= s.received + p.capacity
    ensures s'.received <= |s'.sent| <= s'.received + p.capacity
  {
  }

  /** What the cleanup has still to do is as it was in the beginning, and unsent. */
  lemma TodoIsUnsent(p: Plan, acts: seq<Action>, k: string)
    requires Exec(p, acts).Some? && Exec(p, acts).value.stage.CleaningUp? && k in Exec(p, acts).value.stage.todo
    ensures
      var s := Exec(p, acts).value;
      && k in p.tabMap && k in s.tabMap && s.tabMap[k] == p.tabMap[k] && Times(s.sent, k) == 0
  {
    ExecConserves(p, acts, k);
    ExecContent(p, acts);
  }

  // ------------------------------------------------------------ end to end

  ghost predicate AllDotFree(ts: seq<Table>) {
    forall i :: 0 <= i < |ts| ==> DotFree(ts[i])
  }

  /** Whoever sends it, the entry of table `i` is sent as exactly that pair of tables. */
  lemma SentPairIsRight(p: Plan, acts: seq<Action>, src: seq<Table>, dest: seq<Table>, i: nat, n: nat)
    requires Exec(p, acts).Some? && MapsTables(p.tabMap, src, dest) && AllDotFree(src) && AllDotFree(dest)
    requires i < |src| && n < |Exec(p, acts).value.sent| && Exec(p, acts).value.sent[n].key == Keys(dest)[i]
    ensures
      var pair := Exec(p, acts).value.sent[n].pair;
      pair.src == src[i] && pair.dest == Table(dest[i].schema, dest[i].name, 0, false)
  {
    ExecContent(p, acts);
    var s := Exec(p, acts).value;
    assert Faithful(p, s.attempted, s.sent[n]);
    assert DotFree(src[i]) && DotFree(dest[i]);
    FaithfulIsRight(p, s.attempted, s.sent[n], src[i], dest[i]);
  }

  lemma FaithfulIsRight(p: Plan, attempted: set<nat>, x: Sent, src: Table, dest: Table)
    requires Faithful(p, attempted, x) && x.key == Key(dest) && p.tabMap[x.key] == Encode(src)
    requires DotFree(src) && DotFree(dest)
    ensures x.pair == TablePair(src, Dest(dest.schema, dest.name))
  {
    RoundTripIff(src);
    KeyRoundTripIff(dest.schema, dest.name);
    if x.cause.Some? {
      QualifyInjective(x.pair.dest.schema, x.pair.dest.name, dest.schema, dest.name);
    }
  }

  ghost predicate SentAs(x: Sent, src: seq<Table>, dest: seq<Table>, i: nat)
    requires i < |src| == |dest|
  {
    x.key == Keys(dest)[i] && x.pair == TablePair(src[i], Dest(dest[i].schema, dest[i].name))
  }

  ghost predicate IsSomeTable(x: Sent, src: seq<Table>, dest: seq<Table>) {
    |src| == |dest| && exists i: nat :: i < |src| && SentAs(x, src, dest, i)
  }

  /**
   In every run of workers and cleanup that ends, for dot-free names and distinct
   destinations: every table is sent exactly once, with its own source, tuple count and
   replication flag, and nothing else is sent.
   */
  lemma EveryTableSentOnce(p: Plan, acts: seq<Action>, src: seq<Table>, dest: seq<Table>)
    requires Exec(p, acts).Some? && Exec(p, acts).value.stage.Closed?
    requires MapsTables(p.tabMap, src, dest) && AllDotFree(src) && AllDotFree(dest)
    ensures forall i :: 0 <= i < |src| ==> Times(Exec(p, acts).value.sent, Keys(dest)[i]) == 1
    ensures forall x :: x in Exec(p, acts).value.sent ==> IsSomeTable(x, src, dest)
  {
    var s := Exec(p, acts).value;
    forall i | 0 <= i < |src| ensures Times(s.sent, Keys(dest)[i]) == 1 {
      SentExactlyOnce(p, acts, Keys(dest)[i]);
    }
    forall x | x in s.sent ensures IsSomeTable(x, src, dest) {
      var n: nat :| n < |s.sent| && s.sent[n] == x;
      var i := SentIsSomeTable(p, acts, src, dest, n);
      SentPairIsRight(p, acts, src, dest, i, n);
      assert SentAs(s.sent[n], src, dest, i);
    }
  }

  lemma SentIsSomeTable(p: Plan, acts: seq<Action>, src: seq<Table>, dest: seq<Table>, n: nat) returns (i: nat)
    requires Exec(p, acts).Some? && MapsTables(p.tabMap, src, dest) && n < |Exec(p, acts).value.sent|
    ensures i < |src| && Exec(p, acts).value.sent[n].key == Keys(dest)[i]
  {
    ExecContent(p, acts);
    assert Faithful(p, Exec(p, acts).value.attempted, Exec(p, acts).value.sent[n]);
    i :| 0 <= i < |src| && Exec(p, acts).value.sent[n].key == Keys(dest)[i];
  }
}
