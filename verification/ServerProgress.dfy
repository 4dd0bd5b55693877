/**
 The listening helper comes to an end and says the truth about it (helper/server.go,
 helper/helper.go handleListen): only boundedly many things can happen besides its own polling;
 when nothing else can happen any more, polling ends; and the result is nil exactly when nothing
 failed.
 */
module ServerProgress {
  import opened Wrappers
  import opened RecordReader
  import FiniteSets
  import opened MergeServer
  import H = MergeHandlers

  // ------------------------------------------------------------ an error ends the wait

  /** What handleListen does on its own after serving has begun. */
  predicate IsPoll(a: Action) {
    a.PollError? || a.PollDone? || a.Return?
  }

  lemma OneMoreAction(c: H.Config, acts: seq<Action>, s: Server, a: Action, s': Server) returns (acts': seq<Action>)
    requires |c.streams| == |c.oracles| == |s.h.phases| && Exec(c, acts) == Some(s) && Next(c, s, a) == Some(s')
    ensures acts' == acts + [a] && Exec(c, acts') == Some(s')
  {
    acts' := acts + [a];
    assert acts'[..|acts|] == acts;
  }

  /** There is a reason to stop waiting. */
  predicate Decided(s: Server) {
    s.h.err.Some? || s.h.numFinished == |s.h.phases|
  }

  /** The last step. */
  lemma Returns(c: H.Config, acts: seq<Action>, s: Server) returns (polls: seq<Action>)
    requires c.Valid() && Exec(c, acts) == Some(s) && s.main.Done?
    ensures |polls| == 1 && (forall k :: 0 <= k < |polls| ==> IsPoll(polls[k]))
    ensures Exec(c, acts + polls) == Some(s.(main := Returned(s.h.err)))
  {
    polls := [Return];
    var acts' := OneMoreAction(c, acts, s, Return, s.(main := Returned(s.h.err)));
  }

  lemma ReturnsAfterCheck(c: H.Config, acts: seq<Action>, s: Server) returns (polls: seq<Action>)
    requires c.Valid() && Exec(c, acts) == Some(s) && s.main.CheckingError? && Decided(s)
    ensures |polls| <= 3 && (forall k :: 0 <= k < |polls| ==> IsPoll(polls[k]))
    ensures Exec(c, acts + polls) == Some(s.(main := Returned(s.h.err)))
  {
    if s.h.err.Some? {
      var acts' := OneMoreAction(c, acts, s, PollError, s.(main := Done));
      var last := Returns(c, acts', s.(main := Done));
      polls := [PollError] + last;
      assert acts + polls == acts' + last;
    } else {
      var s1 := s.(main := CheckingDone);
      var acts1 := OneMoreAction(c, acts, s, PollError, s1);
      var acts2 := OneMoreAction(c, acts1, s1, PollDone, s.(main := Done));
      var last := Returns(c, acts2, s.(main := Done));
      polls := [PollError, PollDone] + last;
      assert acts + polls == acts2 + last;
    }
  }

  /**
   In every run, once an error is set or all connections are counted, polling alone makes the
   helper return, in at most four steps, and it returns the error that is set, or nil if none is.
   */
  lemma PollingEnds(c: H.Config, acts: seq<Action>, s: Server) returns (polls: seq<Action>)
    requires c.Valid() && Exec(c, acts) == Some(s) && Serving(s) && !s.main.Returned? && Decided(s)
    ensures |polls| <= 4 && (forall k :: 0 <= k < |polls| ==> IsPoll(polls[k]))
    ensures Exec(c, acts + polls) == Some(s.(main := Returned(s.h.err)))
  {
    if s.main.Done? {
      polls := Returns(c, acts, s);
    } else if s.main.CheckingError? {
      polls := ReturnsAfterCheck(c, acts, s);
    } else {
      polls := ReturnsAfterCount(c, acts, s);
    }
  }

  lemma ReturnsAfterCount(c: H.Config, acts: seq<Action>, s: Server) returns (polls: seq<Action>)
    requires c.Valid() && Exec(c, acts) == Some(s) && s.main.CheckingDone? && Decided(s)
    ensures |polls| <= 4 && (forall k :: 0 <= k < |polls| ==> IsPoll(polls[k]))
    ensures Exec(c, acts + polls) == Some(s.(main := Returned(s.h.err)))
  {
    if s.h.numFinished == |s.h.phases| {
      var acts' := OneMoreAction(c, acts, s, PollDone, s.(main := Done));
      var last := Returns(c, acts', s.(main := Done));
      polls := [PollDone] + last;
      assert acts + polls == acts' + last;
    } else {
      var s1 := s.(main := CheckingError);
      var acts' := OneMoreAction(c, acts, s, PollDone, s1);
      var last := ReturnsAfterCheck(c, acts', s1);
      polls := [PollDone] + last;
      assert acts + polls == acts' + last;
    }
  }

  // ------------------------------------------------------------ when nothing else can happen

  /** Only polling is left. */
  ghost predicate Settled(c: H.Config, s: Server)
    requires |s.h.phases| == |c.streams| == |c.oracles|
  {
    forall a: Action :: !IsPoll(a) ==> Next(c, s, a).None?
  }

  /** A handler that is connected and not finished can act. */
  lemma HandlerCanAct(c: H.Config, h: H.Handlers, i: nat) returns (b: H.Act)
    requires H.Inv(c, h) && i < |h.phases| && !h.phases[i].Waiting? && !h.phases[i].Finished?
    ensures H.Step(c, h, b).Some?
  {
    assert H.PhaseOk(c.In(i), h.phases[i], h.err);
    match h.phases[i]
    case Connected => b := H.Create(i, true);
    case Reading(v) => b := H.Read(i);
    case Writing(_, _, _) => b := H.Write(i, None);
    case Failing(_) => b := H.Report(i);
    case Closing(_, _) => b := H.Finish(i);
  }

  /** Accepting stops with an error set. */
  predicate StopsWithError(s: Server) {
    s.accepting.AcceptStopped? ==> s.h.err.Some?
  }

  lemma NextStopped(c: H.Config, s: Server, a: Action, s': Server)
    requires Inv(c, s) && Next(c, s, a) == Some(s') && StopsWithError(s)
    ensures StopsWithError(s')
  {
    if a.Handle? {
      HandleKeeps(c, s.h, a.a);
    }
  }

  lemma {:induction false} ExecStopped(c: H.Config, acts: seq<Action>)
    requires c.Valid() && Exec(c, acts).Some?
    ensures StopsWithError(Exec(c, acts).value)
  {
    if acts != [] {
      var before := acts[..|acts| - 1];
      ExecStopped(c, before);
      ExecInv(c, before);
      NextStopped(c, Exec(c, before).value, acts[|acts| - 1], Exec(c, acts).value);
    }
  }

  lemma UnfinishedIsUnsettled(c: H.Config, s: Server, i: nat)
    requires Inv(c, s) && i < |s.h.phases| && !s.h.phases[i].Waiting? && !s.h.phases[i].Finished?
    ensures !Settled(c, s)
  {
    var a := ServerCanHandle(c, s, i);
    NotSettled(c, s, a);
  }

  lemma ServerCanHandle(c: H.Config, s: Server, i: nat) returns (a: Action)
    requires H.Inv(c, s.h) && i < |s.h.phases| && !s.h.phases[i].Waiting? && !s.h.phases[i].Finished?
    ensures !IsPoll(a) && Next(c, s, a).Some?
  {
    var b := HandlerCanAct(c, s.h, i);
    a := Handle(b);
  }

  lemma NotSettled(c: H.Config, s: Server, a: Action)
    requires |s.h.phases| == |c.streams| == |c.oracles| && !IsPoll(a) && Next(c, s, a).Some?
    ensures !Settled(c, s)
  {
  }

  lemma SettledAccepts(c: H.Config, s: Server)
    requires Inv(c, s) && Settled(c, s) && Serving(s)
    ensures s.accepting.AcceptStopped? || s.accepted == |s.h.phases|
  {
    assert Next(c, s, AcceptReport).None? && Next(c, s, AcceptFail).None?;
  }

  /** A server that is serving and can do nothing but poll has a reason to stop. */
  lemma SettledIsDecided(c: H.Config, acts: seq<Action>, s: Server)
    requires c.Valid() && Exec(c, acts) == Some(s) && Serving(s) && Settled(c, s)
    ensures Decided(s)
  {
    ExecInv(c, acts);
    ExecStopped(c, acts);
    SettledAccepts(c, s);
    if s.accepted == |s.h.phases| {
      forall i: nat | i < |s.h.phases| ensures s.h.phases[i].Finished? {
        if !s.h.phases[i].Finished? {
          UnfinishedIsUnsettled(c, s, i);
        }
      }
      AllFinishedCount(c, s.h);
    }
  }

  lemma AllFinishedCount(c: H.Config, h: H.Handlers)
    requires H.Inv(c, h) && forall i: nat :: i < |h.phases| ==> h.phases[i].Finished?
    ensures h.numFinished == |h.phases|
  {
    assert H.FinishedSet(h.phases) == FiniteSets.Range(|h.phases|);
  }

  // ------------------------------------------------------------ only boundedly much can happen

  function PhaseWork(m: Input, p: H.Phase): int {
    match p
    case Waiting => 2 * |m.x| + 7
    case Connected => 2 * |m.x| + 6
    case Reading(v) => 2 * (|m.x| - v.consumed) + 5
    case Writing(_, v, _) => 2 * (|m.x| - v.consumed) + 6
    case Failing(_) => 3
    case Closing(_, _) => 2
    case Finished(_, _) => 0
  }

  function HandlersWork(c: H.Config, phases: seq<H.Phase>): int
    requires |phases| <= |c.streams| == |c.oracles|
  {
    if phases == [] then 0
    else
      var n := |phases| - 1;
      HandlersWork(c, phases[..n]) + PhaseWork(c.In(n), phases[n])
  }

  function AcceptWork(a: Accepting): nat {
    match a case Listening => 2 case AcceptFailed => 1 case AcceptStopped => 0
  }

  function MainWork(m: Main): nat {
    match m case Starting => 2 case Announcing => 1 case _ => 0
  }

  /** More than the number of actions besides polling that are still possible. */
  function Work(c: H.Config, s: Server): int
    requires |s.h.phases| == |c.streams| == |c.oracles|
  {
    HandlersWork(c, s.h.phases) + AcceptWork(s.accepting) + MainWork(s.main)
  }

  lemma {:induction false} WorkUpdate(c: H.Config, phases: seq<H.Phase>, i: nat, p: H.Phase)
    requires i < |phases| <= |c.streams| == |c.oracles|
    ensures HandlersWork(c, phases[i := p]) - PhaseWork(c.In(i), p) ==
      HandlersWork(c, phases) - PhaseWork(c.In(i), phases[i])
  {
    var n := |phases| - 1;
    if i < n {
      WorkUpdate(c, phases[..n], i, p);
      assert phases[i := p][..n] == phases[..n][i := p];
    } else {
      assert phases[i := p][..n] == phases[..n];
    }
  }

  lemma LocalWorks(m: Input, p: H.Phase, a: H.Act, err: Option<H.Fault>)
    requires m.cap > 0 && H.PhaseOk(m, p, err) && H.Local(m, p, a).Some?
    ensures PhaseWork(m, H.Local(m, p, a).value.next) < PhaseWork(m, p)
  {
  }

  lemma HandlerWorks(c: H.Config, h: H.Handlers, b: H.Act, h': H.Handlers)
    requires H.Inv(c, h) && H.Step(c, h, b) == Some(h')
    ensures |h'.phases| == |h.phases| && HandlersWork(c, h'.phases) < HandlersWork(c, h.phases)
  {
    assert H.PhaseOk(c.In(b.i), h.phases[b.i], h.err);
    LocalWorks(c.In(b.i), h.phases[b.i], b, h.err);
    WorkUpdate(c, h.phases, b.i, h'.phases[b.i]);
  }

  lemma AcceptWorks(c: H.Config, s: Server, s': Server)
    requires |s.h.phases| == |c.streams| == |c.oracles| && Next(c, s, Accept) == Some(s')
    ensures |s'.h.phases| == |s.h.phases| && Work(c, s') < Work(c, s)
  {
    WorkUpdate(c, s.h.phases, s.accepted, H.Connected);
  }

  lemma HandleWorks(c: H.Config, s: Server, b: H.Act, s': Server)
    requires Inv(c, s) && Next(c, s, Handle(b)) == Some(s')
    ensures |s'.h.phases| == |s.h.phases| && Work(c, s') < Work(c, s)
  {
    HandlerWorks(c, s.h, b, s'.h);
  }

  lemma OtherWorks(c: H.Config, s: Server, a: Action, s': Server)
    requires |s.h.phases| == |c.streams| == |c.oracles| && Next(c, s, a) == Some(s') && !a.Handle? && !a.Accept?
    ensures s'.h.phases == s.h.phases
    ensures if IsPoll(a) then Work(c, s') == Work(c, s) else Work(c, s') < Work(c, s)
  {
  }

  lemma ActionWorks(c: H.Config, s: Server, a: Action, s': Server)
    requires Inv(c, s) && Next(c, s, a) == Some(s')
    ensures |s'.h.phases| == |c.streams|
    ensures if IsPoll(a) then Work(c, s') == Work(c, s) else Work(c, s') < Work(c, s)
  {
    match a
    case Handle(b) => HandleWorks(c, s, b, s');
    case Accept => AcceptWorks(c, s, s');
    case _ => OtherWorks(c, s, a, s');
  }

  /** Actions of a run besides polling. */
  function Events(acts: seq<Action>): nat {
    if acts == [] then 0 else Events(acts[..|acts| - 1]) + if IsPoll(acts[|acts| - 1]) then 0 else 1
  }

  lemma {:induction false} EventsAreWorkDone(c: H.Config, acts: seq<Action>)
    requires c.Valid() && Exec(c, acts).Some?
    ensures Events(acts) + Work(c, Exec(c, acts).value) <= Work(c, InitServer(c))
  {
    if acts != [] {
      var before := acts[..|acts| - 1];
      EventsAreWorkDone(c, before);
      ExecInv(c, before);
      ActionWorks(c, Exec(c, before).value, acts[|acts| - 1], Exec(c, acts).value);
    }
  }

  lemma {:induction false} WorkIsPositive(c: H.Config, h: H.Handlers, n: nat)
    requires H.Inv(c, h) && n <= |h.phases|
    ensures HandlersWork(c, h.phases[..n]) >= 0
  {
    if n > 0 {
      WorkIsPositive(c, h, n - 1);
      assert h.phases[..n][..n - 1] == h.phases[..n - 1];
      assert H.PhaseOk(c.In(n - 1), h.phases[n - 1], h.err);
    }
  }

  /**
   Every run has a bounded number of actions besides polling; and where nothing but polling is
   left, and serving has begun, polling makes the helper return what the error field says.
   */
  lemma ServerComesToAnEnd(c: H.Config, acts: seq<Action>, s: Server) returns (polls: seq<Action>)
    requires c.Valid() && Exec(c, acts) == Some(s)
    ensures Events(acts) <= Work(c, InitServer(c))
    ensures Settled(c, s) && !s.main.Returned? ==>
      && (forall k :: 0 <= k < |polls| ==> IsPoll(polls[k]))
      && Exec(c, acts + polls) == Some(s.(main := Returned(s.h.err)))
  {
    EventsAreWorkDone(c, acts);
    ExecInv(c, acts);
    WorkIsPositive(c, s.h, |s.h.phases|);
    assert s.h.phases[..|s.h.phases|] == s.h.phases;
    polls := [];
    if Settled(c, s) && !s.main.Returned? {
      assert Next(c, s, Start(true)).None? && Next(c, s, Announce(true)).None?;
      SettledIsDecided(c, acts, s);
      polls := PollingEnds(c, acts, s);
    }
  }

  // ------------------------------------------------------------ nil exactly when nothing failed

  /** Something went wrong: starting, announcing, accepting, or a handler's set-up, write or read. */
  predicate IsFailure(a: Action) {
    match a
    case Start(ok) => !ok
    case Announce(ok) => !ok
    case AcceptFail => true
    case AcceptReport => true
    case Handle(b) =>
      (match b
       case Create(_, ok) => !ok
       case Write(_, short) => short.Some?
       case Report(_) => true
       case _ => false)
    case _ => false
  }

  predicate AnyFailure(acts: seq<Action>) {
    exists k :: 0 <= k < |acts| && IsFailure(acts[k])
  }

  predicate SomeFailing(h: H.Handlers) {
    exists i :: 0 <= i < |h.phases| && h.phases[i].Failing?
  }

  predicate ReturnedError(s: Server) {
    s.main.Returned? && s.main.err.Some?
  }

  /** A failure is on its way to the result, and no error comes from nowhere. */
  ghost predicate FailureInv(s: Server, failed: bool) {
    if failed then s.h.err.Some? || ReturnedError(s) || s.accepting.AcceptFailed? || SomeFailing(s.h)
    else s.h.err.None? && !ReturnedError(s) && s.accepting.Listening?
  }

  lemma HandleKeepsFailure(c: H.Config, h: H.Handlers, b: H.Act, h': H.Handlers)
    requires |h.phases| == |c.streams| == |c.oracles| && H.Step(c, h, b) == Some(h')
    ensures IsFailure(Handle(b)) ==> h'.err.Some? || SomeFailing(h')
    ensures h.err.Some? || SomeFailing(h) ==> h'.err.Some? || SomeFailing(h')
    ensures !b.Report? ==> h'.err == h.err
  {
    assert h'.phases[b.i].Failing? ==> SomeFailing(h');
    if SomeFailing(h) {
      var i :| 0 <= i < |h.phases| && h.phases[i].Failing?;
      assert i != b.i ==> h'.phases[i] == h.phases[i];
    }
  }

  lemma FailureKept(c: H.Config, s: Server, a: Action, s': Server, failed: bool)
    requires |s.h.phases| == |c.streams| == |c.oracles| && Next(c, s, a) == Some(s') && FailureInv(s, failed)
    ensures FailureInv(s', failed || IsFailure(a))
  {
    if a.Handle? {
      HandleKeepsFailure(c, s.h, a.a, s'.h);
    } else if a.Accept? && SomeFailing(s.h) {
      var i :| 0 <= i < |s.h.phases| && s.h.phases[i].Failing?;
      assert s'.h.phases[i].Failing?;
    }
  }

  lemma {:induction false} ExecFailure(c: H.Config, acts: seq<Action>)
    requires c.Valid() && Exec(c, acts).Some?
    ensures FailureInv(Exec(c, acts).value, AnyFailure(acts))
  {
    if acts != [] {
      var before, a := acts[..|acts| - 1], acts[|acts| - 1];
      ExecFailure(c, before);
      FailureKept(c, Exec(c, before).value, a, Exec(c, acts).value, AnyFailure(before));
      OneMoreFailure(before, a);
      assert acts == before + [a];
    }
  }

  lemma OneMoreFailure(acts: seq<Action>, a: Action)
    ensures AnyFailure(acts + [a]) <==> AnyFailure(acts) || IsFailure(a)
  {
    var t := acts + [a];
    assert t[|acts|] == a && forall k :: 0 <= k < |acts| ==> t[k] == acts[k];
  }

  /** In every run that returns, the result is nil if and only if nothing failed. */
  lemma NilIffNothingFailed(c: H.Config, acts: seq<Action>, s: Server)
    requires c.Valid() && Exec(c, acts) == Some(s) && s.main.Returned?
    ensures s.main.err.None? <==> !AnyFailure(acts)
  {
    ExecFailure(c, acts);
    ExecInv(c, acts);
    if s.main.err.None? {
      H.FullCount(c, s.h);
      FullCountIsFinal(c, s, H.Finish(0));
    }
  }

  // ------------------------------------------------------------ which error is returned

  /** setError for `f`. */
  predicate Reports(a: Action, f: H.Fault) {
    match f
    case Listener => a == Start(false) || a == AcceptReport
    case Connection(i) => a == Handle(H.Report(i))
  }

  predicate IsReport(a: Action) {
    a == Start(false) || a.AcceptReport? || (a.Handle? && a.a.Report?)
  }

  /** The last report of a run is for `f`. */
  ghost predicate LatestReport(acts: seq<Action>, f: H.Fault) {
    exists k :: 0 <= k < |acts| && Reports(acts[k], f) && forall j :: k < j < |acts| ==> !IsReport(acts[j])
  }

  lemma LatestOneMore(acts: seq<Action>, a: Action, f: H.Fault)
    ensures LatestReport(acts + [a], f) <==> Reports(a, f) || (!IsReport(a) && LatestReport(acts, f))
  {
    var t := acts + [a];
    assert t[|acts|] == a && forall k :: 0 <= k < |acts| ==> t[k] == acts[k];
    if LatestReport(acts, f) && !IsReport(a) {
      var k :| 0 <= k < |acts| && Reports(acts[k], f) && forall j :: k < j < |acts| ==> !IsReport(acts[j]);
      assert Reports(t[k], f);
    }
    if Reports(a, f) {
      assert Reports(t[|acts|], f);
    }
  }

  lemma NextReports(c: H.Config, s: Server, a: Action, s': Server, f: H.Fault)
    requires |s.h.phases| == |c.streams| == |c.oracles| && Next(c, s, a) == Some(s')
    ensures s'.h.err == Some(f) <==> Reports(a, f) || (!IsReport(a) && s.h.err == Some(f))
  {
    if a.Handle? && a.a.Report? {
      assert a == Handle(H.Report(a.a.i));
    }
  }

  /** In every run the error field holds the latest report: a later one replaces an earlier one. */
  lemma {:induction false} ErrorIsLatest(c: H.Config, acts: seq<Action>, s: Server, f: H.Fault)
    requires c.Valid() && Exec(c, acts) == Some(s)
    ensures s.h.err == Some(f) <==> LatestReport(acts, f)
  {
    if acts != [] {
      var before, a := acts[..|acts| - 1], acts[|acts| - 1];
      var s0 := Exec(c, before).value;
      ErrorIsLatest(c, before, s0, f);
      NextReports(c, s0, a, s, f);
      LatestOneMore(before, a, f);
      assert acts == before + [a];
    }
  }

  // ------------------------------------------------------------ the dialling helper

  lemma {:induction false} ClientExecOk(c: H.Config, acts: seq<ClientAction>)
    requires c.Valid() && ClientExec(c, acts).Some?
    ensures
      var s := ClientExec(c, acts).value;
      && H.Inv(c, s.h) && (forall i: nat :: i < |s.h.phases| ==> !s.h.phases[i].Waiting?)
      && (s.result.Some? ==> s.h.numFinished == |s.h.phases| && s.result == Some(s.h.err))
  {
    if acts == [] {
      assert H.FinishedSet(InitClient(c).h.phases) == {};
    } else {
      var before, a := acts[..|acts| - 1], acts[|acts| - 1];
      var s := ClientExec(c, before).value;
      ClientExecOk(c, before);
      if a.Goroutine? {
        HandleKeeps(c, s.h, a.a);
        if s.result.Some? {
          H.FullCount(c, s.h);
          H.FinishedIsFinal(c, s.h, a.a);
        }
      }
    }
  }

  /** Until it has returned the dialling helper can act: a goroutine, or the return itself, with the error set. */
  lemma ClientCanAct(c: H.Config, acts: seq<ClientAction>, s: Client) returns (a: ClientAction)
    requires c.Valid() && ClientExec(c, acts) == Some(s) && s.result.None?
    ensures ClientNext(c, s, a).Some?
    ensures (forall i: nat :: i < |s.h.phases| ==> s.h.phases[i].Finished?) ==>
      ClientNext(c, s, a) == Some(s.(result := Some(s.h.err)))
  {
    ClientExecOk(c, acts);
    if i: nat :| i < |s.h.phases| && !s.h.phases[i].Finished? {
      var b := HandlerCanAct(c, s.h, i);
      a := Goroutine(b);
    } else {
      AllFinishedCount(c, s.h);
      a := WaitAndReturn;
    }
  }

  predicate AnyClientFailure(acts: seq<ClientAction>) {
    exists k :: 0 <= k < |acts| && IsClientFailure(acts[k])
  }

  predicate IsClientFailure(a: ClientAction) {
    a.Goroutine? && IsFailure(Handle(a.a))
  }

  ghost predicate ClientFailureInv(h: H.Handlers, failed: bool) {
    if failed then h.err.Some? || SomeFailing(h) else h.err.None?
  }

  lemma ClientFailureKept(c: H.Config, s: Client, a: ClientAction, s': Client, failed: bool)
    requires |s.h.phases| == |c.streams| == |c.oracles| && ClientNext(c, s, a) == Some(s')
    requires ClientFailureInv(s.h, failed)
    ensures ClientFailureInv(s'.h, failed || IsClientFailure(a))
  {
    if a.Goroutine? {
      HandleKeepsFailure(c, s.h, a.a, s'.h);
    }
  }

  lemma {:induction false} ClientExecFailure(c: H.Config, acts: seq<ClientAction>)
    requires c.Valid() && ClientExec(c, acts).Some?
    ensures ClientFailureInv(ClientExec(c, acts).value.h, AnyClientFailure(acts))
  {
    if acts != [] {
      var before, a := acts[..|acts| - 1], acts[|acts| - 1];
      ClientExecFailure(c, before);
      ClientFailureKept(c, ClientExec(c, before).value, a, ClientExec(c, acts).value, AnyClientFailure(before));
      OneMoreClientFailure(before, a);
      assert acts == before + [a];
    }
  }

  lemma OneMoreClientFailure(acts: seq<ClientAction>, a: ClientAction)
    ensures AnyClientFailure(acts + [a]) <==> AnyClientFailure(acts) || IsClientFailure(a)
  {
    var t := acts + [a];
    assert t[|acts|] == a && forall k :: 0 <= k < |acts| ==> t[k] == acts[k];
  }

  /** In every run of the dialling helper that returns, the result is nil if and only if nothing failed. */
  lemma ClientNilIffNothingFailed(c: H.Config, acts: seq<ClientAction>, s: Client)
    requires c.Valid() && ClientExec(c, acts) == Some(s) && s.result.Some?
    ensures s.result.value.None? <==> !AnyClientFailure(acts)
  {
    ClientExecOk(c, acts);
    ClientExecFailure(c, acts);
    H.FullCount(c, s.h);
  }
}
