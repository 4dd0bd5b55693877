/**
 The two programs that run merge handlers: the listening helper (helper/server.go,
 helper/concurrent_server.go, helper/helper.go handleListen), which accepts an expected
 number of connections and polls for an error or a full count, and the dialling helper
 (helper/concurrent_client.go Run), which starts all handlers and waits for them.
 A run is any sequence of enabled actions; every theorem is about every run.
 */
module MergeServer {
  import opened Wrappers
  import opened RecordReader
  import opened FiniteSets
  import opened CsvRecords
  import H = MergeHandlers

  // ------------------------------------------------------------ the listening helper

  /** The accept loop: still listening, about to report an accept error, or done. */
  datatype Accepting = Listening | AcceptFailed | AcceptStopped

  /** handleListen: start, announce the port, serve, then poll until done and read the error. */
  datatype Main =
    | Starting
    | Announcing
    | CheckingError          // WaitForFinished, before reading the error
    | CheckingDone           // ... saw no error, before reading the counter
    | Done                   // WaitForFinished returned
    | Returned(err: Option<H.Fault>)

  datatype Server = Server(h: H.Handlers, accepted: nat, accepting: Accepting, main: Main)

  datatype Action =
    | Start(ok: bool)
    | Announce(ok: bool)
    | Accept
    | AcceptFail
    | AcceptReport
    | Handle(a: H.Act)
    | PollError
    | PollDone
    | Return

  function InitServer(c: H.Config): Server {
    Server(H.Handlers(seq(|c.streams|, _ => H.Waiting), None, 0, []), 0, Listening, Starting)
  }

  predicate Serving(s: Server) {
    !s.main.Starting? && !s.main.Announcing?
  }

  /** Performs one action; None when it is not enabled. */
  function Next(c: H.Config, s: Server, a: Action): Option<Server>
    requires |s.h.phases| == |c.streams| == |c.oracles|
  {
    match a
    case Start(ok) =>
      if !s.main.Starting? then None
      else if ok then Some(s.(main := Announcing))
      else Some(s.(h := s.h.(err := Some(H.Listener)), main := Returned(Some(H.Listener))))
    case Announce(ok) =>
      if !s.main.Announcing? then None
      else Some(s.(main := if ok then CheckingError else Returned(Some(H.Listener))))
    case Accept =>
      if Serving(s) && s.accepting.Listening? && s.accepted < |s.h.phases| && s.h.phases[s.accepted].Waiting? then
        Some(s.(h := s.h.(phases := s.h.phases[s.accepted := H.Connected]), accepted := s.accepted + 1))
      else None
    case AcceptFail =>
      if Serving(s) && s.accepting.Listening? && s.accepted < |s.h.phases| then
        Some(s.(accepting := AcceptFailed))
      else None
    case AcceptReport =>
      if s.accepting.AcceptFailed? then
        Some(s.(h := s.h.(err := Some(H.Listener)), accepting := AcceptStopped))
      else None
    case Handle(b) =>
      (match H.Step(c, s.h, b)
       case None => None
       case Some(h) => Some(s.(h := h)))
    case PollError =>
      if !s.main.CheckingError? then None
      else Some(s.(main := if s.h.err.Some? then Done else CheckingDone))
    case PollDone =>
      if !s.main.CheckingDone? then None
      else Some(s.(main := if s.h.numFinished == |s.h.phases| then Done else CheckingError))
    case Return =>
      if !s.main.Done? then None else Some(s.(main := Returned(s.h.err)))
  }

  /** What every reachable server state satisfies. */
  ghost predicate Inv(c: H.Config, s: Server) {
    && H.Inv(c, s.h)
    && s.accepted <= |s.h.phases|
    && (forall i: nat :: i < |s.h.phases| ==> (s.h.phases[i].Waiting? <==> i >= s.accepted))
    && (s.main.Done? ==> s.h.err.Some? || s.h.numFinished == |s.h.phases|)
    && (s.main == Returned(None) ==> s.h.numFinished == |s.h.phases| && s.h.err.None?)
    && (!s.accepting.Listening? ==> s.accepted < |s.h.phases|)
  }

  /** The states a sequence of actions leads to, from the initial state. */
  function Exec(c: H.Config, acts: seq<Action>): (s: Option<Server>)
    requires |c.streams| == |c.oracles|
    ensures s.Some? ==> |s.value.h.phases| == |c.streams|
  {
    if acts == [] then Some(InitServer(c))
    else
      var s := Exec(c, acts[..|acts| - 1]);
      if s.None? then None else Next(c, s.value, acts[|acts| - 1])
  }

  lemma InitInv(c: H.Config)
    requires c.Valid()
    ensures Inv(c, InitServer(c))
  {
    assert H.FinishedSet(InitServer(c).h.phases) == {};
  }

  /** What no handler action can do: leave or enter Waiting, clear an error, un-count a handler. */
  lemma HandleKeeps(c: H.Config, h: H.Handlers, b: H.Act)
    requires H.Inv(c, h) && H.Step(c, h, b).Some?
    ensures var h' := H.Step(c, h, b).value;
      && (forall i: nat :: i < |h.phases| ==> (h.phases[i].Waiting? <==> h'.phases[i].Waiting?))
      && (h.err.Some? ==> h'.err.Some?)
      && h.numFinished <= h'.numFinished <= |h.phases|
      && H.Inv(c, h')
  {
    H.StepKeepsInv(c, h, b);
    CountBounded(c, H.Step(c, h, b).value);
  }

  lemma CountBounded(c: H.Config, h: H.Handlers)
    requires H.Inv(c, h)
    ensures h.numFinished <= |h.phases|
  {
    SubsetSize(H.FinishedSet(h.phases), Range(|h.phases|));
  }

  /** A full count means that every connection was accepted, so nothing is left to happen. */
  lemma FullCountIsFinal(c: H.Config, s: Server, b: H.Act)
    requires Inv(c, s) && s.h.numFinished == |s.h.phases|
    ensures s.accepted == |s.h.phases| && s.accepting.Listening?
    ensures H.Step(c, s.h, b).None?
  {
    assert s.accepted < |s.h.phases| ==> s.h.phases[s.accepted].Waiting?;
    H.FullCount(c, s.h);
    H.FinishedIsFinal(c, s.h, b);
  }

  lemma NextKeepsInv(c: H.Config, s: Server, a: Action)
    requires Inv(c, s) && Next(c, s, a).Some?
    ensures Inv(c, Next(c, s, a).value)
  {
    if s.main == Returned(None) {
      FullCountIsFinal(c, s, if a.Handle? then a.a else H.Finish(0));
    }
    match a
    case Accept =>
      AcceptKeeps(c, s.h, s.accepted, Next(c, s, a).value.h);
    case Handle(b) =>
      HandleKeeps(c, s.h, b);
    case AcceptReport =>
      ErrorKeeps(c, s.h);
    case Start(_) =>
      ErrorKeeps(c, s.h);
    case _ =>
  }

  lemma AcceptKeeps(c: H.Config, h: H.Handlers, i: nat, h': H.Handlers)
    requires H.Inv(c, h) && i < |h.phases| && h.phases[i].Waiting? && h' == h.(phases := h.phases[i := H.Connected])
    ensures H.Inv(c, h')
  {
    H.FinishedOneMore(h.phases, i, H.Connected);
    forall j: nat | j < |h'.phases|
      ensures H.PhaseOk(c.In(j), h'.phases[j], h'.err)
      ensures H.Sent(c, h'.log, j) == c.streams[j][..H.At(h'.phases[j])]
    {
      assert H.PhaseOk(c.In(j), h.phases[j], h.err);
    }
  }

  lemma ErrorKeeps(c: H.Config, h: H.Handlers)
    requires H.Inv(c, h)
    ensures H.Inv(c, h.(err := Some(H.Listener)))
  {
    forall i: nat | i < |h.phases| ensures H.PhaseOk(c.In(i), h.phases[i], Some(H.Listener)) {
      H.PhaseOkKept(c.In(i), h.phases[i], h.err, Some(H.Listener));
    }
  }

  lemma {:induction false} ExecInv(c: H.Config, acts: seq<Action>)
    requires c.Valid() && Exec(c, acts).Some?
    ensures Inv(c, Exec(c, acts).value)
  {
    if acts == [] {
      InitInv(c);
    } else {
      ExecInv(c, acts[..|acts| - 1]);
      NextKeepsInv(c, Exec(c, acts[..|acts| - 1]).value, acts[|acts| - 1]);
    }
  }

  /** In every run the counters are ordered: finished <= accepted <= expected. */
  lemma CountersOrdered(c: H.Config, acts: seq<Action>)
    requires c.Valid() && Exec(c, acts).Some?
    ensures var s := Exec(c, acts).value; s.h.numFinished <= s.accepted <= |c.streams|
  {
    ExecInv(c, acts);
    var s := Exec(c, acts).value;
    forall i | i in H.FinishedSet(s.h.phases) ensures i in Range(s.accepted) {
      assert !s.h.phases[i].Waiting?;
    }
    SubsetSize(H.FinishedSet(s.h.phases), Range(s.accepted));
  }

  /** In every run, once an error is set it stays set. */
  lemma ErrorSticks(c: H.Config, acts: seq<Action>, a: Action)
    requires c.Valid() && Exec(c, acts).Some? && Next(c, Exec(c, acts).value, a).Some?
    requires Exec(c, acts).value.h.err.Some?
    ensures Next(c, Exec(c, acts).value, a).value.h.err.Some?
  {
    ExecInv(c, acts);
    if a.Handle? {
      HandleKeeps(c, Exec(c, acts).value.h, a.a);
    }
  }

  /**
   A nil result is never premature and never hides an error: in every run in which
   handleListen returns nil, all expected connections were accepted, read to end-of-file
   and written completely.
   */
  lemma NilMeansDrained(c: H.Config, acts: seq<Action>)
    requires c.Valid() && Exec(c, acts).Some? && Exec(c, acts).value.main == Returned(None)
    ensures var s := Exec(c, acts).value;
      && s.accepted == |c.streams|
      && H.AllDrained(c, s.h)
      && H.LogInBounds(c, s.h.log)
      && forall i: nat :: i < |c.streams| ==> H.Sent(c, s.h.log, i) == c.streams[i]
  {
    ExecInv(c, acts);
    CountersOrdered(c, acts);
    H.AllFinishedMeansDrained(c, Exec(c, acts).value.h);
  }

  lemma InitWhole(c: H.Config, h: H.Handlers)
    requires H.Mergeable(c) && H.Inv(c, h) && h.log == []
    requires forall i: nat :: i < |h.phases| ==> h.phases[i].Waiting? || h.phases[i].Connected?
    ensures H.WholeInv(c, h)
  {
  }

  lemma {:induction false} ExecWhole(c: H.Config, acts: seq<Action>)
    requires H.Mergeable(c) && Exec(c, acts).Some?
    ensures H.WholeInv(c, Exec(c, acts).value.h)
  {
    ExecInv(c, acts);
    if acts == [] {
      InitWhole(c, InitServer(c).h);
    } else {
      ExecWhole(c, acts[..|acts| - 1]);
      NextKeepsWhole(c, Exec(c, acts[..|acts| - 1]).value, acts[|acts| - 1]);
    }
  }

  lemma NextKeepsWhole(c: H.Config, s: Server, a: Action)
    requires H.WholeInv(c, s.h) && Next(c, s, a).Some? && H.Inv(c, Next(c, s, a).value.h)
    ensures H.WholeInv(c, Next(c, s, a).value.h)
  {
    var h' := Next(c, s, a).value.h;
    if a.Handle? {
      H.StepKeepsWhole(c, s.h, a.a);
    } else if a.Accept? {
      AcceptKeepsWhole(c, s.h, h', s.accepted);
    } else {
      SamePhasesKeepWhole(c, s.h, h');
    }
  }

  lemma SamePhasesKeepWhole(c: H.Config, h: H.Handlers, h': H.Handlers)
    requires H.WholeInv(c, h) && H.Inv(c, h') && h'.phases == h.phases && h'.log == h.log
    ensures H.WholeInv(c, h')
  {
  }

  lemma AcceptKeepsWhole(c: H.Config, h: H.Handlers, h': H.Handlers, i: nat)
    requires H.WholeInv(c, h) && H.Inv(c, h') && i < |h.phases| && h.phases[i].Waiting?
    requires h' == h.(phases := h.phases[i := H.Connected])
    ensures H.WholeInv(c, h')
  {
    forall k | 0 <= k < |h'.log| ensures H.Whole(c, h'.log[k]) || H.Faulty(h'.phases[h'.log[k].conn]) {
      assert H.InBounds(c, h.log[k]);
    }
  }

  /**
   The merge theorem. However the connections interleave and however their bytes arrive:
   if every stream ends with a terminator and the buffer is large enough for the reader's
   fresh scans, a nil result means that the output parses into exactly the records of the
   streams, those of each connection in their order.
   */
  lemma NilMeansMerged(c: H.Config, acts: seq<Action>)
    requires H.Mergeable(c) && Exec(c, acts).Some? && Exec(c, acts).value.main == Returned(None)
    ensures H.LogInBounds(c, Exec(c, acts).value.h.log)
    ensures Interleaves(c.f, H.Output(c, Exec(c, acts).value.h.log), c.streams)
  {
    NilMeansDrained(c, acts);
    ExecWhole(c, acts);
    H.DrainedOutputInterleaves(c, Exec(c, acts).value.h);
  }

  /** Streams whose records all fit in the buffer can always be merged. */
  lemma FittingStreamsMerge(c: H.Config)
    requires c.Valid()
    requires forall i: nat :: i < |c.streams| ==>
      Complete(c.f, c.streams[i]) && RecordsFit(c.f, c.streams[i], c.cap)
    ensures H.Mergeable(c)
  {
    forall i: nat | i < |c.streams| ensures Restartable(c.f, c.streams[i], c.cap, 0) {
      FittingIsRestartable(c.f, c.streams[i], c.cap, 0);
    }
  }

  // ------------------------------------------------------------ the dialling helper

  datatype Client = Client(h: H.Handlers, result: Option<Option<H.Fault>>)

  /** One handler's step, or the return once the wait group has counted every handler. */
  datatype ClientAction = Goroutine(a: H.Act) | WaitAndReturn

  function InitClient(c: H.Config): Client {
    Client(H.Handlers(seq(|c.streams|, _ => H.Connected), None, 0, []), None)
  }

  function ClientNext(c: H.Config, s: Client, a: ClientAction): Option<Client>
    requires |s.h.phases| == |c.streams| == |c.oracles|
  {
    match a
    case Goroutine(b) =>
      (match H.Step(c, s.h, b)
       case None => None
       case Some(h) => Some(s.(h := h)))
    case WaitAndReturn =>
      if s.result.None? && s.h.numFinished == |s.h.phases| then Some(s.(result := Some(s.h.err))) else None
  }

  function ClientExec(c: H.Config, acts: seq<ClientAction>): (s: Option<Client>)
    requires |c.streams| == |c.oracles|
    ensures s.Some? ==> |s.value.h.phases| == |c.streams|
  {
    if acts == [] then Some(InitClient(c))
    else
      var s := ClientExec(c, acts[..|acts| - 1]);
      if s.None? then None else ClientNext(c, s.value, acts[|acts| - 1])
  }

  ghost predicate ClientInv(c: H.Config, s: Client) {
    && H.WholeInv(c, s.h)
    && (s.result.Some? ==> s.h.numFinished == |s.h.phases| && s.result.value == s.h.err)
  }

  lemma {:induction false} ClientExecInv(c: H.Config, acts: seq<ClientAction>)
    requires H.Mergeable(c) && ClientExec(c, acts).Some?
    ensures ClientInv(c, ClientExec(c, acts).value)
  {
    if acts == [] {
      assert H.FinishedSet(InitClient(c).h.phases) == {};
      InitWhole(c, InitClient(c).h);
    } else {
      ClientExecInv(c, acts[..|acts| - 1]);
      ClientNextInv(c, ClientExec(c, acts[..|acts| - 1]).value, acts[|acts| - 1]);
    }
  }

  lemma ClientNextInv(c: H.Config, s: Client, a: ClientAction)
    requires ClientInv(c, s) && ClientNext(c, s, a).Some?
    ensures ClientInv(c, ClientNext(c, s, a).value)
  {
    if a.Goroutine? {
      H.StepKeepsWhole(c, s.h, a.a);
      if s.result.Some? {
        H.FullCount(c, s.h);
        H.FinishedIsFinal(c, s.h, a.a);
      }
    }
  }

  /** The same theorem for pull mode: a nil result of the dialling helper means a full merge. */
  lemma ClientNilMeansMerged(c: H.Config, acts: seq<ClientAction>)
    requires H.Mergeable(c) && ClientExec(c, acts).Some? && ClientExec(c, acts).value.result == Some(None)
    ensures H.LogInBounds(c, ClientExec(c, acts).value.h.log)
    ensures Interleaves(c.f, H.Output(c, ClientExec(c, acts).value.h.log), c.streams)
  {
    ClientExecInv(c, acts);
    H.AllFinishedMeansDrained(c, ClientExec(c, acts).value.h);
    H.DrainedOutputInterleaves(c, ClientExec(c, acts).value.h);
  }
}
