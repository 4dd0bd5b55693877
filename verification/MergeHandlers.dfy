/**
 The connection handlers that merge many CSV streams into one output
 (helper/concurrent_server.go processCsvRecord, helper/concurrent_client.go Run):
 each reads chunks from its own stream and writes them to the shared output under a
 lock. One action is one step of one handler; handlers interleave in any order.
 */
module MergeHandlers {
  import opened Wrappers
  import opened Sequences
  import opened CsvScan
  import opened RecordReader
  import opened Interleaving
  import opened CsvRecords
  import opened FiniteSets

  /** What the connections will send, how it arrives, and the readers' buffer size and format. */
  datatype Config = Config(streams: seq<seq<byte>>, oracles: seq<Oracle>, cap: nat, f: Format) {
    ghost predicate Valid() { |oracles| == |streams| && cap > 0 }

    function In(i: nat): Input
      requires i < |streams| && i < |oracles|
    {
      Input(streams[i], oracles[i], cap, f)
    }
  }

  /** Who reported an error to the shared error field. */
  datatype Fault = Listener | Connection(i: nat)

  /** Bytes `lo..hi` of stream `conn`, as handed to the output's Write. */
  datatype Written = Written(conn: nat, lo: nat, hi: nat)

  datatype Phase =
    | Waiting                                                  // not connected
    | Connected                                                // reader not yet created
    | Reading(v: View)
    | Writing(lo: nat, v: View, e: Option<ReadError>)          // has read lo..v.consumed
    | Failing(at: nat)                                         // about to report an error
    | Closing(at: nat, ok: bool)                               // about to count as finished
    | Finished(at: nat, ok: bool)

  datatype Handlers = Handlers(phases: seq<Phase>, err: Option<Fault>, numFinished: nat, log: seq<Written>)

  datatype Act =
    | Create(i: nat, ok: bool)                   // make the reader (or dial); may fail
    | Read(i: nat)                               // one CsvReader.Read
    | Write(i: nat, short: Option<nat>)          // whole chunk, or an error after some bytes
    | Report(i: nat)                             // setError
    | Finish(i: nat)                             // count the handler as finished

  /** Where a handler goes once the chunk of a Read that ended with `e` is dealt with. */
  function After(v: View, e: Option<ReadError>): Phase {
    if e.None? then Reading(v)
    else if e.value.Eof? then Closing(v.consumed, true)
    else Failing(v.consumed)
  }

  /** What one action does: the handler's next phase, a write to the output, an error report. */
  datatype Effect = Effect(next: Phase, wrote: Option<Written>, reports: bool)

  /** The effect of action `a` on a handler in phase `p`; None when it is not enabled. */
  function Local(m: Input, p: Phase, a: Act): Option<Effect> {
    match (a, p)
    case (Create(i, ok), Connected) =>
      Some(Effect(if ok then Reading(INITIAL) else Failing(0), None, false))
    case (Read(i), Reading(v)) =>
      if !RecordReader.Valid(m, v) then None
      else
        var (w, e) := RecordReader.Read(m, v);
        Some(Effect(if w.consumed > v.consumed then Writing(v.consumed, w, e) else After(w, e), None, false))
    case (Write(i, short), Writing(lo, v, e)) =>
      if short.None? then Some(Effect(After(v, e), Some(Written(i, lo, v.consumed)), false))
      else if lo + short.value > v.consumed then None
      else Some(Effect(Failing(lo + short.value), Some(Written(i, lo, lo + short.value)), false))
    case (Report(i), Failing(at)) => Some(Effect(Closing(at, false), None, true))
    case (Finish(i), Closing(at, ok)) => Some(Effect(Finished(at, ok), None, false))
    case _ => None
  }

  /** Performs one action of one handler; None when it is not enabled. */
  function Step(c: Config, h: Handlers, a: Act): Option<Handlers>
    requires |h.phases| == |c.streams| == |c.oracles|
  {
    if a.i >= |h.phases| then None
    else
      match Local(c.In(a.i), h.phases[a.i], a)
      case None => None
      case Some(e) =>
        Some(Handlers(
          h.phases[a.i := e.next],
          if e.reports then Some(Connection(a.i)) else h.err,
          if e.next.Finished? then h.numFinished + 1 else h.numFinished,
          if e.wrote.Some? then h.log + [e.wrote.value] else h.log))
  }

  // ------------------------------------------------------------ the output

  predicate InBounds(c: Config, w: Written) {
    w.conn < |c.streams| && w.lo <= w.hi <= |c.streams[w.conn]|
  }

  predicate LogInBounds(c: Config, log: seq<Written>) {
    forall k :: 0 <= k < |log| ==> InBounds(c, log[k])
  }

  function Chunk(c: Config, w: Written): seq<byte>
    requires InBounds(c, w)
  {
    c.streams[w.conn][w.lo..w.hi]
  }

  /** The merged output: every write, in the order the lock was taken. */
  function Output(c: Config, log: seq<Written>): seq<byte>
    requires LogInBounds(c, log)
  {
    if log == [] then [] else Output(c, log[..|log| - 1]) + Chunk(c, log[|log| - 1])
  }

  /** What the output holds of stream `i`. */
  function Sent(c: Config, log: seq<Written>, i: nat): seq<byte>
    requires LogInBounds(c, log)
  {
    if log == [] then []
    else Sent(c, log[..|log| - 1], i) + if log[|log| - 1].conn == i then Chunk(c, log[|log| - 1]) else []
  }

  // ------------------------------------------------------------ what every step keeps

  /** How much of its stream a handler has put into the output. */
  function At(p: Phase): nat {
    match p
    case Waiting => 0
    case Connected => 0
    case Reading(v) => v.consumed
    case Writing(lo, _, _) => lo
    case Failing(at) => at
    case Closing(at, _) => at
    case Finished(at, _) => at
  }

  predicate Honest(m: Input, v: View) {
    RecordReader.Valid(m, v) && (v.err == Some(Eof) ==> v.filled == |m.x|)
  }

  /** A closed handler either drained its stream or has had its error reported. */
  predicate PhaseOk(m: Input, p: Phase, err: Option<Fault>) {
    && At(p) <= |m.x|
    && match p
       case Reading(v) => Honest(m, v)
       case Writing(lo, v, e) => Honest(m, v) && lo < v.consumed && (e == Some(Eof) ==> v.consumed == |m.x|)
       case Closing(at, ok) => if ok then at == |m.x| else err.Some?
       case Finished(at, ok) => if ok then at == |m.x| else err.Some?
       case _ => true
  }

  ghost function FinishedSet(phases: seq<Phase>): set<nat> {
    set i: nat | i < |phases| && phases[i].Finished?
  }

  ghost predicate Inv(c: Config, h: Handlers) {
    && c.Valid() && |h.phases| == |c.streams|
    && LogInBounds(c, h.log)
    && h.numFinished == |FinishedSet(h.phases)|
    && (forall i: nat :: i < |h.phases| ==> PhaseOk(c.In(i), h.phases[i], h.err))
    && (forall i: nat :: i < |h.phases| ==> Sent(c, h.log, i) == c.streams[i][..At(h.phases[i])])
  }

  lemma SentOneMore(c: Config, log: seq<Written>, w: Written, i: nat)
    requires LogInBounds(c, log) && InBounds(c, w)
    ensures LogInBounds(c, log + [w])
    ensures Sent(c, log + [w], i) == Sent(c, log, i) + if w.conn == i then Chunk(c, w) else []
    ensures Output(c, log + [w]) == Output(c, log) + Chunk(c, w)
  {
    assert (log + [w])[..|log|] == log;
  }

  lemma FinishedOneMore(phases: seq<Phase>, i: nat, p: Phase)
    requires i < |phases| && !phases[i].Finished?
    ensures FinishedSet(phases[i := p]) == FinishedSet(phases) + if p.Finished? then {i} else {}
    ensures |FinishedSet(phases[i := p])| == |FinishedSet(phases)| + if p.Finished? then 1 else 0
  {
    assert FinishedSet(phases[i := p]) == FinishedSet(phases) + if p.Finished? then {i} else {};
  }

  /** One handler's action writes on from where it stood and keeps its phase sound. */
  lemma LocalKeepsPhase(m: Input, p: Phase, a: Act, err: Option<Fault>)
    requires m.cap > 0 && PhaseOk(m, p, err) && Local(m, p, a).Some?
    ensures var e := Local(m, p, a).value;
      && !p.Finished?
      && PhaseOk(m, e.next, if e.reports then Some(Connection(a.i)) else err)
      && (e.wrote.None? ==> At(e.next) == At(p))
      && (e.wrote.Some? ==> e.wrote.value == Written(a.i, At(p), At(e.next)) && At(p) <= At(e.next))
  {
    if a.Read? && p.Reading? {
      EofMeansAll(m, p.v);
    }
  }

  lemma PhaseOkKept(m: Input, p: Phase, err: Option<Fault>, err': Option<Fault>)
    requires PhaseOk(m, p, err) && (err.Some? ==> err'.Some?)
    ensures PhaseOk(m, p, err')
  {
  }

  /** Every action of every handler keeps the invariant. */
  lemma StepKeepsInv(c: Config, h: Handlers, a: Act)
    requires Inv(c, h) && Step(c, h, a).Some?
    ensures Inv(c, Step(c, h, a).value)
  {
    var h' := Step(c, h, a).value;
    var i := a.i;
    var e := Local(c.In(i), h.phases[i], a).value;
    LocalKeepsPhase(c.In(i), h.phases[i], a, h.err);
    FinishedOneMore(h.phases, i, e.next);
    if e.wrote.Some? {
      SentOneMore(c, h.log, e.wrote.value, i);
    }
    forall j: nat | j < |h.phases|
      ensures PhaseOk(c.In(j), h'.phases[j], h'.err)
      ensures Sent(c, h'.log, j) == c.streams[j][..At(h'.phases[j])]
    {
      PhaseOkKept(c.In(j), h.phases[j], h.err, h'.err);
      if e.wrote.Some? {
        SentOneMore(c, h.log, e.wrote.value, j);
        Extend(c.streams[i], At(h.phases[i]), At(e.next));
      }
    }
  }

  // ------------------------------------------------------------ record boundaries

  predicate Faulty(p: Phase) {
    p.Failing? || ((p.Closing? || p.Finished?) && !p.ok)
  }

  /** A whole number of records of its stream, starting at a record boundary. */
  predicate Whole(c: Config, w: Written)
    requires InBounds(c, w)
  {
    IsBoundary(c.f, c.streams[w.conn], w.lo) && IsBoundary(c.f, c.streams[w.conn], w.hi)
  }

  /** Every stream can be cut by the reader's fresh scans, and ends with a terminator. */
  ghost predicate Mergeable(c: Config) {
    && c.Valid()
    && (forall i: nat :: i < |c.streams| ==>
          Complete(c.f, c.streams[i]) && Restartable(c.f, c.streams[i], c.cap, 0))
  }

  /** Between chunks a handler stands at a record boundary from which fresh scans are right. */
  predicate InStep(m: Input, p: Phase)
    requires m.cap > 0
  {
    match p
    case Reading(v) =>
      v.consumed <= |m.x| && IsBoundary(m.f, m.x, v.consumed) && Restartable(m.f, m.x, m.cap, v.consumed)
    case Writing(lo, v, e) =>
      && lo <= |m.x| && IsBoundary(m.f, m.x, lo)
      && (e.None? ==>
            v.consumed <= |m.x| && IsBoundary(m.f, m.x, v.consumed) && Restartable(m.f, m.x, m.cap, v.consumed))
    case _ => true
  }

  ghost predicate WholeInv(c: Config, h: Handlers) {
    && Mergeable(c) && Inv(c, h)
    && (forall i: nat :: i < |h.phases| ==> InStep(c.In(i), h.phases[i]))
    && (forall k :: 0 <= k < |h.log| ==> Whole(c, h.log[k]) || Faulty(h.phases[h.log[k].conn]))
  }

  /** One handler's action keeps it in step; what it writes is whole or it is faulty. */
  lemma LocalKeepsStep(m: Input, p: Phase, a: Act, err: Option<Fault>)
    requires PhaseOk(m, p, err) && Local(m, p, a).Some? && m.cap > 0
    requires InStep(m, p) && Complete(m.f, m.x) && Restartable(m.f, m.x, m.cap, 0)
    ensures var e := Local(m, p, a).value;
      && At(e.next) <= |m.x|
      && InStep(m, e.next)
      && (Faulty(p) ==> Faulty(e.next))
      && (e.wrote.Some? && !Faulty(e.next) ==>
            IsBoundary(m.f, m.x, At(p)) && IsBoundary(m.f, m.x, At(e.next)))
  {
    LocalKeepsPhase(m, p, a, err);
    if a.Read? && p.Reading? {
      ReadKeepsStep(m, p.v);
    }
  }

  lemma StepKeepsWhole(c: Config, h: Handlers, a: Act)
    requires WholeInv(c, h) && Step(c, h, a).Some?
    ensures WholeInv(c, Step(c, h, a).value)
  {
    StepKeepsInv(c, h, a);
    var h' := Step(c, h, a).value;
    LocalKeepsStep(c.In(a.i), h.phases[a.i], a, h.err);
    LocalKeepsPhase(c.In(a.i), h.phases[a.i], a, h.err);
    forall k | 0 <= k < |h'.log| ensures Whole(c, h'.log[k]) || Faulty(h'.phases[h'.log[k].conn]) {
      assert InBounds(c, h'.log[k]);
      if k < |h.log| {
        assert h'.log[k] == h.log[k];
      }
    }
  }

  // ------------------------------------------------------------ all drained

  ghost predicate AllDrained(c: Config, h: Handlers)
    requires |h.phases| == |c.streams|
  {
    forall i: nat :: i < |h.phases| ==> h.phases[i] == Finished(|c.streams[i]|, true)
  }

  /** A full count means that every handler has finished, and nothing is enabled any more. */
  lemma FullCount(c: Config, h: Handlers)
    requires Inv(c, h) && h.numFinished == |h.phases|
    ensures forall i: nat :: i < |h.phases| ==> h.phases[i].Finished?
  {
    SubsetOfSameSize(FinishedSet(h.phases), Range(|h.phases|));
    forall i: nat | i < |h.phases| ensures h.phases[i].Finished? {
      assert i in FinishedSet(h.phases);
    }
  }

  lemma FinishedIsFinal(c: Config, h: Handlers, a: Act)
    requires c.Valid() && |h.phases| == |c.streams|
    requires forall i: nat :: i < |h.phases| ==> h.phases[i].Finished?
    ensures Step(c, h, a).None?
  {
    if a.i < |h.phases| {
      assert Local(c.In(a.i), h.phases[a.i], a).None?;
    }
  }

  /** A full count of finished handlers and no error mean that every stream is in the output. */
  lemma AllFinishedMeansDrained(c: Config, h: Handlers)
    requires Inv(c, h) && h.err.None? && h.numFinished == |c.streams|
    ensures AllDrained(c, h)
    ensures forall i: nat :: i < |c.streams| ==> Sent(c, h.log, i) == c.streams[i]
  {
    FullCount(c, h);
    forall i: nat | i < |h.phases| ensures h.phases[i] == Finished(|c.streams[i]|, true) {
      assert PhaseOk(c.In(i), h.phases[i], h.err);
    }
    forall i: nat | i < |c.streams| ensures Sent(c, h.log, i) == c.streams[i] {
      DrainedIsSent(c, h, i);
    }
  }

  lemma DrainedIsSent(c: Config, h: Handlers, i: nat)
    requires Inv(c, h) && i < |c.streams| && h.phases[i] == Finished(|c.streams[i]|, true)
    ensures Sent(c, h.log, i) == c.streams[i]
  {
  }

  // ------------------------------------------------------------ the merged output parses

  /** The records of the output, tagged with the connection that wrote them. */
  function TaggedRecords(c: Config, log: seq<Written>): seq<Tagged<seq<byte>>>
    requires LogInBounds(c, log)
  {
    if log == [] then []
    else
      var w := log[|log| - 1];
      TaggedRecords(c, log[..|log| - 1]) + Tag(w.conn, Records(c.f, Chunk(c, w)))
  }

  lemma WholeChunkIsComplete(c: Config, w: Written)
    requires InBounds(c, w) && Whole(c, w)
    ensures Complete(c.f, Chunk(c, w))
  {
    var x := c.streams[w.conn];
    if w.lo < w.hi {
      RestartAtBoundary(c.f, x, w.lo, w.hi);
      assert Chunk(c, w) == x[w.lo..][..w.hi - w.lo];
      EndsAtPrefix(c.f, x[w.lo..], w.hi - w.lo, w.hi - w.lo);
    }
  }

  /** If every write is a whole number of records, the output parses write by write. */
  lemma {:induction false} OutputParses(c: Config, log: seq<Written>)
    requires LogInBounds(c, log) && forall k :: 0 <= k < |log| ==> Whole(c, log[k])
    ensures Complete(c.f, Output(c, log))
    ensures Records(c.f, Output(c, log)) == Items(TaggedRecords(c, log))
    ensures forall k :: 0 <= k < |TaggedRecords(c, log)| ==> TaggedRecords(c, log)[k].from < |c.streams|
  {
    if log != [] {
      var rest, w := log[..|log| - 1], log[|log| - 1];
      OutputParses(c, rest);
      WholeChunkIsComplete(c, w);
      RecordsConcat(c.f, Output(c, rest), Chunk(c, w));
      CompleteConcat(c.f, Output(c, rest), Chunk(c, w));
      ItemsConcat(TaggedRecords(c, rest), Tag(w.conn, Records(c.f, Chunk(c, w))));
    }
  }

  lemma ItemsConcat<T>(s: seq<Tagged<T>>, t: seq<Tagged<T>>)
    ensures Items(s + t) == Items(s) + Items(t)
  {
  }

  /** ... and each connection's records come in the order of its stream. */
  lemma {:induction false} SentParses(c: Config, log: seq<Written>, i: nat)
    requires LogInBounds(c, log) && forall k :: 0 <= k < |log| ==> Whole(c, log[k])
    ensures Complete(c.f, Sent(c, log, i))
    ensures Records(c.f, Sent(c, log, i)) == From(i, TaggedRecords(c, log))
  {
    if log != [] {
      var rest, w := log[..|log| - 1], log[|log| - 1];
      SentParses(c, rest, i);
      FromConcat(i, TaggedRecords(c, rest), Tag(w.conn, Records(c.f, Chunk(c, w))));
      FromTag(w.conn, i, Records(c.f, Chunk(c, w)));
      if w.conn == i {
        WholeChunkIsComplete(c, w);
        RecordsConcat(c.f, Sent(c, rest, i), Chunk(c, w));
        CompleteConcat(c.f, Sent(c, rest, i), Chunk(c, w));
      } else {
        assert Sent(c, log, i) == Sent(c, rest, i);
      }
    }
  }

  /** When every stream was drained, the output is an interleaving of the streams' records. */
  lemma DrainedOutputInterleaves(c: Config, h: Handlers)
    requires WholeInv(c, h) && AllDrained(c, h)
    ensures Interleaves(c.f, Output(c, h.log), c.streams)
  {
    DrainedWritesWhole(c, h);
    OutputParses(c, h.log);
    forall i | 0 <= i < |c.streams|
      ensures From(i, TaggedRecords(c, h.log)) == Records(c.f, c.streams[i])
    {
      SentParses(c, h.log, i);
      DrainedIsSent(c, h, i);
    }
    assert IsInterleaving(c.f, TaggedRecords(c, h.log), Output(c, h.log), c.streams);
  }

  lemma DrainedWritesWhole(c: Config, h: Handlers)
    requires WholeInv(c, h) && AllDrained(c, h)
    ensures forall k :: 0 <= k < |h.log| ==> Whole(c, h.log[k])
  {
    forall k | 0 <= k < |h.log| ensures Whole(c, h.log[k]) {
      assert InBounds(c, h.log[k]);
      assert !Faulty(h.phases[h.log[k].conn]);
    }
  }
}
