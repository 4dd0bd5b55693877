/**
 Exactly which streams can be merged. A stream that is complete and restartable merges with all
 others of that kind; any other stream, merged with one harmless companion, has a run that
 returns nil although the output is no interleaving: its handler stops at a place that is no
 record boundary, the other handler writes its record, and the first goes on.
 */
module CutMerge {
  import opened Wrappers
  import opened Sequences
  import opened CsvScan
  import opened RecordReader
  import opened CsvRecords
  import opened CutText
  import opened MergeServer
  import H = MergeHandlers

  // ------------------------------------------------------------ runs of two handlers

  /** Two streams that arrive byte by byte. */
  function Pair(x: seq<byte>, y: seq<byte>, cap: nat): H.Config {
    H.Config([x, y], [Trickle, Trickle], cap, HELPER_FORMAT)
  }

  /** Two handlers, `n` of them finished, no error so far. */
  function Two(p: H.Phase, q: H.Phase, n: nat, log: seq<H.Written>): H.Handlers {
    H.Handlers([p, q], None, n, log)
  }

  function RunFrom(c: H.Config, h: H.Handlers, acts: seq<H.Act>): (r: Option<H.Handlers>)
    requires |h.phases| == |c.streams| == |c.oracles|
    ensures r.Some? ==> |r.value.phases| == |c.streams|
  {
    if acts == [] then Some(h)
    else
      var before := RunFrom(c, h, acts[..|acts| - 1]);
      if before.None? then None else H.Step(c, before.value, acts[|acts| - 1])
  }

  /** Some run of the handlers leads from their creation to `h`. */
  ghost predicate Reached(c: H.Config, h: H.Handlers)
    requires |c.streams| == |c.oracles| == 2
  {
    exists acts :: RunFrom(c, Two(H.Connected, H.Connected, 0, []), acts) == Some(h)
  }

  lemma Go(c: H.Config, h: H.Handlers, b: H.Act, h': H.Handlers)
    requires |c.streams| == |c.oracles| == |h.phases| == 2 && Reached(c, h) && H.Step(c, h, b) == Some(h')
    ensures Reached(c, h')
  {
    var start := Two(H.Connected, H.Connected, 0, []);
    var acts :| RunFrom(c, start, acts) == Some(h);
    assert (acts + [b])[..|acts|] == acts;
    assert RunFrom(c, start, acts + [b]) == Some(h');
  }

  function Logged(log: seq<H.Written>, w: Option<H.Written>): seq<H.Written> {
    if w.Some? then log + [w.value] else log
  }

  lemma GoFirst(
    c: H.Config, p: H.Phase, q: H.Phase, n: nat, log: seq<H.Written>, b: H.Act, p': H.Phase, w: Option<H.Written>)
    requires c.Valid() && |c.streams| == 2 && Reached(c, Two(p, q, n, log)) && b.i == 0
    requires H.Local(c.In(0), p, b) == Some(H.Effect(p', w, false))
    ensures Reached(c, Two(p', q, if p'.Finished? then n + 1 else n, Logged(log, w)))
  {
    assert [p, q][0 := p'] == [p', q];
    Go(c, Two(p, q, n, log), b, Two(p', q, if p'.Finished? then n + 1 else n, Logged(log, w)));
  }

  lemma GoSecond(
    c: H.Config, p: H.Phase, q: H.Phase, n: nat, log: seq<H.Written>, b: H.Act, q': H.Phase, w: Option<H.Written>)
    requires c.Valid() && |c.streams| == 2 && Reached(c, Two(p, q, n, log)) && b.i == 1
    requires H.Local(c.In(1), q, b) == Some(H.Effect(q', w, false))
    ensures Reached(c, Two(p, q', if q'.Finished? then n + 1 else n, Logged(log, w)))
  {
    assert [p, q][1 := q'] == [p, q'];
    Go(c, Two(p, q, n, log), b, Two(p, q', if q'.Finished? then n + 1 else n, Logged(log, w)));
  }

  /** The first handler reads and writes what it has read, if anything. */
  lemma CopyFirst(c: H.Config, v: View, w: View, e: Option<ReadError>, q: H.Phase, n: nat, log: seq<H.Written>)
    returns (log': seq<H.Written>)
    requires c.Valid() && |c.streams| == 2 && Reached(c, Two(H.Reading(v), q, n, log)) && !H.After(w, e).Finished?
    requires Valid(c.In(0), v) && Read(c.In(0), v) == (w, e) && w.consumed >= v.consumed
    ensures log' == Logged(log, if w.consumed > v.consumed then Some(H.Written(0, v.consumed, w.consumed)) else None)
    ensures Reached(c, Two(H.After(w, e), q, n, log'))
  {
    if w.consumed > v.consumed {
      var mid, chunk := H.Writing(v.consumed, w, e), Some(H.Written(0, v.consumed, w.consumed));
      GoFirst(c, H.Reading(v), q, n, log, H.Read(0), mid, None);
      GoFirst(c, mid, q, n, log, H.Write(0, None), H.After(w, e), chunk);
      log' := Logged(log, chunk);
    } else {
      GoFirst(c, H.Reading(v), q, n, log, H.Read(0), H.After(w, e), None);
      log' := log;
    }
  }

  /** The second handler reads a chunk and writes it. */
  lemma CopySecond(c: H.Config, p: H.Phase, v: View, w: View, e: Option<ReadError>, n: nat, log: seq<H.Written>)
    requires c.Valid() && |c.streams| == 2 && Reached(c, Two(p, H.Reading(v), n, log)) && !H.After(w, e).Finished?
    requires Valid(c.In(1), v) && Read(c.In(1), v) == (w, e) && w.consumed > v.consumed
    ensures Reached(c, Two(p, H.After(w, e), n, log + [H.Written(1, v.consumed, w.consumed)]))
  {
    var mid := H.Writing(v.consumed, w, e);
    GoSecond(c, p, H.Reading(v), n, log, H.Read(1), mid, None);
    GoSecond(c, p, mid, n, log, H.Write(1, None), H.After(w, e), Some(H.Written(1, v.consumed, w.consumed)));
  }

  /** Both readers are created. */
  lemma Created(c: H.Config, v: View)
    requires c.Valid() && |c.streams| == 2 && v == INITIAL
    ensures Reached(c, Two(H.Reading(v), H.Reading(v), 0, []))
  {
    assert RunFrom(c, Two(H.Connected, H.Connected, 0, []), []) == Some(Two(H.Connected, H.Connected, 0, []));
    GoFirst(c, H.Connected, H.Connected, 0, [], H.Create(0, true), H.Reading(v), None);
    GoSecond(c, H.Reading(v), H.Connected, 0, [], H.Create(1, true), H.Reading(v), None);
  }

  // ------------------------------------------------------------ what the handlers write

  /** The log of writes makes up `out`. */
  ghost predicate Makes(c: H.Config, log: seq<H.Written>, out: seq<byte>) {
    H.LogInBounds(c, log) && H.Output(c, log) == out
  }

  lemma MakesMore(c: H.Config, log: seq<H.Written>, out: seq<byte>, w: H.Written)
    requires Makes(c, log, out) && H.InBounds(c, w)
    ensures Makes(c, log + [w], out + H.Chunk(c, w))
  {
    H.SentOneMore(c, log, w, 0);
  }

  /** A reader between two chunks of a stream that arrives byte by byte. */
  ghost predicate Between(m: Input, v: View) {
    && Valid(m, v) && m.o == Trickle && v.filled == v.consumed
    && (v.err.None? || (v.err == Some(Eof) && v.consumed == |m.x|))
  }

  /** At the end a read returns end-of-file and nothing else. */
  lemma EndRead(m: Input, v: View)
    requires Between(m, v) && v.err.Some?
    ensures Read(m, v).1 == Some(Eof) && Read(m, v).0.consumed == |m.x|
  {
    var b := m.x[v.consumed..v.filled];
    assert b == [] && LastEnd(m.f, b) == -1;
  }

  /** The next read: a chunk, or the rest with end-of-file. */
  lemma NextRead(m: Input, v: View) returns (w: View, e: Option<ReadError>)
    requires Between(m, v)
    ensures Read(m, v) == (w, e) && v.consumed <= w.consumed <= |m.x|
    ensures if e.None? then Between(m, w) && v.consumed < w.consumed else e == Some(Eof) && w.consumed == |m.x|
  {
    w, e := Read(m, v).0, Read(m, v).1;
    if v.err.None? {
      TrickleRead(m, v);
    } else {
      EndRead(m, v);
    }
  }

  /** From a place where the stream is not restartable, a chunk to a cut or to another such place. */
  lemma NextCut(m: Input, v: View) returns (w: View)
    requires Between(m, v) && !Restartable(m.f, m.x, m.cap, v.consumed)
    ensures Read(m, v) == (w, None) && v.consumed < w.consumed <= |m.x| && Between(m, w)
    ensures EndsAt(m.f, m.x, w.consumed) ==> !Restartable(m.f, m.x, m.cap, w.consumed)
  {
    TrickleRead(m, v);
    w := Read(m, v).0;
  }

  /** The companion is read in one chunk, and then its end. */
  lemma CompanionReads(m: Input, n: nat) returns (v: View, w: View)
    requires m.cap > 0 && m.x == Companion(n) && m.o == Trickle && m.f == HELPER_FORMAT
    ensures Valid(m, INITIAL) && Read(m, INITIAL) == (v, None) && v.consumed == n + 1
    ensures Valid(m, v) && Read(m, v) == (w, Some(Eof)) && w.consumed == n + 1
  {
    CompanionResumes(n, m.x, m.cap, 0);
    TrickleRead(m, INITIAL);
    v := Read(m, INITIAL).0;
    EndRead(m, v);
    w := Read(m, v).0;
  }

  /** The output grows by the chunk that the first handler copies. */
  lemma CopyGrows(
    c: H.Config, v: View, w: View, e: Option<ReadError>, q: H.Phase, n: nat, log: seq<H.Written>, out: seq<byte>)
    returns (log': seq<H.Written>)
    requires c.Valid() && |c.streams| == 2 && Reached(c, Two(H.Reading(v), q, n, log)) && Makes(c, log, out)
    requires Valid(c.In(0), v) && Read(c.In(0), v) == (w, e) && v.consumed <= w.consumed <= |c.streams[0]|
    ensures Reached(c, Two(H.After(w, e), q, n, log')) && Makes(c, log', out + c.streams[0][v.consumed..w.consumed])
  {
    log' := CopyFirst(c, v, w, e, q, n, log);
    if w.consumed > v.consumed {
      MakesMore(c, log, out, H.Written(0, v.consumed, w.consumed));
    } else {
      assert out + c.streams[0][v.consumed..w.consumed] == out;
    }
  }

  /** The first handler goes on to the end of its stream. */
  lemma {:induction false} Drain(c: H.Config, v: View, q: H.Phase, n: nat, log: seq<H.Written>, out: seq<byte>)
    returns (log': seq<H.Written>)
    requires c.Valid() && |c.streams| == 2 && Between(c.In(0), v)
    requires Reached(c, Two(H.Reading(v), q, n, log)) && Makes(c, log, out)
    ensures Reached(c, Two(H.Closing(|c.streams[0]|, true), q, n, log'))
    ensures Makes(c, log', out + c.streams[0][v.consumed..])
    decreases |c.streams[0]| - v.consumed
  {
    var x := c.streams[0];
    var w, e := NextRead(c.In(0), v);
    log' := CopyGrows(c, v, w, e, q, n, log, out);
    RestOf(out, x, v.consumed, w.consumed);
    if e.None? {
      log' := Drain(c, w, q, n, log', out + x[v.consumed..w.consumed]);
    }
  }

  lemma RestOf<T>(out: seq<T>, x: seq<T>, a: nat, b: nat)
    requires a <= b <= |x|
    ensures out + x[a..b] + x[b..] == out + x[a..]
    ensures b == |x| ==> out + x[a..b] == out + x[a..]
  {
  }

  /** The first handler of a stream that is not restartable comes to a place that is no boundary. */
  lemma {:induction false} ReachCut(c: H.Config, v: View, q: H.Phase, log: seq<H.Written>)
    returns (w: View, log': seq<H.Written>)
    requires c.Valid() && |c.streams| == 2 && Between(c.In(0), v)
    requires Reached(c, Two(H.Reading(v), q, 0, log)) && Makes(c, log, c.streams[0][..v.consumed])
    requires !Restartable(c.f, c.streams[0], c.cap, v.consumed)
    ensures Between(c.In(0), w) && !IsBoundary(c.f, c.streams[0], w.consumed)
    ensures Reached(c, Two(H.Reading(w), q, 0, log')) && Makes(c, log', c.streams[0][..w.consumed])
    decreases |c.streams[0]| - v.consumed
  {
    var x := c.streams[0];
    w := NextCut(c.In(0), v);
    log' := CopyGrows(c, v, w, None, q, 0, log, x[..v.consumed]);
    Extend(x, v.consumed, w.consumed);
    if EndsAt(c.f, x, w.consumed) {
      w, log' := ReachCut(c, w, q, log');
    }
  }

  /** The second handler writes its one record and finishes. */
  lemma SecondWrites(c: H.Config, n: nat, p: H.Phase, log: seq<H.Written>, out: seq<byte>)
    returns (q: H.Phase, log': seq<H.Written>)
    requires c.Valid() && |c.streams| == 2 && c.oracles[1] == Trickle && c.f == HELPER_FORMAT
    requires c.streams[1] == Companion(n) && Reached(c, Two(p, H.Reading(INITIAL), 0, log)) && Makes(c, log, out)
    ensures Reached(c, Two(p, q, 1, log')) && Makes(c, log', out + c.streams[1])
  {
    var v, w := CompanionReads(c.In(1), n);
    log' := log + [H.Written(1, 0, n + 1)];
    MakesMore(c, log, out, H.Written(1, 0, n + 1));
    assert c.streams[1][0..n + 1] == c.streams[1];
    q := SecondCopies(c, p, INITIAL, v, w, log);
  }

  lemma SecondCopies(c: H.Config, p: H.Phase, v: View, w: View, end: View, log: seq<H.Written>) returns (q: H.Phase)
    requires c.Valid() && |c.streams| == 2 && Reached(c, Two(p, H.Reading(v), 0, log))
    requires Valid(c.In(1), v) && Read(c.In(1), v) == (w, None) && v.consumed < w.consumed
    requires Valid(c.In(1), w) && Read(c.In(1), w) == (end, Some(Eof)) && end.consumed == w.consumed
    ensures Reached(c, Two(p, q, 1, log + [H.Written(1, v.consumed, w.consumed)]))
  {
    CopySecond(c, p, v, w, None, 0, log);
    q := SecondEnds(c, p, w, end, log + [H.Written(1, v.consumed, w.consumed)]);
  }

  /** The second handler reads the end of its stream and finishes. */
  lemma SecondEnds(c: H.Config, p: H.Phase, v: View, end: View, log: seq<H.Written>) returns (q: H.Phase)
    requires c.Valid() && |c.streams| == 2 && Reached(c, Two(p, H.Reading(v), 0, log))
    requires Valid(c.In(1), v) && Read(c.In(1), v) == (end, Some(Eof)) && end.consumed == v.consumed
    ensures Reached(c, Two(p, q, 1, log))
  {
    var closing := H.Closing(end.consumed, true);
    GoSecond(c, p, H.Reading(v), 0, log, H.Read(1), closing, None);
    q := H.Finished(end.consumed, true);
    GoSecond(c, p, closing, 0, log, H.Finish(1), q, None);
  }

  // ------------------------------------------------------------ the spoiled run

  /** All handlers have finished, no error was set, and the output is no interleaving. */
  ghost predicate Spoils(c: H.Config, h: H.Handlers)
    requires c.Valid()
  {
    && |h.phases| == |c.streams| && h.numFinished == |c.streams| && h.err.None?
    && H.LogInBounds(c, h.log) && !Interleaves(c.f, H.Output(c, h.log), c.streams)
  }

  lemma FirstFinishes(c: H.Config, q: H.Phase, log: seq<H.Written>) returns (h: H.Handlers)
    requires c.Valid() && |c.streams| == 2 && Reached(c, Two(H.Closing(|c.streams[0]|, true), q, 1, log))
    ensures Reached(c, h) && h.log == log && h.numFinished == 2 && h.err.None? && |h.phases| == 2
  {
    var p := H.Finished(|c.streams[0]|, true);
    GoFirst(c, H.Closing(|c.streams[0]|, true), q, 1, log, H.Finish(0), p, None);
    h := Two(p, q, 2, log);
  }

  /** A stream that is not restartable: the companion's record comes where a chunk was cut. */
  lemma CutSpoils(x: seq<byte>, y: seq<byte>, cap: nat, c: H.Config) returns (h: H.Handlers)
    requires cap > 0 && !Restartable(HELPER_FORMAT, x, cap, 0) && y == Companion(|x|) && c == Pair(x, y, cap)
    ensures Reached(c, h) && Spoils(c, h)
  {
    Created(c, INITIAL);
    var w, log := ReachCut(c, INITIAL, H.Reading(INITIAL), []);
    var at := w.consumed;
    var q, log1 := SecondWrites(c, |x|, H.Reading(w), log, x[..at]);
    var log2 := Drain(c, w, q, 1, log1, x[..at] + y);
    h := FirstFinishes(c, q, log2);
    SpoiledIsNoInterleaving(x, at, y);
  }

  /** A stream that ends inside a record: the companion's record comes after it. */
  lemma OpenEndSpoils(x: seq<byte>, y: seq<byte>, cap: nat, c: H.Config) returns (h: H.Handlers)
    requires cap > 0 && !Complete(HELPER_FORMAT, x) && y == Companion(|x|) && c == Pair(x, y, cap)
    ensures Reached(c, h) && Spoils(c, h)
  {
    Created(c, INITIAL);
    var log := Drain(c, INITIAL, H.Reading(INITIAL), 0, [], []);
    WholeText(x, y);
    var q, log1 := SecondWrites(c, |x|, H.Closing(|x|, true), log, x);
    h := FirstFinishes(c, q, log1);
    SpoiledIsNoInterleaving(x, |x|, y);
  }

  lemma WholeText(x: seq<byte>, y: seq<byte>)
    ensures [] + x[0..] == x && Spoiled(x, |x|, y) == x + y
  {
  }

  /** Every stream that is incomplete or not restartable spoils a merge. */
  lemma SomeRunSpoils(x: seq<byte>, y: seq<byte>, cap: nat, c: H.Config) returns (h: H.Handlers)
    requires cap > 0 && y == Companion(|x|) && c == Pair(x, y, cap)
    requires !Complete(HELPER_FORMAT, x) || !Restartable(HELPER_FORMAT, x, cap, 0)
    ensures Reached(c, h) && Spoils(c, h)
  {
    if Restartable(HELPER_FORMAT, x, cap, 0) {
      h := OpenEndSpoils(x, y, cap, c);
    } else {
      h := CutSpoils(x, y, cap, c);
    }
  }

  // ------------------------------------------------------------ as runs of the two programs

  lemma {:induction false} ClientFollows(c: H.Config, acts: seq<H.Act>, h: H.Handlers)
    returns (cacts: seq<ClientAction>)
    requires |c.streams| == |c.oracles| == 2
    requires RunFrom(c, Two(H.Connected, H.Connected, 0, []), acts) == Some(h)
    ensures ClientExec(c, cacts) == Some(Client(h, None))
  {
    if acts == [] {
      cacts := [];
      assert seq(2, _ => H.Connected) == [H.Connected, H.Connected];
    } else {
      var n := |acts| - 1;
      var before := RunFrom(c, Two(H.Connected, H.Connected, 0, []), acts[..n]).value;
      var prefix := ClientFollows(c, acts[..n], before);
      cacts := prefix + [Goroutine(acts[n])];
      assert cacts[..|prefix|] == prefix;
    }
  }

  ghost predicate ClientNil(c: H.Config, acts: seq<ClientAction>)
    requires c.Valid()
  {
    ClientExec(c, acts).Some? && ClientExec(c, acts).value.result == Some(None)
  }

  ghost predicate Merged(c: H.Config, log: seq<H.Written>) {
    H.LogInBounds(c, log) && Interleaves(c.f, H.Output(c, log), c.streams)
  }

  lemma SpoiledClientRun(c: H.Config, h: H.Handlers) returns (acts: seq<ClientAction>)
    requires c.Valid() && |c.streams| == 2 && Reached(c, h) && Spoils(c, h)
    ensures ClientNil(c, acts) && !Merged(c, ClientExec(c, acts).value.h.log)
  {
    var hs :| RunFrom(c, Two(H.Connected, H.Connected, 0, []), hs) == Some(h);
    var prefix := ClientFollows(c, hs, h);
    acts := prefix + [WaitAndReturn];
    assert acts[..|prefix|] == prefix;
  }

  lemma ServerGo(c: H.Config, acts: seq<Action>, s: Server, a: Action, s': Server) returns (acts': seq<Action>)
    requires |c.streams| == |c.oracles| == |s.h.phases| && Exec(c, acts) == Some(s) && Next(c, s, a) == Some(s')
    ensures Exec(c, acts') == Some(s')
  {
    acts' := acts + [a];
    assert acts'[..|acts|] == acts;
  }

  /** The server starts and announces its port. */
  lemma ServerStarts(c: H.Config) returns (acts: seq<Action>)
    requires |c.streams| == |c.oracles| == 2
    ensures Exec(c, acts) == Some(Server(Two(H.Waiting, H.Waiting, 0, []), 0, Listening, CheckingError))
  {
    var h := Two(H.Waiting, H.Waiting, 0, []);
    assert seq(2, _ => H.Waiting) == h.phases;
    var announcing := Server(h, 0, Listening, Announcing);
    acts := ServerGo(c, [], Server(h, 0, Listening, Starting), Start(true), announcing);
    acts := ServerGo(c, acts, announcing, Announce(true), Server(h, 0, Listening, CheckingError));
  }

  /** One connection is accepted. */
  lemma ServerAccept(c: H.Config, acts: seq<Action>, h: H.Handlers, n: nat, h': H.Handlers) returns (acts': seq<Action>)
    requires |c.streams| == |c.oracles| == |h.phases| && n < |h.phases| && h.phases[n].Waiting?
    requires h' == h.(phases := h.phases[n := H.Connected])
    requires Exec(c, acts) == Some(Server(h, n, Listening, CheckingError))
    ensures Exec(c, acts') == Some(Server(h', n + 1, Listening, CheckingError))
  {
    var s, s' := Server(h, n, Listening, CheckingError), Server(h', n + 1, Listening, CheckingError);
    acts' := ServerGo(c, acts, s, Accept, s');
  }

  /** Both connections are accepted. */
  lemma ServerAccepts(c: H.Config) returns (acts: seq<Action>)
    requires |c.streams| == |c.oracles| == 2
    ensures Exec(c, acts) == Some(Server(Two(H.Connected, H.Connected, 0, []), 2, Listening, CheckingError))
  {
    var h0, h1 := Two(H.Waiting, H.Waiting, 0, []), Two(H.Connected, H.Waiting, 0, []);
    var h2 := Two(H.Connected, H.Connected, 0, []);
    assert h0.phases[0 := H.Connected] == h1.phases && h1.phases[1 := H.Connected] == h2.phases;
    acts := ServerStarts(c);
    acts := ServerAccept(c, acts, h0, 0, h1);
    acts := ServerAccept(c, acts, h1, 1, h2);
  }

  lemma {:induction false} ServerFollows(c: H.Config, acts: seq<H.Act>, h: H.Handlers) returns (sacts: seq<Action>)
    requires |c.streams| == |c.oracles| == 2
    requires RunFrom(c, Two(H.Connected, H.Connected, 0, []), acts) == Some(h)
    ensures Exec(c, sacts) == Some(Server(h, 2, Listening, CheckingError))
  {
    if acts == [] {
      sacts := ServerAccepts(c);
    } else {
      var n := |acts| - 1;
      var before := RunFrom(c, Two(H.Connected, H.Connected, 0, []), acts[..n]).value;
      var prefix := ServerFollows(c, acts[..n], before);
      sacts := ServerGo(c, prefix, Server(before, 2, Listening, CheckingError), Handle(acts[n]),
                        Server(h, 2, Listening, CheckingError));
    }
  }

  ghost predicate ServerNil(c: H.Config, acts: seq<Action>)
    requires c.Valid()
  {
    Exec(c, acts).Some? && Exec(c, acts).value.main == Returned(None)
  }

  /** With all handlers finished and no error the server returns nil. */
  lemma ServerReturns(c: H.Config, acts: seq<Action>, h: H.Handlers) returns (acts': seq<Action>)
    requires |c.streams| == |c.oracles| == |h.phases| == h.numFinished && h.err.None?
    requires Exec(c, acts) == Some(Server(h, 2, Listening, CheckingError))
    ensures Exec(c, acts') == Some(Server(h, 2, Listening, Returned(None)))
  {
    var polling, done := Server(h, 2, Listening, CheckingDone), Server(h, 2, Listening, Done);
    acts' := ServerGo(c, acts, Server(h, 2, Listening, CheckingError), PollError, polling);
    acts' := ServerGo(c, acts', polling, PollDone, done);
    acts' := ServerGo(c, acts', done, Return, Server(h, 2, Listening, Returned(None)));
  }

  lemma SpoiledServerRun(c: H.Config, h: H.Handlers) returns (acts: seq<Action>)
    requires c.Valid() && |c.streams| == 2 && Reached(c, h) && Spoils(c, h)
    ensures ServerNil(c, acts) && !Merged(c, Exec(c, acts).value.h.log)
  {
    var hs :| RunFrom(c, Two(H.Connected, H.Connected, 0, []), hs) == Some(h);
    acts := ServerFollows(c, hs, h);
    acts := ServerReturns(c, acts, h);
  }

  // ------------------------------------------------------------ exactly which streams merge

  /** Ends with a record, and is cut at records only. */
  predicate GoodStream(x: seq<byte>, cap: nat) {
    cap > 0 && Complete(HELPER_FORMAT, x) && Restartable(HELPER_FORMAT, x, cap, 0)
  }

  /** Stream `i` is `x`; its companions, any number of them, are complete and restartable. */
  ghost predicate AmongGood(c: H.Config, i: nat, x: seq<byte>, cap: nat) {
    && c.Valid() && c.cap == cap && c.f == HELPER_FORMAT && i < |c.streams| && c.streams[i] == x
    && forall j: nat :: j < |c.streams| && j != i ==> GoodStream(c.streams[j], cap)
  }

  /** With all such companions, however bytes arrive, a nil result of the dialling helper means a full merge. */
  ghost predicate ClientMerges(x: seq<byte>, cap: nat) {
    forall c: H.Config, i: nat, acts :: AmongGood(c, i, x, cap) && ClientNil(c, acts) ==>
      Merged(c, ClientExec(c, acts).value.h.log)
  }

  /** The same of the listening helper. */
  ghost predicate ServerMerges(x: seq<byte>, cap: nat) {
    forall c: H.Config, i: nat, acts :: AmongGood(c, i, x, cap) && ServerNil(c, acts) ==>
      Merged(c, Exec(c, acts).value.h.log)
  }

  lemma AmongGoodIsMergeable(c: H.Config, i: nat, x: seq<byte>, cap: nat)
    requires cap > 0 && AmongGood(c, i, x, cap) && GoodStream(x, cap)
    ensures H.Mergeable(c)
  {
  }

  lemma WithCompanion(x: seq<byte>, y: seq<byte>, cap: nat)
    requires cap > 0 && y == Companion(|x|)
    ensures AmongGood(Pair(x, y, cap), 0, x, cap)
  {
    CompanionIsHarmless(|x|, y, cap);
  }

  /** A stream can be merged by the dialling helper if and only if it is complete and restartable. */
  lemma ClientMergesIff(x: seq<byte>, cap: nat)
    requires cap > 0
    ensures ClientMerges(x, cap) <==> GoodStream(x, cap)
  {
    if GoodStream(x, cap) {
      forall c: H.Config, i: nat, acts | AmongGood(c, i, x, cap) && ClientNil(c, acts)
        ensures Merged(c, ClientExec(c, acts).value.h.log)
      {
        AmongGoodIsMergeable(c, i, x, cap);
        ClientNilMeansMerged(c, acts);
      }
    } else {
      var y := Companion(|x|);
      var c := Pair(x, y, cap);
      WithCompanion(x, y, cap);
      var h := SomeRunSpoils(x, y, cap, c);
      var acts := SpoiledClientRun(c, h);
    }
  }

  /** A stream can be merged by the listening helper if and only if it is complete and restartable. */
  lemma ServerMergesIff(x: seq<byte>, cap: nat)
    requires cap > 0
    ensures ServerMerges(x, cap) <==> GoodStream(x, cap)
  {
    if GoodStream(x, cap) {
      forall c: H.Config, i: nat, acts | AmongGood(c, i, x, cap) && ServerNil(c, acts)
        ensures Merged(c, Exec(c, acts).value.h.log)
      {
        AmongGoodIsMergeable(c, i, x, cap);
        NilMeansMerged(c, acts);
      }
    } else {
      var y := Companion(|x|);
      var c := Pair(x, y, cap);
      WithCompanion(x, y, cap);
      var h := SomeRunSpoils(x, y, cap, c);
      var acts := SpoiledServerRun(c, h);
    }
  }

  /** For every buffer size there is a complete stream, one record, that neither helper merges safely. */
  lemma OverlongRecordSpoilsMerge(cap: nat, a: byte, x: seq<byte>)
    requires cap > 1 && a != DOUBLE_QUOTE && a != LF && x == Overlong(cap, a)
    ensures Complete(HELPER_FORMAT, x) && Records(HELPER_FORMAT, x) == [x]
    ensures !ClientMerges(x, cap) && !ServerMerges(x, cap)
  {
    QuotedIsOneRecord(x);
    OverlongQuotedFieldIsCut(cap, a, x);
    ClientMergesIff(x, cap);
    ServerMergesIff(x, cap);
  }
}
