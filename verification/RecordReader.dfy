/**
 What ReaderBase (internal/reader/reader.go) does to a byte stream, as positions in
 that stream: which bytes each read returns, and with which error. CsvReader.dfy
 proves that the buffer-shuffling code computes exactly these functions; this
 module proves what they guarantee.

 The stream `x` is everything the peer sends. How it arrives is up to an oracle:
 read call number k asks for `want` bytes (cut to what fits and what is left) and
 carries a signal. Every behaviour io.Reader allows over a finite stream arises
 from some oracle; end-of-file is only reported once all of `x` was delivered.
 */
module RecordReader {
  import opened Wrappers
  import opened Sequences
  import opened CsvScan

  datatype ReadError = Eof | NoProgress | Broken(code: int)

  datatype Signal = Quiet | End | Fault(code: int)

  datatype ReadStep = ReadStep(want: nat, signal: Signal)

  type Oracle = nat -> ReadStep

  const MAX_CONSECUTIVE_EMPTY_READS: nat := 100

  /** The input as the reader sees it: bytes, arrival, buffer size and format. */
  datatype Input = Input(x: seq<byte>, o: Oracle, cap: nat, f: Format)

  /**
   Progress through an input: `x[..consumed]` was returned, `x[consumed..filled]` is
   buffered, `calls` reads were made, `err` is pending and `lines` terminators were counted.
   */
  datatype View = View(consumed: nat, filled: nat, calls: nat, err: Option<ReadError>, lines: nat)

  const INITIAL := View(0, 0, 0, None, 0)

  predicate Valid(m: Input, v: View) {
    m.cap > 0 && v.consumed <= v.filled <= |m.x| && v.filled - v.consumed <= m.cap
  }

  function Min(a: nat, b: nat): nat { if a < b then a else b }

  /** One Read call on the underlying stream: what arrives and the error it carries. */
  function Arrive(m: Input, v: View): (r: (nat, Option<ReadError>))
    requires Valid(m, v)
    ensures r.0 <= m.cap - (v.filled - v.consumed) && v.filled + r.0 <= |m.x|
  {
    var step := m.o(v.calls);
    var n := Min(step.want, Min(m.cap - (v.filled - v.consumed), |m.x| - v.filled));
    (n, match step.signal
        case Quiet => None
        case End => if v.filled + n == |m.x| then Some(Eof) else None
        case Fault(code) => Some(Broken(code)))
  }

  /** `n` bytes came with one call. */
  function Arrived(v: View, n: nat): View {
    v.(filled := v.filled + n, calls := v.calls + 1)
  }

  /** Reads until something arrives, an error does, or call number `limit` is reached. */
  function FillUntil(m: Input, v: View, limit: nat): (v': View)
    requires Valid(m, v) && v.err.None?
    ensures Valid(m, v')
    ensures v'.consumed == v.consumed && v'.lines == v.lines && v.filled <= v'.filled
    ensures v'.err.None? ==> v.filled < v'.filled
    decreases limit - v.calls
  {
    if v.calls >= limit then v.(err := Some(NoProgress))
    else
      var a := Arrive(m, v);
      var w := Arrived(v, a.0);
      if a.1.Some? then w.(err := a.1)
      else if a.0 > 0 then w
      else FillUntil(m, w, limit)
  }

  lemma FillStep(m: Input, v: View, limit: nat, w: View)
    requires Valid(m, v) && v.err.None? && v.calls < limit && w == Arrived(v, Arrive(m, v).0)
    ensures Valid(m, w)
    ensures var (n, e) := Arrive(m, v);
      FillUntil(m, v, limit) == if e.Some? then w.(err := e) else if n > 0 then w else FillUntil(m, w, limit)
  {
  }

  /** Gives up after MAX_CONSECUTIVE_EMPTY_READS reads that bring nothing. */
  function Fill(m: Input, v: View): (v': View)
    requires Valid(m, v) && v.err.None?
    ensures Valid(m, v')
    ensures v'.consumed == v.consumed && v'.lines == v.lines && v.filled <= v'.filled
    ensures v'.err.None? ==> v.filled < v'.filled
  {
    FillUntil(m, v, v.calls + MAX_CONSECUTIVE_EMPTY_READS)
  }

  /** The next `n` reads bring nothing. */
  predicate BringsNothing(m: Input, v: View, n: nat) {
    forall k: nat :: v.calls <= k < v.calls + n ==> m.o(k) == ReadStep(0, Quiet)
  }

  lemma {:induction false} NothingArrives(m: Input, v: View, n: nat, limit: nat)
    requires Valid(m, v) && v.err.None? && BringsNothing(m, v, n) && v.calls + n <= limit
    ensures FillUntil(m, v, limit) == FillUntil(m, v.(calls := v.calls + n), limit)
    decreases n
  {
    if n > 0 {
      FillStep(m, v, limit, v.(calls := v.calls + 1));
      NothingArrives(m, v.(calls := v.calls + 1), n - 1, limit);
    }
  }

  /** After a hundred reads that bring nothing fill gives up; what the hundredth read brings still counts. */
  lemma GivesUpAfterHundred(m: Input, v: View)
    requires Valid(m, v) && v.err.None? && v.filled - v.consumed < m.cap
    ensures BringsNothing(m, v, 100) ==> Fill(m, v) == v.(calls := v.calls + 100, err := Some(NoProgress))
    ensures BringsNothing(m, v, 99) && m.o(v.calls + 99) == ReadStep(1, Quiet) && v.filled < |m.x| ==>
      Fill(m, v) == v.(filled := v.filled + 1, calls := v.calls + 100)
  {
    if BringsNothing(m, v, 100) {
      NothingArrives(m, v, 100, v.calls + MAX_CONSECUTIVE_EMPTY_READS);
    }
    if BringsNothing(m, v, 99) && m.o(v.calls + 99) == ReadStep(1, Quiet) && v.filled < |m.x| {
      NothingArrives(m, v, 99, v.calls + MAX_CONSECUTIVE_EMPTY_READS);
      var w := v.(calls := v.calls + 99);
      FillStep(m, w, v.calls + MAX_CONSECUTIVE_EMPTY_READS, w.(filled := v.filled + 1, calls := v.calls + 100));
    }
  }

  /** How one pass over the buffer ended. */
  datatype Outcome = Record | Failed(error: ReadError) | BufferFull

  /** Returns the bytes up to the new `consumed`, which `lines` then covers. */
  function Take(m: Input, v: View, upTo: nat): View
    requires Valid(m, v) && v.consumed <= upTo <= v.filled
  {
    v.(consumed := upTo, lines := v.lines + Count(m.f, m.x[v.consumed..v.filled]))
  }

  /** One pass over the buffered bytes; without a result more bytes are needed. */
  function Pass(m: Input, v: View): (r: Option<(View, Outcome)>)
    requires Valid(m, v)
    ensures r.None? ==> v.err.None? && v.filled - v.consumed < m.cap
    ensures r.None? ==> Count(m.f, m.x[v.consumed..v.filled]) == 0
  {
    var b := m.x[v.consumed..v.filled];
    var i := LastEnd(m.f, b);
    CountUpToLastEnd(m.f, b);
    if i >= 0 then Some((Take(m, v, v.consumed + i + 1), Record))
    else if v.err.Some? then Some((Take(m, v, v.filled).(err := None), Failed(v.err.value)))
    else if v.filled - v.consumed >= m.cap then Some((Take(m, v, v.filled), BufferFull))
    else None
  }

  function ReadRecord(m: Input, v: View): (r: (View, Outcome))
    requires Valid(m, v)
    ensures Valid(m, r.0) && v.consumed <= r.0.consumed
    ensures r.1.Record? ==> v.consumed < r.0.consumed
    ensures r.1.BufferFull? ==> r.0.consumed == r.0.filled == v.consumed + m.cap && r.0.err.None?
    decreases m.cap - (v.filled - v.consumed), if v.err.None? then 1 else 0
  {
    match Pass(m, v)
    case Some(r) => r
    case None => ReadRecord(m, Fill(m, v))
  }

  /** Joins buffer-fulls until a pass ends otherwise. Returns `x[v.consumed..r.0.consumed]`. */
  function Read(m: Input, v: View): (r: (View, Option<ReadError>))
    requires Valid(m, v)
    ensures Valid(m, r.0) && v.consumed <= r.0.consumed
    ensures r.1.None? ==> v.consumed < r.0.consumed
    decreases |m.x| - v.consumed
  {
    var (w, out) := ReadRecord(m, v);
    match out
    case Record => (w, None)
    case Failed(e) => (w, Some(e))
    case BufferFull => Read(m, w)
  }

  /** Where the chunks returned without error end, reading on until the first error. */
  function Cuts(m: Input, v: View): seq<nat>
    requires Valid(m, v)
    decreases |m.x| - v.consumed
  {
    var (w, e) := Read(m, v);
    if e.Some? then [] else [w.consumed] + Cuts(m, w)
  }

  /** Every chunk returned without error ends at a true terminator of the stream. */
  ghost predicate CutsAtTerminators(m: Input, v: View)
    requires Valid(m, v)
  {
    forall i :: 0 <= i < |Cuts(m, v)| ==>
      0 < Cuts(m, v)[i] <= |m.x| && EndsAt(m.f, m.x, Cuts(m, v)[i])
  }

  // ------------------------------------------------------------ the one-pass reference

  /** A scan begun afresh at `p` sees a record end at `e`. */
  predicate FreshEnd(f: Format, x: seq<byte>, p: nat, e: nat) {
    p < e <= |x| && EndsAt(f, x[p..], e - p)
  }

  /** End of the first record of `x[p..]` scanned afresh, searching ends after `q`. */
  function FirstEnd(f: Format, x: seq<byte>, p: nat, q: nat): (r: Option<nat>)
    requires p <= q <= |x|
    ensures r.Some? ==> q < r.value && FreshEnd(f, x, p, r.value)
    ensures forall e: nat :: q < e && FreshEnd(f, x, p, e) ==> r.Some? && r.value <= e
    decreases |x| - q
  {
    if q == |x| then None
    else if FreshEnd(f, x, p, q + 1) then Some(q + 1)
    else FirstEnd(f, x, p, q + 1)
  }

  /**
   Where a chunk begun at `p` first may end: at the first terminator of a fresh scan that
   lies within `cap` bytes; a full buffer without one is passed over and scanned afresh.
   */
  function Resume(f: Format, x: seq<byte>, cap: nat, p: nat): (r: Option<nat>)
    requires p <= |x| && cap > 0
    ensures r.Some? ==> p < r.value <= |x|
    decreases |x| - p
  {
    var e := FirstEnd(f, x, p, p);
    if e.Some? && e.value - p <= cap then e
    else if |x| - p >= cap then Resume(f, x, cap, p + cap)
    else None
  }

  /**
   From `p` on, every place where a fresh scan of at most `cap` bytes first sees a
   terminator is a true terminator. This depends on the stream and the buffer size only.
   */
  predicate Restartable(f: Format, x: seq<byte>, cap: nat, p: nat)
    requires p <= |x| && cap > 0
    decreases |x| - p
  {
    match Resume(f, x, cap, p)
    case None => true
    case Some(q) => EndsAt(f, x, q) && Restartable(f, x, cap, q)
  }

  /** Every record, terminator included, fits in the buffer; an unterminated rest is shorter. */
  ghost predicate RecordsFit(f: Format, x: seq<byte>, cap: nat) {
    forall b: nat :: b <= |x| && IsBoundary(f, x, b) && |x| - b >= cap ==>
      exists e: nat :: b < e <= b + cap && EndsAt(f, x, e)
  }

  // ------------------------------------------------------------ one pass over the buffer

  /** What a pass begun at `p` can say about a fresh scan from `p`. */
  ghost predicate PassSound(m: Input, p: nat, w: View, out: Outcome)
    requires p <= w.consumed <= |m.x|
  {
    match out
    case Record => w.consumed <= p + m.cap && FreshEnd(m.f, m.x, p, w.consumed)
    case Failed(_) => forall e: nat :: e <= w.consumed ==> !FreshEnd(m.f, m.x, p, e)
    case BufferFull => forall e: nat :: e <= p + m.cap ==> !FreshEnd(m.f, m.x, p, e)
  }

  lemma {:induction false} ReadRecordSound(m: Input, v: View)
    requires Valid(m, v)
    ensures PassSound(m, v.consumed, ReadRecord(m, v).0, ReadRecord(m, v).1)
    decreases m.cap - (v.filled - v.consumed), if v.err.None? then 1 else 0
  {
    BufferedEnds(m, v);
    if LastEnd(m.f, m.x[v.consumed..v.filled]) < 0 {
      if v.err.None? && v.filled - v.consumed < m.cap {
        ReadRecordSound(m, Fill(m, v));
      }
    }
  }

  /** The last terminator in the buffer is the last a fresh scan from `consumed` sees there. */
  lemma BufferedEnds(m: Input, v: View)
    requires Valid(m, v)
    ensures var p, i := v.consumed, LastEnd(m.f, m.x[v.consumed..v.filled]);
      && (i >= 0 ==> FreshEnd(m.f, m.x, p, p + i + 1))
      && (forall e: nat :: p + i + 1 < e <= v.filled ==> !FreshEnd(m.f, m.x, p, e))
  {
    var p := v.consumed;
    var b := m.x[p..v.filled];
    var i := LastEnd(m.f, b);
    LastEndIsLast(m.f, b);
    if i >= 0 {
      SameEnds(m.f, m.x, p, v.filled, p + i + 1);
    }
    forall e: nat | p + i + 1 < e <= v.filled ensures !FreshEnd(m.f, m.x, p, e) {
      SameEnds(m.f, m.x, p, v.filled, e);
    }
  }

  /** A buffer that begins at `p` shows the same terminators as a scan from `p`. */
  lemma SameEnds(f: Format, x: seq<byte>, p: nat, filled: nat, e: nat)
    requires p < e <= filled <= |x|
    ensures EndsAt(f, x[p..filled], e - p) == FreshEnd(f, x, p, e)
  {
    Prefix(x, p, filled);
    EndsAtPrefix(f, x[p..], filled - p, e - p);
  }

  /** A pass counts exactly the terminators a fresh scan sees in the bytes it returns. */
  lemma {:induction false} ReadRecordCounts(m: Input, v: View)
    requires Valid(m, v)
    ensures var w := ReadRecord(m, v).0;
      w.lines == v.lines + Count(m.f, m.x[v.consumed..w.consumed])
    decreases m.cap - (v.filled - v.consumed), if v.err.None? then 1 else 0
  {
    PassCounts(m, v);
    if Pass(m, v).None? {
      ReadRecordCounts(m, Fill(m, v));
    }
  }

  lemma PassCounts(m: Input, v: View)
    requires Valid(m, v)
    ensures Pass(m, v).Some? ==>
      var w := Pass(m, v).value.0;
      v.consumed <= w.consumed <= |m.x| && w.lines == v.lines + Count(m.f, m.x[v.consumed..w.consumed])
  {
    var b := m.x[v.consumed..v.filled];
    var i := LastEnd(m.f, b);
    CountUpToLastEnd(m.f, b);
    if i >= 0 {
      Cut(m.x, v.consumed, v.consumed + i + 1, v.filled);
    }
  }

  // ------------------------------------------------------------ Restartable is sufficient

  /** A true terminator at `q` seen by a fresh scan from `p` puts that scan back in step. */
  lemma InStepAfter(f: Format, x: seq<byte>, p: nat, q: nat, e: nat)
    requires q < e <= |x| && FreshEnd(f, x, p, q) && EndsAt(f, x, q)
    ensures FreshEnd(f, x, p, e) == EndsAt(f, x, e)
  {
    BoundaryResets(f, x[p..], q - p);
    BoundaryResets(f, x, q);
    assert x[p..][..q - p] == x[p..q];
    EndsAtAgree(f, x, p, q, e);
  }

  /** Restartability holds at every true terminator within `cap` bytes of a restartable one. */
  lemma {:induction false} RestartableOnward(f: Format, x: seq<byte>, cap: nat, q: nat, e: nat)
    requires 0 < q <= e <= |x| && e - q <= cap && cap > 0
    requires EndsAt(f, x, q) && EndsAt(f, x, e) && Restartable(f, x, cap, q)
    ensures Restartable(f, x, cap, e)
    decreases e - q
  {
    if q < e {
      RestartAtBoundary(f, x, q, e);
      assert FreshEnd(f, x, q, e);
      var n := FirstEnd(f, x, q, q).value;
      assert Resume(f, x, cap, q) == Some(n);
      RestartableOnward(f, x, cap, n, e);
    }
  }

  /** A Read ends with its first pass, unless that filled the buffer. */
  lemma ReadAfter(m: Input, v: View, w: View, out: Outcome)
    requires Valid(m, v) && ReadRecord(m, v) == (w, out)
    ensures match out
      case Record => Read(m, v) == (w, None)
      case Failed(e) => Read(m, v) == (w, Some(e))
      case BufferFull => Read(m, v) == Read(m, w)
  {
  }

  /**
   A chunk read from `p` ends at `e`: at a terminator of a scan begun at `p`, or, after a full
   buffer without one, where a chunk read from the end of that buffer does.
   */
  ghost predicate Spans(f: Format, x: seq<byte>, cap: nat, p: nat, e: nat)
    requires cap > 0
    decreases |x| - p
  {
    || (p < e <= p + cap && FreshEnd(f, x, p, e))
    || (p + cap <= |x| && (forall q: nat :: q <= p + cap ==> !FreshEnd(f, x, p, q)) && Spans(f, x, cap, p + cap, e))
  }

  /** That is all a Read without an error does, however the bytes arrive. */
  lemma {:induction false} ReadSpans(m: Input, v: View)
    requires Valid(m, v)
    ensures Read(m, v).1.None? ==> Spans(m.f, m.x, m.cap, v.consumed, Read(m, v).0.consumed)
    decreases |m.x| - v.consumed
  {
    var (w, out) := ReadRecord(m, v);
    ReadAfter(m, v, w, out);
    ReadRecordSound(m, v);
    if out.BufferFull? {
      ReadSpans(m, w);
    }
  }

  /** Where the stream is restartable a chunk ends at a true terminator, and it is restartable there. */
  lemma {:induction false} SpansKeepStep(f: Format, x: seq<byte>, cap: nat, b: nat, p: nat, e: nat)
    requires cap > 0 && b <= p <= |x| && Spans(f, x, cap, p, e)
    requires Resume(f, x, cap, b) == Resume(f, x, cap, p) && Restartable(f, x, cap, b)
    ensures 0 < e <= |x| && EndsAt(f, x, e) && Restartable(f, x, cap, e)
    decreases |x| - p
  {
    if p < e <= p + cap && FreshEnd(f, x, p, e) {
      RecordKeepsStep(f, x, cap, b, p, e);
    } else {
      OverflowResumes(f, x, cap, p);
      SpansKeepStep(f, x, cap, b, p + cap, e);
    }
  }

  /** A full buffer without a terminator does not change where the chunk may end. */
  lemma OverflowResumes(f: Format, x: seq<byte>, cap: nat, p: nat)
    requires cap > 0 && p + cap <= |x| && forall e: nat :: e <= p + cap ==> !FreshEnd(f, x, p, e)
    ensures Resume(f, x, cap, p) == Resume(f, x, cap, p + cap)
  {
  }

  lemma RecordKeepsStep(f: Format, x: seq<byte>, cap: nat, b: nat, p: nat, e: nat)
    requires cap > 0 && b <= p < e <= p + cap && FreshEnd(f, x, p, e)
    requires Resume(f, x, cap, b) == Resume(f, x, cap, p) && Restartable(f, x, cap, b)
    ensures EndsAt(f, x, e) && Restartable(f, x, cap, e)
  {
    var q := FirstEnd(f, x, p, p).value;
    assert Resume(f, x, cap, p) == Some(q);
    if q < e {
      InStepAfter(f, x, p, q, e);
      RestartableOnward(f, x, cap, q, e);
    }
  }

  lemma ReadKeepsStep(m: Input, v: View)
    requires Valid(m, v) && Restartable(m.f, m.x, m.cap, v.consumed)
    ensures
      var e := Read(m, v).0.consumed;
      Read(m, v).1.None? ==> 0 < e && EndsAt(m.f, m.x, e) && Restartable(m.f, m.x, m.cap, e)
  {
    ReadSpans(m, v);
    if Read(m, v).1.None? {
      SpansKeepStep(m.f, m.x, m.cap, v.consumed, v.consumed, Read(m, v).0.consumed);
    }
  }

  lemma {:induction false} RestartableCuts(m: Input, v: View)
    requires Valid(m, v) && Restartable(m.f, m.x, m.cap, v.consumed)
    ensures CutsAtTerminators(m, v)
    decreases |m.x| - v.consumed
  {
    var (w, e) := Read(m, v);
    if e.None? {
      ReadKeepsStep(m, v);
      RestartableCuts(m, w);
    }
  }

  // ------------------------------------------------------------ Restartable is necessary

  /** One byte per call, the last with end-of-file: the arrival that exposes every restart. */
  function Trickle(k: nat): ReadStep { ReadStep(1, End) }

  function EofAtEnd(m: Input, p: nat): Option<ReadError> {
    if p == |m.x| then Some(Eof) else None
  }

  /** Under the trickle each fill brings one byte, until the stream is dry. */
  lemma TrickleFill(m: Input, v: View)
    requires Valid(m, v) && m.o == Trickle && v.err.None? && v.filled - v.consumed < m.cap
    ensures
      var next := if v.filled < |m.x| then v.filled + 1 else v.filled;
      Fill(m, v) == v.(filled := next, calls := v.calls + 1, err := EofAtEnd(m, next))
  {
    FillStep(m, v, v.calls + MAX_CONSECUTIVE_EMPTY_READS, Arrived(v, Arrive(m, v).0));
  }

  lemma NothingYet(m: Input, v: View)
    requires Valid(m, v) && v.err.None? && v.filled - v.consumed < m.cap && LastEnd(m.f, m.x[v.consumed..v.filled]) < 0
    ensures ReadRecord(m, v) == ReadRecord(m, Fill(m, v))
  {
  }

  /** How a pass from `p` ends under the trickle. */
  ghost predicate TrickleOutcome(m: Input, p: nat, w: View, out: Outcome)
    requires p <= |m.x|
  {
    match out
    case Record =>
      w.filled == w.consumed && w.err == EofAtEnd(m, w.consumed) && FirstEnd(m.f, m.x, p, p) == Some(w.consumed)
    case Failed(e) => e == Eof && w.consumed == |m.x| <= p + m.cap
    case BufferFull => true
  }

  /** The buffer holds one byte more than was scanned in vain: the pass ends, or goes on in vain. */
  lemma TrickleByte(m: Input, v: View)
    requires Valid(m, v) && v.err == EofAtEnd(m, v.filled) && v.consumed < v.filled
    requires forall e: nat :: e < v.filled ==> !FreshEnd(m.f, m.x, v.consumed, e)
    ensures FreshEnd(m.f, m.x, v.consumed, v.filled) || v.err.Some? ==>
      TrickleOutcome(m, v.consumed, ReadRecord(m, v).0, ReadRecord(m, v).1)
  {
    BufferedEnds(m, v);
  }

  /** Under the trickle a pass from `p` ends at the first terminator a fresh scan sees. */
  lemma {:induction false} TricklePass(m: Input, v: View)
    requires Valid(m, v) && m.o == Trickle && v.err.None?
    requires forall e: nat :: e <= v.filled ==> !FreshEnd(m.f, m.x, v.consumed, e)
    ensures TrickleOutcome(m, v.consumed, ReadRecord(m, v).0, ReadRecord(m, v).1)
    decreases m.cap - (v.filled - v.consumed)
  {
    BufferedEnds(m, v);
    if v.filled - v.consumed < m.cap {
      var w := Fill(m, v);
      NothingYet(m, v);
      TrickleFill(m, v);
      if v.filled < |m.x| {
        TrickleByte(m, w);
        if w.err.None? && !FreshEnd(m.f, m.x, v.consumed, w.filled) {
          TricklePass(m, w);
        }
      } else {
        BufferedEnds(m, w);
      }
    }
  }

  /** What the end of such a pass says about where the chunk may end. */
  lemma TrickleResumes(m: Input, p: nat, w: View, out: Outcome)
    requires m.cap > 0 && p <= w.consumed <= |m.x| && TrickleOutcome(m, p, w, out) && PassSound(m, p, w, out)
    requires out.BufferFull? ==> w.consumed == p + m.cap
    ensures match out
      case Record => Resume(m.f, m.x, m.cap, p) == Some(w.consumed)
      case Failed(_) => Resume(m.f, m.x, m.cap, p) == None
      case BufferFull => Resume(m.f, m.x, m.cap, p) == Resume(m.f, m.x, m.cap, w.consumed)
  {
    if out.Failed? {
      assert FirstEnd(m.f, m.x, |m.x|, |m.x|) == None;
    }
  }

  /** Under the trickle a Read from `p` ends where Resume says. */
  lemma {:induction false} TrickleRead(m: Input, v: View)
    requires Valid(m, v) && m.o == Trickle && v.err.None? && v.filled == v.consumed
    ensures TrickleReadsTo(m, Read(m, v).0, Read(m, v).1, Resume(m.f, m.x, m.cap, v.consumed))
    decreases |m.x| - v.consumed
  {
    TricklePass(m, v);
    ReadRecordSound(m, v);
    var (w, out) := ReadRecord(m, v);
    ReadAfter(m, v, w, out);
    TrickleResumes(m, v.consumed, w, out);
    if out.BufferFull? {
      TrickleRead(m, w);
    }
  }

  ghost predicate TrickleReadsTo(m: Input, w: View, e: Option<ReadError>, resume: Option<nat>) {
    match resume
    case None => e == Some(Eof) && w.consumed == |m.x|
    case Some(q) => e.None? && w.consumed == q && w.filled == q && w.err == EofAtEnd(m, q)
  }

  lemma {:induction false} TrickleCuts(m: Input, v: View)
    requires Valid(m, v) && m.o == Trickle && v.filled == v.consumed && (v.err.None? || v.consumed == |m.x|)
    requires CutsAtTerminators(m, v)
    ensures Restartable(m.f, m.x, m.cap, v.consumed)
    decreases |m.x| - v.consumed
  {
    if v.consumed < |m.x| {
      TrickleRead(m, v);
      var (w, e) := Read(m, v);
      if e.None? {
        assert Cuts(m, v)[0] == w.consumed;
        forall i | 0 <= i < |Cuts(m, w)|
          ensures 0 < Cuts(m, w)[i] <= |m.x| && EndsAt(m.f, m.x, Cuts(m, w)[i])
        {
          assert Cuts(m, v)[i + 1] == Cuts(m, w)[i];
        }
        TrickleCuts(m, w);
      }
    } else {
      assert Resume(m.f, m.x, m.cap, v.consumed) == None;
    }
  }

  /**
   Exactly when chunks can be trusted: however the bytes arrive, every chunk returned
   without error ends at a true terminator, if and only if the stream is restartable.
   */
  lemma ChunksEndAtTerminatorsIff(f: Format, x: seq<byte>, cap: nat)
    requires cap > 0
    ensures (forall o: Oracle :: CutsAtTerminators(Input(x, o, cap, f), INITIAL)) <==> Restartable(f, x, cap, 0)
  {
    if Restartable(f, x, cap, 0) {
      forall o: Oracle ensures CutsAtTerminators(Input(x, o, cap, f), INITIAL) {
        RestartableCuts(Input(x, o, cap, f), INITIAL);
      }
    } else if forall o: Oracle :: CutsAtTerminators(Input(x, o, cap, f), INITIAL) {
      TrickleCuts(Input(x, Trickle, cap, f), INITIAL);
    }
  }

  /** Records that fit in the buffer make a stream restartable. */
  lemma {:induction false} FittingIsRestartable(f: Format, x: seq<byte>, cap: nat, b: nat)
    requires cap > 0 && b <= |x| && IsBoundary(f, x, b) && RecordsFit(f, x, cap)
    ensures Restartable(f, x, cap, b)
    decreases |x| - b
  {
    var r := FirstEnd(f, x, b, b);
    if |x| - b >= cap {
      var e: nat :| b < e <= b + cap && EndsAt(f, x, e);
      RestartAtBoundary(f, x, b, e);
      assert FreshEnd(f, x, b, e);
    }
    if r.Some? {
      RestartAtBoundary(f, x, b, r.value);
      FittingIsRestartable(f, x, cap, r.value);
    }
  }

  /** One record: a quoted field of `cap` bytes and a line end in it. */
  function Overlong(cap: nat, a: byte): (x: seq<byte>)
    requires cap > 1
    ensures |x| == cap + 3
  {
    [DOUBLE_QUOTE] + seq(cap - 1, _ => a) + [LF, DOUBLE_QUOTE, LF]
  }

  /**
   Not every stream is restartable: a quoted field longer than the buffer, holding a line end, is
   cut at that line end when it arrives byte by byte, for any buffer size. The first Read returns
   the part up to the line end without an error.
   */
  lemma OverlongQuotedFieldIsCut(cap: nat, a: byte, x: seq<byte>)
    requires cap > 1 && a != DOUBLE_QUOTE && a != LF && x == Overlong(cap, a)
    ensures !Restartable(HELPER_FORMAT, x, cap, 0) && !EndsAt(HELPER_FORMAT, x, cap + 1)
    ensures
      var (w, e) := Read(Input(x, Trickle, cap, HELPER_FORMAT), INITIAL);
      e.None? && w.consumed == cap + 1 && w.filled == cap + 1 && w.err.None?
  {
    OverlongResumes(cap, a, x);
    TrickleRead(Input(x, Trickle, cap, HELPER_FORMAT), INITIAL);
  }

  lemma OverlongResumes(cap: nat, a: byte, x: seq<byte>)
    requires cap > 1 && a != DOUBLE_QUOTE && a != LF && x == Overlong(cap, a)
    ensures Resume(HELPER_FORMAT, x, cap, 0) == Some(cap + 1)
    ensures !EndsAt(HELPER_FORMAT, x, cap + 1)
  {
    var f := HELPER_FORMAT;
    forall e: nat | 1 <= e <= cap ensures Run(f, START, x[..e]) == Scan(true, false, false) {
      StaysQuoted(x, cap, e);
    }
    assert x[0..] == x;
    assert forall e: nat :: 0 < e <= cap ==> !EndsAt(f, x, e) by {
      assert Run(f, START, x[..0]) == START;
    }
    assert x[cap..][..0] == [];
    assert EndsAt(f, x[cap..], 1);
    assert FirstEnd(f, x, cap, cap) == Some(cap + 1);
    assert Resume(f, x, cap, 0) == Resume(f, x, cap, cap) == Some(cap + 1);
  }

  lemma {:induction false} StaysQuoted(x: seq<byte>, n: nat, e: nat)
    requires 1 <= e <= n <= |x| && x[0] == DOUBLE_QUOTE && forall i :: 1 <= i < n ==> x[i] != DOUBLE_QUOTE
    ensures Run(HELPER_FORMAT, START, x[..e]) == Scan(true, false, false)
    decreases e
  {
    assert x[..e][..e - 1] == x[..e - 1];
    if e > 1 {
      StaysQuoted(x, n, e - 1);
    } else {
      assert Run(HELPER_FORMAT, START, x[..0]) == START;
    }
  }

  // ------------------------------------------------------------ the line counter

  /** With records that fit, a Read from a boundary never sees a full buffer ... */
  lemma FittingNeverOverflows(m: Input, v: View)
    requires Valid(m, v) && IsBoundary(m.f, m.x, v.consumed) && RecordsFit(m.f, m.x, m.cap)
    ensures !ReadRecord(m, v).1.BufferFull?
  {
    var b := v.consumed;
    var (w, out) := ReadRecord(m, v);
    if out.BufferFull? {
      ReadRecordSound(m, v);
      var e: nat :| b < e <= b + m.cap && EndsAt(m.f, m.x, e);
      RestartAtBoundary(m.f, m.x, b, e);
      assert FreshEnd(m.f, m.x, b, e);
    }
  }

  /** ... so the counter always equals the number of true terminators returned so far. */
  lemma CountIsExact(m: Input, v: View)
    requires Valid(m, v) && IsBoundary(m.f, m.x, v.consumed) && RecordsFit(m.f, m.x, m.cap)
    requires v.lines == Count(m.f, m.x[..v.consumed])
    ensures var (w, e) := Read(m, v);
      w.lines == Count(m.f, m.x[..w.consumed]) && (e.None? ==> IsBoundary(m.f, m.x, w.consumed))
  {
    FittingNeverOverflows(m, v);
    ReadRecordCounts(m, v);
    ReadRecordSound(m, v);
    var w := ReadRecord(m, v).0;
    CountSplit(m.f, m.x, v.consumed, w.consumed);
    if ReadRecord(m, v).1.Record? {
      RestartAtBoundary(m.f, m.x, v.consumed, w.consumed);
    }
  }

  /** End-of-file is returned only together with the last byte of the stream. */
  lemma {:induction false} EofMeansAll(m: Input, v: View)
    requires Valid(m, v) && (v.err == Some(Eof) ==> v.filled == |m.x|)
    ensures var (w, e) := Read(m, v);
      && (e == Some(Eof) ==> w.consumed == |m.x|)
      && (w.err == Some(Eof) ==> w.filled == |m.x|)
    decreases |m.x| - v.consumed
  {
    EofPass(m, v);
    var (w, out) := ReadRecord(m, v);
    if out.BufferFull? {
      EofMeansAll(m, w);
    }
  }

  lemma {:induction false} EofPass(m: Input, v: View)
    requires Valid(m, v) && (v.err == Some(Eof) ==> v.filled == |m.x|)
    ensures var (w, out) := ReadRecord(m, v);
      && (out == Failed(Eof) ==> w.consumed == |m.x|)
      && (w.err == Some(Eof) ==> w.filled == |m.x|)
    decreases m.cap - (v.filled - v.consumed), if v.err.None? then 1 else 0
  {
    if LastEnd(m.f, m.x[v.consumed..v.filled]) < 0 && v.err.None? && v.filled - v.consumed < m.cap {
      EofFill(m, v, v.calls + MAX_CONSECUTIVE_EMPTY_READS);
      EofPass(m, Fill(m, v));
    }
  }

  lemma {:induction false} EofFill(m: Input, v: View, limit: nat)
    requires Valid(m, v) && v.err.None?
    ensures FillUntil(m, v, limit).err == Some(Eof) ==> FillUntil(m, v, limit).filled == |m.x|
    decreases limit - v.calls
  {
    if v.calls < limit {
      var (n, e) := Arrive(m, v);
      if e.None? && n == 0 {
        EofFill(m, v.(calls := v.calls + 1), limit);
      }
    }
  }
}
