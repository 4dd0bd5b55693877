/**
 The buffered CSV reader itself (internal/reader/reader.go, csv_reader.go): one buffer,
 slid and refilled in place, scanned again from its start after every fill. Each
 method is proved to compute the function of the same name in RecordReader.dfy.
 */
module CsvReader {
  import opened Wrappers
  import opened Sequences
  import opened CsvScan
  import R = RecordReader

  const MIN_READ_BUFFER_SIZE: nat := 16

  /** The underlying io.Reader: a stream and the way it arrives. */
  class Source {
    const x: seq<byte>
    const o: R.Oracle
    var pos: nat
    var calls: nat

    constructor (x: seq<byte>, o: R.Oracle)
      ensures this.x == x && this.o == o && pos == 0 && calls == 0
    {
      this.x, this.o, pos, calls := x, o, 0, 0;
    }

    /** Copies the next bytes into `buf[from..]`. */
    method Read(buf: array<byte>, from: nat) returns (n: nat, err: Option<R.ReadError>)
      requires from <= buf.Length && pos <= |x|
      modifies this, buf
      ensures calls == old(calls) + 1 && pos == old(pos) + n <= |x|
      ensures n == R.Min(o(old(calls)).want, R.Min(buf.Length - from, |x| - old(pos)))
      ensures err == match o(old(calls)).signal
                     case Quiet => None
                     case End => if pos == |x| then Some(R.Eof) else None
                     case Fault(code) => Some(R.Broken(code))
      ensures buf[from..from + n] == x[old(pos)..pos]
      ensures buf[..from] == old(buf[..from])
    {
      var step := o(calls);
      calls := calls + 1;
      n := R.Min(step.want, R.Min(buf.Length - from, |x| - pos));
      var next := x[pos..pos + n];
      for i := 0 to n
        modifies buf
        invariant buf[from..from + i] == next[..i]
        invariant buf[..from] == old(buf[..from])
      {
        buf[from + i] := next[i];
      }
      assert next[..n] == x[pos..pos + n];
      pos := pos + n;
      match step.signal
      case Quiet => err := None;
      case End => err := if pos == |x| then Some(R.Eof) else None;
      case Fault(code) => err := Some(R.Broken(code));
    }
  }

  class CsvReader {
    const f: Format
    const rd: Source
    const buf: array<byte>
    var r: nat
    var w: nat
    var err: Option<R.ReadError>
    var line: nat
    var rawBuffer: seq<byte>
    ghost var consumed: nat // bytes of the stream returned so far

    /** The buffered bytes are exactly the delivered part of the stream not yet returned. */
    ghost predicate Valid()
      reads this, rd, buf
    {
      && MIN_READ_BUFFER_SIZE <= buf.Length
      && r <= w <= buf.Length
      && rd.pos == consumed + (w - r) <= |rd.x|
      && buf[r..w] == rd.x[consumed..rd.pos]
    }

    ghost function In(): R.Input
    {
      R.Input(rd.x, rd.o, buf.Length, f)
    }

    ghost function Now(): R.View
      reads this, rd
    {
      R.View(consumed, rd.pos, rd.calls, err, line)
    }

    constructor (rd: Source, size: nat, f: Format)
      requires rd.pos == 0 && rd.calls == 0
      ensures Valid() && fresh(buf) && Now() == R.INITIAL
      ensures this.rd == rd && this.f == f
      ensures buf.Length == if size < 16 then 16 else size
    {
      this.rd, this.f := rd, f;
      var n := if size < MIN_READ_BUFFER_SIZE then MIN_READ_BUFFER_SIZE else size;
      buf := new byte[n];
      r, w, err, line, rawBuffer, consumed := 0, 0, None, 0, [], 0;
    }

    /** Moves the unread bytes to the front of the buffer. */
    method Slide()
      requires Valid()
      modifies this`r, this`w, buf
      ensures Valid() && r == 0 && Now() == old(Now())
    {
      ghost var unread := buf[r..w];
      for i := 0 to w - r
        modifies buf
        invariant buf[..i] == unread[..i]
        invariant forall k :: r + i <= k < w ==> buf[k] == unread[k - r]
      {
        buf[i] := buf[r + i];
      }
      w := w - r;
      r := 0;
      assert buf[r..w] == unread;
    }

    /** One Read on the source, appended to the buffered bytes. */
    method ReadMore() returns (n: nat, e: Option<R.ReadError>)
      requires Valid() && r == 0
      modifies this`w, buf, rd
      ensures Valid()
      ensures R.Valid(In(), old(Now())) && R.Arrive(In(), old(Now())) == (n, e)
      ensures Now() == old(Now()).(filled := old(rd.pos) + n, calls := old(rd.calls) + 1)
    {
      n, e := rd.Read(buf, w);
      assert buf[..w + n] == buf[..w] + buf[w..w + n];
      Glue(rd.x, consumed, old(rd.pos), rd.pos);
      w := w + n;
      assert buf[r..w] == rd.x[consumed..rd.pos];
    }

    /** fill: there is always room, so the panic of the original cannot happen. */
    method Fill()
      requires Valid() && err.None? && w - r < buf.Length
      modifies this`r, this`w, this`err, buf, rd
      ensures Valid() && R.Valid(In(), old(Now()))
      ensures Now() == R.Fill(In(), old(Now()))
    {
      if r > 0 {
        Slide();
      }
      assert w < buf.Length;
      ReadSome();
    }

    /** Reads until something arrives, an error does, or too many reads brought nothing. */
    method ReadSome()
      requires Valid() && r == 0 && err.None?
      modifies this`w, this`err, buf, rd
      ensures Valid() && R.Valid(In(), old(Now()))
      ensures Now() == R.FillUntil(In(), old(Now()), old(rd.calls) + R.MAX_CONSECUTIVE_EMPTY_READS)
    {
      var i := R.MAX_CONSECUTIVE_EMPTY_READS;
      ghost var limit := rd.calls + i;
      ghost var goal := R.FillUntil(In(), Now(), limit);
      while i > 0
        invariant Valid() && r == 0 && err.None? && rd.calls + i == limit
        invariant goal == R.FillUntil(In(), Now(), limit)
        decreases i
      {
        ghost var before := Now();
        var n, e := ReadMore();
        R.FillStep(In(), before, limit, Now());
        if e.Some? {
          err := e;
          return;
        }
        if n > 0 {
          return;
        }
        i := i - 1;
      }
      err := Some(R.NoProgress);
    }

    /** The scanner loop for single-byte terminators. */
    method ParseNlOrCr(s: seq<byte>, delim: byte) returns (last: int)
      requires (f.eol == EolNl && delim == LF) || (f.eol == EolCr && delim == CR)
      modifies this`line
      ensures last == LastEnd(f, s) && line == old(line) + Count(f, s)
    {
      var inQuote, lastWasEsc := false, false;
      last := -1;
      for i := 0 to |s|
        invariant Run(f, START, s[..i]) == Scan(inQuote, lastWasEsc, false)
        invariant !inQuote ==> !lastWasEsc
        invariant last == LastEnd(f, s[..i]) && line == old(line) + Count(f, s[..i])
      {
        assert s[..i + 1][..i] == s[..i];
        var c := s[i];
        if inQuote {
          if lastWasEsc {
            lastWasEsc := false;
          } else {
            if c == f.quote {
              inQuote := false;
            } else if c == f.escape {
              lastWasEsc := true;
            }
          }
        } else if c == f.quote {
          inQuote := true;
        } else if c == delim {
          line := line + 1;
          last := i;
        }
      }
      assert s[..|s|] == s;
    }

    /** The scanner loop for CR LF terminators. */
    method ParseCrNl(s: seq<byte>) returns (last: int)
      requires f.eol == EolCrNl
      modifies this`line
      ensures last == LastEnd(f, s) && line == old(line) + Count(f, s)
    {
      var inQuote, lastWasEsc := false, false;
      var lastch: byte := 0;
      last := -1;
      for i := 0 to |s|
        invariant Run(f, START, s[..i]) == Scan(inQuote, lastWasEsc, lastch == CR)
        invariant !inQuote ==> !lastWasEsc
        invariant last == LastEnd(f, s[..i]) && line == old(line) + Count(f, s[..i])
      {
        assert s[..i + 1][..i] == s[..i];
        var c := s[i];
        if inQuote {
          if lastWasEsc {
            lastWasEsc := false;
          } else {
            if c == f.quote {
              inQuote := false;
            } else if c == f.escape {
              lastWasEsc := true;
            }
          }
        } else if c == f.quote {
          inQuote := true;
        } else if c == LF && lastch == CR {
          line := line + 1;
          last := i;
        }
        lastch := c;
      }
      assert s[..|s|] == s;
    }

    method ParseRecords(s: seq<byte>) returns (last: int)
      modifies this`line
      ensures last == LastEnd(f, s) && line == old(line) + Count(f, s)
    {
      match f.eol
      case EolNl => last := ParseNlOrCr(s, LF);
      case EolCr => last := ParseNlOrCr(s, CR);
      case EolCrNl => last := ParseCrNl(s);
    }

    /** Returns the first `n` buffered bytes to the caller. */
    method Take(n: nat) returns (record: seq<byte>)
      requires Valid() && n <= w - r
      modifies this`r, this`consumed
      ensures Valid() && consumed == old(consumed) + n
      ensures record == rd.x[old(consumed)..consumed]
    {
      record := buf[r..r + n];
      CutBoth(buf[..], r, w, rd.x, consumed, n);
      r, consumed := r + n, consumed + n;
    }

    /** Scans the buffer and returns what it holds, unless more bytes are needed. */
    method TryPass() returns (record: seq<byte>, out: Option<R.Outcome>)
      requires Valid()
      modifies this`r, this`err, this`line, this`consumed
      ensures Valid() && R.Valid(In(), old(Now()))
      ensures match R.Pass(In(), old(Now()))
              case Some(p) => Now() == p.0 && out == Some(p.1)
              case None => Now() == old(Now()) && out.None?
      ensures record == rd.x[old(consumed)..consumed]
    {
      record, out := [], None;
      var i := ParseRecords(buf[r..w]);
      if i >= 0 {
        record := Take(i + 1);
        out := Some(R.Record);
      } else if err.Some? {
        record := Take(w - r);
        out := Some(R.Failed(err.value));
        err := None;
      } else if w - r >= buf.Length {
        record := Take(w - r);
        out := Some(R.BufferFull);
      }
    }

    /**
     readRecord, whatever bytes were buffered and however the rest arrives. The returned
     record is the next stretch of the stream; rescans never count a terminator twice.
     */
    method ReadRecord() returns (record: seq<byte>, out: R.Outcome)
      requires Valid()
      modifies this`r, this`w, this`err, this`line, this`consumed, buf, rd
      ensures Valid() && R.Valid(In(), old(Now()))
      ensures (Now(), out) == R.ReadRecord(In(), old(Now()))
      ensures record == rd.x[old(consumed)..consumed]
    {
      ghost var goal := R.ReadRecord(In(), Now());
      while true
        invariant Valid() && consumed == old(consumed)
        invariant goal == R.ReadRecord(In(), Now())
        decreases buf.Length - (w - r), if err.None? then 1 else 0
      {
        ghost var before := Now();
        var found;
        record, found := TryPass();
        assert goal == match R.Pass(In(), before)
                       case Some(p) => p
                       case None => R.ReadRecord(In(), R.Fill(In(), before));
        if found.Some? {
          return record, found.value;
        }
        Fill();
      }
    }

    /** Read: the next stretch of the stream, however many buffer-fulls it takes. */
    method Read() returns (record: seq<byte>, e: Option<R.ReadError>)
      requires Valid()
      modifies this, buf, rd
      ensures Valid() && R.Valid(In(), old(Now()))
      ensures (Now(), e) == R.Read(In(), old(Now()))
      ensures record == rd.x[old(consumed)..consumed]
    {
      ghost var goal := R.Read(In(), Now());
      ghost var before := Now();
      var out;
      record, out := ReadRecord();
      R.ReadAfter(In(), before, Now(), out);
      if out.BufferFull? {
        rawBuffer := record;
        while out.BufferFull?
          invariant Valid() && old(consumed) <= consumed
          invariant goal == Rest(out)
          invariant rawBuffer == rd.x[old(consumed)..consumed]
          decreases |rd.x| - consumed, if out.BufferFull? then 1 else 0
        {
          ghost var mid := consumed;
          before := Now();
          record, out := ReadRecord();
          R.ReadAfter(In(), before, Now(), out);
          Glue(rd.x, old(consumed), mid, consumed);
          rawBuffer := rawBuffer + record;
        }
        record := rawBuffer;
      }
      e := if out.Failed? then Some(out.error) else None;
    }

    /** What Read still has to return after a pass that ended with `out`. */
    ghost function Rest(out: R.Outcome): (R.View, Option<R.ReadError>)
      requires Valid()
      reads this, rd, buf
    {
      match out
      case Record => (Now(), None)
      case Failed(e) => (Now(), Some(e))
      case BufferFull => R.Read(In(), Now())
    }
  }
}
