/**
 The quote/escape scanner that finds record terminators in CSV text
 (internal/reader/csv_reader.go). A terminator is an end-of-line sequence read
 outside quotes; reading one returns the scanner to its start state, which is why
 a scan may be restarted at any record boundary.
 */
module CsvScan {
  import opened Sequences

  type byte = b: int | 0 <= b < 256

  const LF: byte := 10
  const CR: byte := 13
  const DOUBLE_QUOTE: byte := 34

  datatype Eol = EolNl | EolCr | EolCrNl

  datatype Format = Format(quote: byte, escape: byte, eol: Eol)

  /** The format every helper process uses: quote and escape are both `"`, lines end in LF. */
  const HELPER_FORMAT := Format(DOUBLE_QUOTE, DOUBLE_QUOTE, EolNl)

  /** Scanner state. `lastCr` is tracked only for CR LF terminators. */
  datatype Scan = Scan(inQuote: bool, lastWasEsc: bool, lastCr: bool)

  const START := Scan(false, false, false)

  function Step(f: Format, s: Scan, c: byte): Scan {
    var cr := f.eol.EolCrNl? && c == CR;
    if s.inQuote then
      if s.lastWasEsc then Scan(true, false, cr)
      else if c == f.quote then Scan(false, false, cr)
      else Scan(true, c == f.escape, cr)
    else
      Scan(c == f.quote, false, cr)
  }

  /** Byte `c`, read in state `s`, ends a record. */
  predicate Ends(f: Format, s: Scan, c: byte) {
    && !s.inQuote
    && c != f.quote
    && match f.eol
       case EolNl => c == LF
       case EolCr => c == CR
       case EolCrNl => c == LF && s.lastCr
  }

  function Run(f: Format, s: Scan, b: seq<byte>): Scan {
    if b == [] then s else Step(f, Run(f, s, b[..|b| - 1]), b[|b| - 1])
  }

  /** The last byte of `b` ends a record when `b` is scanned from the start state. */
  predicate EndsAt(f: Format, b: seq<byte>, p: nat)
    requires p <= |b|
  {
    p > 0 && Ends(f, Run(f, START, b[..p - 1]), b[p - 1])
  }

  /** Position `p` lies between two records of `x`: at its beginning or just after a terminator. */
  predicate IsBoundary(f: Format, x: seq<byte>, p: nat)
    requires p <= |x|
  {
    p == 0 || EndsAt(f, x, p)
  }

  /** Index of the last terminator of `b`, or -1. */
  function LastEnd(f: Format, b: seq<byte>): (i: int)
    ensures -1 <= i < |b|
  {
    if b == [] then -1
    else if EndsAt(f, b, |b|) then |b| - 1
    else LastEnd(f, b[..|b| - 1])
  }

  /** Number of terminators of `b`. */
  function Count(f: Format, b: seq<byte>): nat {
    if b == [] then 0
    else Count(f, b[..|b| - 1]) + if EndsAt(f, b, |b|) then 1 else 0
  }

  // ------------------------------------------------------------------ scanner laws

  lemma {:induction false} RunConcat(f: Format, s: Scan, a: seq<byte>, b: seq<byte>)
    ensures Run(f, s, a + b) == Run(f, Run(f, s, a), b)
  {
    if b == [] {
      assert a + b == a;
    } else {
      assert (a + b)[..|a + b| - 1] == a + b[..|b| - 1];
      RunConcat(f, s, a, b[..|b| - 1]);
    }
  }

  /** A terminator resets the scanner, whatever quotes came before it. */
  lemma BoundaryResets(f: Format, x: seq<byte>, p: nat)
    requires p <= |x| && IsBoundary(f, x, p)
    ensures Run(f, START, x[..p]) == START
  {
    if p > 0 {
      assert x[..p][..p - 1] == x[..p - 1];
    }
  }

  lemma EndsAtPrefix(f: Format, b: seq<byte>, n: nat, p: nat)
    requires p <= n <= |b|
    ensures EndsAt(f, b[..n], p) == EndsAt(f, b, p)
  {
    if p > 0 {
      assert b[..n][..p - 1] == b[..p - 1];
    }
  }

  /** Scanning from two positions with the same state finds the same terminators beyond them. */
  lemma EndsAtAgree(f: Format, x: seq<byte>, p: nat, q: nat, e: nat)
    requires p <= q < e <= |x|
    requires Run(f, START, x[p..q]) == Run(f, START, x[..q])
    ensures EndsAt(f, x[p..], e - p) == EndsAt(f, x, e)
  {
    Prefix(x, p, e - 1);
    Glue(x, p, q, e - 1);
    Extend(x, q, e - 1);
    RunConcat(f, START, x[p..q], x[q..e - 1]);
    RunConcat(f, START, x[..q], x[q..e - 1]);
  }

  /** At a record boundary a fresh scan of the rest sees exactly the true terminators. */
  lemma RestartAtBoundary(f: Format, x: seq<byte>, b: nat, e: nat)
    requires b < e <= |x| && IsBoundary(f, x, b)
    ensures EndsAt(f, x[b..], e - b) == EndsAt(f, x, e)
  {
    BoundaryResets(f, x, b);
    assert x[b..b] == [];
    EndsAtAgree(f, x, b, b, e);
  }

  lemma {:induction false} LastEndIsLast(f: Format, b: seq<byte>)
    ensures LastEnd(f, b) >= 0 ==> EndsAt(f, b, LastEnd(f, b) + 1)
    ensures forall p: nat :: LastEnd(f, b) + 1 < p <= |b| ==> !EndsAt(f, b, p)
  {
    if b != [] && !EndsAt(f, b, |b|) {
      var a := b[..|b| - 1];
      LastEndIsLast(f, a);
      forall p: nat | p <= |a| ensures EndsAt(f, a, p) == EndsAt(f, b, p) {
        EndsAtPrefix(f, b, |a|, p);
      }
    }
  }

  /** No terminator is counted twice or missed when a text is cut at its last terminator. */
  lemma {:induction false} CountUpToLastEnd(f: Format, b: seq<byte>)
    ensures Count(f, b) == Count(f, b[..LastEnd(f, b) + 1])
    ensures LastEnd(f, b) == -1 ==> Count(f, b) == 0
  {
    if b == [] {
    } else if EndsAt(f, b, |b|) {
      assert b[..|b|] == b;
    } else {
      var a := b[..|b| - 1];
      CountUpToLastEnd(f, a);
      assert a[..LastEnd(f, a) + 1] == b[..LastEnd(f, b) + 1];
    }
  }

  /** Counting is additive over a cut at a record boundary. */
  lemma {:induction false} CountSplit(f: Format, x: seq<byte>, b: nat, e: nat)
    requires b <= e <= |x| && IsBoundary(f, x, b)
    ensures Count(f, x[..e]) == Count(f, x[..b]) + Count(f, x[b..e])
    decreases e
  {
    if b == e {
      assert x[b..e] == [];
    } else {
      CountSplit(f, x, b, e - 1);
      RestartAtBoundary(f, x, b, e);
      CountLast(f, x, e);
      CountLast(f, x[b..], e - b);
      Prefix(x, b, e);
      Prefix(x, b, e - 1);
    }
  }

  lemma CountLast(f: Format, x: seq<byte>, e: nat)
    requires 0 < e <= |x|
    ensures Count(f, x[..e]) == Count(f, x[..e - 1]) + if EndsAt(f, x, e) then 1 else 0
  {
    assert x[..e][..e - 1] == x[..e - 1];
    EndsAtPrefix(f, x, e, e);
  }

  // ------------------------------------------------------------------ quote parity

  function Quotes(f: Format, b: seq<byte>): nat {
    if b == [] then 0 else Quotes(f, b[..|b| - 1]) + if b[|b| - 1] == f.quote then 1 else 0
  }

  /**
   When quote and escape are the same byte the scanner is quote parity (section 2 of RFC 4180):
   a byte is inside quotes exactly when an odd number of quotes precedes it.
   */
  lemma {:induction false} QuoteParity(f: Format, b: seq<byte>)
    requires f.quote == f.escape
    ensures Run(f, START, b).inQuote <==> Quotes(f, b) % 2 == 1
    ensures !Run(f, START, b).lastWasEsc
  {
    if b != [] {
      QuoteParity(f, b[..|b| - 1]);
    }
  }

  /** In every format a record ends at its end-of-line bytes, outside quotes. */
  lemma TerminatorBytes(f: Format, x: seq<byte>, p: nat)
    requires 0 < p <= |x|
    ensures EndsAt(f, x, p) <==>
      && !Run(f, START, x[..p - 1]).inQuote && x[p - 1] != f.quote
      && match f.eol
         case EolNl => x[p - 1] == '\n' as int
         case EolCr => x[p - 1] == '\r' as int
         case EolCrNl => p > 1 && x[p - 2] == '\r' as int && x[p - 1] == '\n' as int
  {
    if p > 1 {
      assert x[..p - 1][|x[..p - 1]| - 1] == x[p - 2];
    }
  }

  /** Double quotes in `b`. */
  function DoubleQuotes(b: seq<byte>): nat {
    if b == [] then 0 else DoubleQuotes(b[..|b| - 1]) + if b[|b| - 1] == '"' as int then 1 else 0
  }

  lemma {:induction false} QuotesAreDouble(b: seq<byte>)
    ensures Quotes(HELPER_FORMAT, b) == DoubleQuotes(b)
  {
    if b != [] {
      QuotesAreDouble(b[..|b| - 1]);
    }
  }

  /** For the helpers a record ends exactly at a line feed after an even number of double quotes. */
  lemma HelperTerminators(x: seq<byte>, p: nat)
    requires 0 < p <= |x|
    ensures EndsAt(HELPER_FORMAT, x, p) <==> x[p - 1] == '\n' as int && DoubleQuotes(x[..p - 1]) % 2 == 0
  {
    QuoteParity(HELPER_FORMAT, x[..p - 1]);
    QuotesAreDouble(x[..p - 1]);
  }
}
