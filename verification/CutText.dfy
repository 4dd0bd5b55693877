/**
 Text that is cut inside a record: if another stream's record is put in at a place that is no
 record boundary, that record is not to be found again.
 */
module CutText {
  import opened Wrappers
  import opened Sequences
  import opened CsvScan
  import opened RecordReader
  import opened Interleaving
  import opened CsvRecords

  const PLAIN: byte := 97

  // ------------------------------------------------------------ a harmless companion

  /** One record of `n` plain bytes. */
  function Companion(n: nat): (y: seq<byte>)
    ensures |y| == n + 1 && y[n] == LF && forall i :: 0 <= i < n ==> y[i] == PLAIN
  {
    seq(n, _ => PLAIN) + [LF]
  }

  lemma {:induction false} PlainKeepsStart(b: seq<byte>)
    requires forall i :: 0 <= i < |b| ==> b[i] != DOUBLE_QUOTE
    ensures Run(HELPER_FORMAT, START, b) == START
  {
    if b != [] {
      PlainKeepsStart(b[..|b| - 1]);
    }
  }

  /** Wherever a scan of it begins, it sees the one terminator. */
  lemma CompanionEnds(n: nat, y: seq<byte>, p: nat)
    requires y == Companion(n) && p <= n
    ensures FirstEnd(HELPER_FORMAT, y, p, p) == Some(n + 1)
  {
    forall e: nat | p < e <= n + 1 ensures FreshEnd(HELPER_FORMAT, y, p, e) <==> e == n + 1 {
      PlainKeepsStart(y[p..][..e - p - 1]);
    }
    assert FreshEnd(HELPER_FORMAT, y, p, n + 1);
  }

  lemma {:induction false} CompanionResumes(n: nat, y: seq<byte>, cap: nat, p: nat)
    requires y == Companion(n) && p <= n && cap > 0
    ensures Resume(HELPER_FORMAT, y, cap, p) == Some(n + 1)
    decreases n - p
  {
    CompanionEnds(n, y, p);
    if n + 1 - p > cap {
      CompanionResumes(n, y, cap, p + cap);
    }
  }

  /** It is complete, restartable for any buffer size, and one record. */
  lemma CompanionIsHarmless(n: nat, y: seq<byte>, cap: nat)
    requires y == Companion(n) && cap > 0
    ensures Complete(HELPER_FORMAT, y) && Restartable(HELPER_FORMAT, y, cap, 0) && Records(HELPER_FORMAT, y) == [y]
  {
    CompanionEnds(n, y, 0);
    CompanionResumes(n, y, cap, 0);
    assert y[0..] == y && y[..n + 1] == y && y[n + 1..] == [];
    assert FirstEnd(HELPER_FORMAT, y, n + 1, n + 1) == None;
  }

  // ------------------------------------------------------------ records begin at boundaries

  lemma {:induction false} RecordBeginsAtBoundary(f: Format, x: seq<byte>, r: seq<byte>) returns (s: nat)
    requires r in Records(f, x)
    ensures s + |r| <= |x| && IsBoundary(f, x, s) && x[s..s + |r|] == r
  {
    var first := FirstEnd(f, x, 0, 0);
    if first.None? {
      s := 0;
    } else {
      var e := first.value;
      assert x[0..] == x;
      assert Records(f, x) == [x[..e]] + Records(f, x[e..]);
      if r == x[..e] {
        s := 0;
      } else {
        var t := RecordBeginsAtBoundary(f, x[e..], r);
        s := e + t;
        BoundaryAfter(f, x, e, t);
        Within(x, e, t, t + |r|);
      }
    }
  }

  lemma BoundaryAfter(f: Format, x: seq<byte>, e: nat, t: nat)
    requires e + t <= |x| && IsBoundary(f, x, e) && IsBoundary(f, x[e..], t)
    ensures IsBoundary(f, x, e + t)
  {
    if t > 0 {
      RestartAtBoundary(f, x, e, e + t);
    }
  }

  // ------------------------------------------------------------ a record put in where none begins

  /** `y` in the middle of `x`. */
  function Spoiled(x: seq<byte>, q: nat, y: seq<byte>): seq<byte>
    requires q <= |x|
  {
    x[..q] + y + x[q..]
  }

  /** A companion as long as the text fits nowhere in it but where it was put. */
  lemma CompanionFitsOnce(x: seq<byte>, q: nat, y: seq<byte>, s: nat)
    requires q <= |x| && y == Companion(|x|) && s + |y| <= |Spoiled(x, q, y)| && s != q
    ensures Spoiled(x, q, y)[s..s + |y|] != y
  {
    var out, n := Spoiled(x, q, y), |x|;
    var found := out[s..s + |y|];
    if s < q {
      assert found[n] == out[s + n] == y[s + n - q] == PLAIN;
    } else {
      assert found[q + n - s] == out[q + n] == y[n] == LF;
    }
  }

  /** So where `q` is no boundary of `x` it is no record of the result. */
  lemma CompanionIsLost(x: seq<byte>, q: nat, y: seq<byte>)
    requires q <= |x| && y == Companion(|x|) && !IsBoundary(HELPER_FORMAT, x, q)
    ensures y !in Records(HELPER_FORMAT, Spoiled(x, q, y))
  {
    var f, out := HELPER_FORMAT, Spoiled(x, q, y);
    assert out[..q] == x[..q];
    EndsAtPrefix(f, out, q, q);
    EndsAtPrefix(f, x, q, q);
    assert !IsBoundary(f, out, q);
    if y in Records(f, out) {
      var s := RecordBeginsAtBoundary(f, out, y);
      if s != q {
        CompanionFitsOnce(x, q, y, s);
      }
    }
  }

  lemma SpoiledIsNoInterleaving(x: seq<byte>, q: nat, y: seq<byte>)
    requires q <= |x| && y == Companion(|x|) && !IsBoundary(HELPER_FORMAT, x, q)
    ensures !Interleaves(HELPER_FORMAT, Spoiled(x, q, y), [x, y])
  {
    var out := Spoiled(x, q, y);
    CompanionIsHarmless(|x|, y, 1);
    CompanionIsLost(x, q, y);
    var lists := RecordLists(HELPER_FORMAT, [x, y]);
    assert lists[..1] + [lists[1]] == lists && lists[1] == [y];
    assert Occurrences(lists, y) >= multiset([y])[y];
    assert multiset(Records(HELPER_FORMAT, out))[y] == 0;
    if Interleaves(HELPER_FORMAT, out, [x, y]) {
      InterleavingIsUnion(HELPER_FORMAT, out, [x, y], y);
    }
  }

  // ------------------------------------------------------------ one quoted record

  /** A quote at the beginning, one before the last byte, and a line end last: one record. */
  lemma QuotedIsOneRecord(x: seq<byte>)
    requires |x| > 2 && x[0] == DOUBLE_QUOTE && x[|x| - 2] == DOUBLE_QUOTE && x[|x| - 1] == LF
    requires forall i :: 1 <= i < |x| - 2 ==> x[i] != DOUBLE_QUOTE
    ensures Complete(HELPER_FORMAT, x) && Records(HELPER_FORMAT, x) == [x]
  {
    var f, n := HELPER_FORMAT, |x| - 2;
    forall e: nat | 1 <= e <= n ensures Run(f, START, x[..e]) == Scan(true, false, false) {
      StaysQuoted(x, n, e);
    }
    assert x[..n + 1][..n] == x[..n];
    assert EndsAt(f, x, |x|);
    assert x[0..] == x;
    forall e: nat | 0 < e < |x| ensures !FreshEnd(f, x, 0, e) {
      if e == 1 {
        assert x[..0] == [];
      }
    }
    assert FreshEnd(f, x, 0, |x|);
    assert x[..|x|] == x && x[|x|..] == [];
  }
}
