/** CSV text as the list of its records. */
module CsvRecords {
  import opened Wrappers
  import opened Sequences
  import opened CsvScan
  import opened RecordReader
  import opened Interleaving

  /** The records of `x`, each with its terminator; an unterminated rest is a last record. */
  function Records(f: Format, x: seq<byte>): seq<seq<byte>> {
    if x == [] then []
    else match FirstEnd(f, x, 0, 0)
         case None => [x]
         case Some(e) => [x[..e]] + Records(f, x[e..])
  }

  /** `x` is a whole number of records: it is empty or ends with a terminator. */
  predicate Complete(f: Format, x: seq<byte>) {
    IsBoundary(f, x, |x|)
  }

  /** `out` holds exactly the records of `streams`, those of each stream in their order. */
  ghost predicate Interleaves(f: Format, out: seq<byte>, streams: seq<seq<byte>>) {
    exists t: seq<Tagged<seq<byte>>> :: IsInterleaving(f, t, out, streams)
  }

  ghost predicate IsInterleaving(f: Format, t: seq<Tagged<seq<byte>>>, out: seq<byte>, streams: seq<seq<byte>>) {
    && Records(f, out) == Items(t)
    && (forall k :: 0 <= k < |t| ==> t[k].from < |streams|)
    && (forall i :: 0 <= i < |streams| ==> From(i, t) == Records(f, streams[i]))
  }

  // ------------------------------------------------------------ parsing is compositional

  lemma FirstEndOfConcat(f: Format, a: seq<byte>, b: seq<byte>)
    requires a != [] && Complete(f, a)
    ensures FirstEnd(f, a, 0, 0).Some?
    ensures FirstEnd(f, a + b, 0, 0) == FirstEnd(f, a, 0, 0)
  {
    assert a[0..] == a && (a + b)[0..] == a + b && (a + b)[..|a|] == a;
    assert FreshEnd(f, a, 0, |a|);
    forall e: nat | e <= |a| ensures FreshEnd(f, a + b, 0, e) == FreshEnd(f, a, 0, e) {
      EndsAtPrefix(f, a + b, |a|, e);
    }
    var e := FirstEnd(f, a, 0, 0).value;
    assert FreshEnd(f, a + b, 0, e);
    var e' := FirstEnd(f, a + b, 0, 0).value;
    assert FreshEnd(f, a, 0, e');
  }

  lemma CompleteRest(f: Format, a: seq<byte>, e: nat)
    requires e <= |a| && IsBoundary(f, a, e) && Complete(f, a)
    ensures Complete(f, a[e..])
  {
    if e < |a| {
      RestartAtBoundary(f, a, e, |a|);
    }
  }

  lemma RecordsFirst(f: Format, x: seq<byte>)
    requires x != [] && FirstEnd(f, x, 0, 0).Some?
    ensures var e := FirstEnd(f, x, 0, 0).value; Records(f, x) == [x[..e]] + Records(f, x[e..])
    ensures Complete(f, x) ==> Complete(f, x[FirstEnd(f, x, 0, 0).value..])
  {
    assert x[0..] == x;
    if Complete(f, x) {
      CompleteRest(f, x, FirstEnd(f, x, 0, 0).value);
    }
  }

  lemma ConcatAfter(a: seq<byte>, b: seq<byte>, e: nat)
    requires e <= |a|
    ensures (a + b)[..e] == a[..e] && (a + b)[e..] == a[e..] + b
  {
  }

  /** Text after a whole number of records parses on its own. */
  lemma {:induction false} RecordsConcat(f: Format, a: seq<byte>, b: seq<byte>)
    requires Complete(f, a)
    ensures Records(f, a + b) == Records(f, a) + Records(f, b)
    decreases |a|
  {
    if a == [] {
      assert a + b == b;
    } else {
      FirstEndOfConcat(f, a, b);
      var e := FirstEnd(f, a, 0, 0).value;
      RecordsFirst(f, a);
      RecordsFirst(f, a + b);
      RecordsConcat(f, a[e..], b);
      ConcatAfter(a, b, e);
      Associate([a[..e]], Records(f, a[e..]), Records(f, b));
    }
  }

  lemma CompleteConcat(f: Format, a: seq<byte>, b: seq<byte>)
    requires Complete(f, a) && Complete(f, b)
    ensures Complete(f, a + b)
  {
    if b == [] {
      assert a + b == a;
    } else {
      assert (a + b)[|a|..] == b && (a + b)[..|a|] == a;
      EndsAtPrefix(f, a + b, |a|, |a|);
      RestartAtBoundary(f, a + b, |a|, |a + b|);
    }
  }

  function RecordLists(f: Format, streams: seq<seq<byte>>): seq<seq<seq<byte>>> {
    seq(|streams|, i requires 0 <= i < |streams| => Records(f, streams[i]))
  }

  /** An interleaving neither loses, invents nor repeats a record. */
  lemma InterleavingIsUnion(f: Format, out: seq<byte>, streams: seq<seq<byte>>, r: seq<byte>)
    requires Interleaves(f, out, streams)
    ensures multiset(Records(f, out))[r] == Occurrences(RecordLists(f, streams), r)
  {
    var t: seq<Tagged<seq<byte>>> :| IsInterleaving(f, t, out, streams);
    OccurrencesAreAll(|streams|, t, r);
    assert FromLists(|streams|, t) == RecordLists(f, streams);
  }
}
