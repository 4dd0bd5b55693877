/**
 The list of skipped tables written at the end of a run (meta/builtin/skip_existing.go
 dedupByDestFQN): both filters record a table, and the more informative reason is reported.
 */
module SkipRecords {
  import opened SkipExisting

  datatype Key = Key(db: string, schema: string, name: string)

  function KeyOf(r: Skipped): Key {
    Key(r.destDb, r.destSchema, r.destName)
  }

  function Score(r: Reason): nat {
    match r
    case HalfBuiltLeaf => 3
    case RootExists => 2
    case Exists => 1
  }

  function Better(a: Reason, b: Reason): Reason {
    if Score(b) > Score(a) then b else a
  }

  // ------------------------------------------------------------ what the list should hold

  predicate Recorded(list: seq<Skipped>, k: Key) {
    exists i :: 0 <= i < |list| && KeyOf(list[i]) == k
  }

  /** `r` is a recorded reason for `k`, and no recorded one scores higher. */
  ghost predicate IsBest(list: seq<Skipped>, k: Key, r: Reason) {
    && (exists i :: 0 <= i < |list| && KeyOf(list[i]) == k && list[i].reason == r)
    && forall i :: 0 <= i < |list| && KeyOf(list[i]) == k ==> Score(list[i].reason) <= Score(r)
  }

  /** Position `i` is the first record of its destination table. */
  predicate IsFirst(list: seq<Skipped>, i: nat)
    requires i < |list|
  {
    !Recorded(list[..i], KeyOf(list[i]))
  }

  /** `first` lists the first records in order; entry `j` of `out` is the record at `first[j]` with the best reason. */
  ghost predicate IsDigest(list: seq<Skipped>, out: seq<Skipped>, first: seq<nat>) {
    && |first| == |out|
    && (forall j :: 0 <= j < |first| ==> first[j] < |list| && IsFirst(list, first[j]))
    && (forall i, j :: 0 <= i < j < |first| ==> first[i] < first[j])
    && (forall i: nat :: i < |list| && IsFirst(list, i) ==> i in first)
    && (forall j :: 0 <= j < |out| ==> out[j] == list[first[j]].(reason := out[j].reason))
    && forall j :: 0 <= j < |out| ==> IsBest(list, KeyOf(out[j]), out[j].reason)
  }

  // ------------------------------------------------------------ adding one record

  lemma FirstsKept(list: seq<Skipped>, x: Skipped)
    ensures forall i: nat :: i < |list| ==> (IsFirst(list + [x], i) <==> IsFirst(list, i))
    ensures IsFirst(list + [x], |list|) <==> !Recorded(list, KeyOf(x))
  {
    var t := list + [x];
    assert t[..|list|] == list;
    assert forall i: nat :: i < |list| ==> t[..i] == list[..i];
  }

  /** Only the best reason of the record's own table can change. */
  lemma BestAfter(list: seq<Skipped>, x: Skipped, k: Key, r: Reason)
    requires IsBest(list, k, r)
    ensures IsBest(list + [x], k, if KeyOf(x) == k then Better(r, x.reason) else r)
  {
    var t := list + [x];
    var i :| 0 <= i < |list| && KeyOf(list[i]) == k && list[i].reason == r;
    assert t[i] == list[i] && t[|list|] == x;
  }

  lemma DigestNew(list: seq<Skipped>, out: seq<Skipped>, first: seq<nat>, x: Skipped)
    requires IsDigest(list, out, first) && !Recorded(list, KeyOf(x))
    ensures IsDigest(list + [x], out + [x], first + [|list|])
  {
    var t := list + [x];
    FirstsKept(list, x);
    assert t[|list|] == x;
    forall j | 0 <= j < |out| + 1 ensures IsBest(t, KeyOf((out + [x])[j]), (out + [x])[j].reason) {
      if j < |out| {
        assert KeyOf(out[j]) == KeyOf(list[first[j]]);
        BestAfter(list, x, KeyOf(out[j]), out[j].reason);
      }
    }
  }

  lemma DigestKnown(list: seq<Skipped>, out: seq<Skipped>, first: seq<nat>, x: Skipped, at: nat)
    requires IsDigest(list, out, first) && at < |out| && KeyOf(out[at]) == KeyOf(x)
    ensures IsDigest(list + [x], out[at := out[at].(reason := Better(out[at].reason, x.reason))], first)
  {
    var t := list + [x];
    var out' := out[at := out[at].(reason := Better(out[at].reason, x.reason))];
    FirstsKept(list, x);
    assert KeyOf(list[first[at]]) == KeyOf(x);
    assert Recorded(list, KeyOf(x));
    forall j | 0 <= j < |out| ensures IsBest(t, KeyOf(out'[j]), out'[j].reason) {
      BestAfter(list, x, KeyOf(out[j]), out[j].reason);
      if j != at {
        KeysDiffer(list, out, first, j, at);
      }
    }
  }

  /** One entry per destination table. */
  lemma KeysDiffer(list: seq<Skipped>, out: seq<Skipped>, first: seq<nat>, i: nat, j: nat)
    requires IsDigest(list, out, first) && i < |out| && j < |out| && i != j
    ensures KeyOf(out[i]) != KeyOf(out[j])
  {
    var a, b := if i < j then i else j, if i < j then j else i;
    assert IsFirst(list, first[b]) && first[a] < first[b];
    assert list[..first[b]][first[a]] == list[first[a]];
    assert KeyOf(out[a]) == KeyOf(list[first[a]]) && KeyOf(out[b]) == KeyOf(list[first[b]]);
  }

  /** `at` finds the entry of each recorded table. */
  ghost predicate Indexes(list: seq<Skipped>, out: seq<Skipped>, at: map<Key, nat>) {
    && (forall k :: Recorded(list, k) ==> k in at)
    && forall k :: k in at ==> at[k] < |out| && KeyOf(out[at[k]]) == k && Recorded(list, k)
  }

  lemma RecordedOneMore(list: seq<Skipped>, x: Skipped, k: Key)
    ensures Recorded(list + [x], k) <==> Recorded(list, k) || k == KeyOf(x)
  {
    var t := list + [x];
    assert t[|list|] == x;
    if Recorded(list, k) {
      var i :| 0 <= i < |list| && KeyOf(list[i]) == k;
      assert t[i] == list[i];
    }
  }

  lemma IndexesKnown(list: seq<Skipped>, out: seq<Skipped>, at: map<Key, nat>, x: Skipped, r: Reason)
    requires Indexes(list, out, at) && KeyOf(x) in at
    ensures Indexes(list + [x], out[at[KeyOf(x)] := out[at[KeyOf(x)]].(reason := r)], at)
  {
    forall k ensures Recorded(list + [x], k) <==> Recorded(list, k) || k == KeyOf(x) {
      RecordedOneMore(list, x, k);
    }
  }

  lemma IndexesNew(list: seq<Skipped>, out: seq<Skipped>, at: map<Key, nat>, x: Skipped)
    requires Indexes(list, out, at) && KeyOf(x) !in at
    ensures Indexes(list + [x], out + [x], at[KeyOf(x) := |out|])
  {
    forall k ensures Recorded(list + [x], k) <==> Recorded(list, k) || k == KeyOf(x) {
      RecordedOneMore(list, x, k);
    }
  }

  /** One entry per destination table, where it was first recorded, with its best reason. */
  method Dedup(list: seq<Skipped>) returns (out: seq<Skipped>)
    ensures exists first :: IsDigest(list, out, first)
  {
    out := [];
    var at: map<Key, nat> := map[];
    ghost var first: seq<nat> := [];
    for i := 0 to |list|
      invariant IsDigest(list[..i], out, first)
      invariant Indexes(list[..i], out, at)
    {
      out, at, first := Add(list[..i], list[i], out, at, first);
      assert list[..i + 1] == list[..i] + [list[i]];
    }
    assert list[..|list|] == list;
  }

  /** The body of the loop. */
  method Add(ghost list: seq<Skipped>, x: Skipped, out: seq<Skipped>, at: map<Key, nat>, ghost first: seq<nat>)
    returns (out': seq<Skipped>, at': map<Key, nat>, ghost first': seq<nat>)
    requires IsDigest(list, out, first) && Indexes(list, out, at)
    ensures IsDigest(list + [x], out', first') && Indexes(list + [x], out', at')
  {
    var k := KeyOf(x);
    out', at', first' := out, at, first;
    if k in at {
      var idx := at[k];
      DigestKnown(list, out, first, x, idx);
      IndexesKnown(list, out, at, x, Better(out[idx].reason, x.reason));
      if Score(x.reason) > Score(out[idx].reason) {
        out' := out[idx := out[idx].(reason := x.reason)];
      } else {
        assert out == out[idx := out[idx].(reason := Better(out[idx].reason, x.reason))];
      }
    } else {
      DigestNew(list, out, first, x);
      IndexesNew(list, out, at, x);
      at' := at[k := |out|];
      out' := out + [x];
      first' := first + [|list|];
    }
  }

  // ------------------------------------------------------------ which filter records first

  /** A table has one best reason, and it does not depend on which filter recorded first. */
  lemma BestIgnoresOrder(a: seq<Skipped>, b: seq<Skipped>, k: Key, r: Reason, r': Reason)
    requires IsBest(a + b, k, r) && IsBest(b + a, k, r')
    ensures r == r'
  {
    AtMost(a, b, k, r, r');
    AtMost(b, a, k, r', r);
  }

  lemma AtMost(a: seq<Skipped>, b: seq<Skipped>, k: Key, r: Reason, r': Reason)
    requires IsBest(a + b, k, r) && IsBest(b + a, k, r')
    ensures Score(r) <= Score(r')
  {
    var i :| 0 <= i < |a + b| && KeyOf((a + b)[i]) == k && (a + b)[i].reason == r;
    var j := if i < |a| then |b| + i else i - |a|;
    assert (b + a)[j] == (a + b)[i];
  }

  // ------------------------------------------------------------ what the list says

  /** `r` was recorded for the destination table with that name. */
  predicate RecordedAs(list: seq<Skipped>, db: string, schema: string, name: string, r: Reason) {
    exists i :: 0 <= i < |list| &&
      list[i].destDb == db && list[i].destSchema == schema && list[i].destName == name && list[i].reason == r
  }

  /** A half-built leaf is reported as such, else an existing root, else an existing table. */
  lemma ReportedReason(list: seq<Skipped>, out: seq<Skipped>, first: seq<nat>, j: nat)
    requires IsDigest(list, out, first) && j < |out|
    ensures
      var x := out[j];
      x.reason ==
        if RecordedAs(list, x.destDb, x.destSchema, x.destName, HalfBuiltLeaf) then HalfBuiltLeaf
        else if RecordedAs(list, x.destDb, x.destSchema, x.destName, RootExists) then RootExists
        else Exists
  {
    var x := out[j];
    assert IsBest(list, KeyOf(x), x.reason);
    var i :| 0 <= i < |list| && KeyOf(list[i]) == KeyOf(x) && list[i].reason == x.reason;
    assert RecordedAs(list, x.destDb, x.destSchema, x.destName, x.reason);
  }

  predicate SameTable(a: Skipped, b: Skipped) {
    a.destDb == b.destDb && a.destSchema == b.destSchema && a.destName == b.destName
  }

  /** Every recorded destination table is reported, and none twice. */
  lemma ReportedOnce(list: seq<Skipped>, out: seq<Skipped>, first: seq<nat>, i: nat) returns (j: nat)
    requires IsDigest(list, out, first) && i < |list|
    ensures j < |out| && SameTable(out[j], list[i])
    ensures forall k: nat :: k < |out| && k != j ==> !SameTable(out[k], list[i])
  {
    var f := FirstRecord(list, i);
    j :| 0 <= j < |first| && first[j] == f;
    assert out[j] == list[f].(reason := out[j].reason);
    forall k: nat | k < |out| && k != j ensures !SameTable(out[k], list[i]) {
      KeysDiffer(list, out, first, k, j);
    }
  }

  lemma {:induction false} FirstRecord(list: seq<Skipped>, i: nat) returns (f: nat)
    requires i < |list|
    ensures f <= i && IsFirst(list, f) && KeyOf(list[f]) == KeyOf(list[i])
    decreases i
  {
    f := i;
    if !IsFirst(list, i) {
      var k :| 0 <= k < i && KeyOf(list[..i][k]) == KeyOf(list[i]);
      f := FirstRecord(list, k);
    }
  }
}
