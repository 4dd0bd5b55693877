/** The list of helper ports read back from the listening cluster (copy/copy_port_helper.go). */
module PortList {
  import opened FiniteSets
  import opened Sequences

  datatype HelperPort = HelperPort(content: int, port: int)

  /** The first row given for `c` has port `p`. */
  predicate FirstPort(rows: seq<HelperPort>, c: int, p: int) {
    exists i :: 0 <= i < |rows| && rows[i] == HelperPort(c, p) && forall j :: 0 <= j < i ==> rows[j].content != c
  }

  ghost function Contents(rows: seq<HelperPort>): set<int> {
    set i | 0 <= i < |rows| :: rows[i].content
  }

  predicate Increasing(s: seq<int>) {
    forall i, j :: 0 <= i < j < |s| ==> s[i] < s[j]
  }

  function ContentList(list: seq<HelperPort>): seq<int> {
    seq(|list|, i requires 0 <= i < |list| => list[i].content)
  }

  /** One entry per content, in ascending order, with the port first seen for it. */
  ghost predicate IsPortList(rows: seq<HelperPort>, list: seq<HelperPort>) {
    && Increasing(ContentList(list))
    && Contents(list) == Contents(rows)
    && (forall i :: 0 <= i < |list| ==> FirstPort(rows, list[i].content, list[i].port))
  }

  /** The rows never give two ports for one content. */
  predicate Consistent(rows: seq<HelperPort>) {
    forall i, j :: 0 <= i < |rows| && 0 <= j < |rows| && rows[i].content == rows[j].content ==>
      rows[i].port == rows[j].port
  }

  lemma MembersInsert(s: seq<int>, at: nat, x: int)
    requires at <= |s|
    ensures Members(s[..at] + [x] + s[at..]) == Members(s) + {x}
  {
    var t := s[..at] + [x] + s[at..];
    assert s == s[..at] + s[at..];
    assert forall y :: y in t <==> y in s[..at] || y == x || y in s[at..];
    assert forall y :: y in s <==> y in s[..at] || y in s[at..];
  }

  /** The keys of the map, in whatever order the iteration yields them. */
  method KeysInAnyOrder(m: map<int, int>) returns (keys: seq<int>)
    ensures Members(keys) == m.Keys
    ensures NoRepeats(keys)
  {
    keys := [];
    var todo := m.Keys;
    while todo != {}
      invariant todo <= m.Keys
      invariant Members(keys) == m.Keys - todo
      invariant NoRepeats(keys)
      decreases todo
    {
      var k := AnyOf(todo);
      MembersInsert(keys, |keys|, k);
      assert keys + [k] == keys[..|keys|] + [k] + keys[|keys|..];
      keys := keys + [k];
      todo := todo - {k};
    }
  }

  /** sort.Ints on distinct keys. */
  method SortInts(keys: seq<int>) returns (sorted: seq<int>)
    requires NoRepeats(keys)
    ensures Increasing(sorted)
    ensures Members(sorted) == Members(keys)
  {
    sorted := [];
    for n := 0 to |keys|
      invariant Increasing(sorted)
      invariant Members(sorted) == Members(keys[..n])
    {
      var at := 0;
      while at < |sorted| && sorted[at] < keys[n]
        invariant 0 <= at <= |sorted|
        invariant forall i :: 0 <= i < at ==> sorted[i] < keys[n]
      {
        at := at + 1;
      }
      assert forall i :: at <= i < |sorted| ==> sorted[i] > keys[n] by {
        forall i | at <= i < |sorted| ensures sorted[i] > keys[n] {
          assert sorted[i] in Members(keys[..n]);
          assert sorted[i] != keys[n];
        }
      }
      MembersInsert(sorted, at, keys[n]);
      MembersInsert(keys[..n], n, keys[n]);
      assert keys[..n + 1] == keys[..n][..n] + [keys[n]] + keys[..n][n..];
      sorted := sorted[..at] + [keys[n]] + sorted[at..];
    }
    assert keys[..|keys|] == keys;
  }

  /** processPortList: drops repeated contents, sorts by content. */
  method ProcessPortList(rows: seq<HelperPort>) returns (list: seq<HelperPort>)
    ensures IsPortList(rows, list)
  {
    var segMap: map<int, int> := map[];
    for i := 0 to |rows|
      invariant segMap.Keys == Contents(rows[..i])
      invariant forall c :: c in segMap ==> FirstPort(rows, c, segMap[c])
    {
      assert Contents(rows[..i + 1]) == Contents(rows[..i]) + {rows[i].content} by {
        ContentsOneMore(rows, i);
      }
      if rows[i].content !in segMap {
        assert FirstPort(rows, rows[i].content, rows[i].port) by {
          forall j | 0 <= j < i ensures rows[j].content != rows[i].content {
            assert rows[..i][j].content in Contents(rows[..i]);
          }
        }
        segMap := segMap[rows[i].content := rows[i].port];
      }
    }
    assert rows[..|rows|] == rows;
    var keys := KeysInAnyOrder(segMap);
    keys := SortInts(keys);
    assert forall j :: 0 <= j < |keys| ==> keys[j] in Members(keys);
    list := [];
    for i := 0 to |keys|
      invariant |list| == i && forall j :: 0 <= j < i ==> list[j] == HelperPort(keys[j], segMap[keys[j]])
    {
      list := list + [HelperPort(keys[i], segMap[keys[i]])];
    }
    assert ContentList(list) == keys;
    ContentListMembers(list);
  }

  lemma ContentsOneMore(rows: seq<HelperPort>, i: nat)
    requires i < |rows|
    ensures Contents(rows[..i + 1]) == Contents(rows[..i]) + {rows[i].content}
  {
    forall j | 0 <= j < i ensures rows[..i][j].content in Contents(rows[..i + 1]) {
      assert rows[..i + 1][j] == rows[..i][j];
    }
    assert rows[..i + 1][i] == rows[i];
  }

  // ------------------------------------------------------------ order and repetition do not matter

  lemma {:induction false} IncreasingUnique(s: seq<int>, t: seq<int>)
    requires Increasing(s) && Increasing(t) && Members(s) == Members(t)
    ensures s == t
  {
    assert t != [] ==> t[0] in Members(t);
    assert s != [] ==> s[0] in Members(s);
    if s != [] {
      assert s[0] in t && t[0] in s;
      RestMembers(s);
      RestMembers(t);
      IncreasingUnique(s[1..], t[1..]);
    }
  }

  lemma RestMembers(s: seq<int>)
    requires Increasing(s) && s != []
    ensures Members(s[1..]) == Members(s) - {s[0]} && Increasing(s[1..])
  {
    assert s == [s[0]] + s[1..];
  }

  lemma ContentListMembers(list: seq<HelperPort>)
    ensures Members(ContentList(list)) == Contents(list)
  {
    forall i | 0 <= i < |list| ensures list[i].content in Members(ContentList(list)) {
      assert ContentList(list)[i] == list[i].content;
    }
  }

  /** Rows repeated or in another order give the same list, when each content has one port. */
  lemma OrderAndRepetitionIgnored(
    rows: seq<HelperPort>, rows': seq<HelperPort>, list: seq<HelperPort>, list': seq<HelperPort>)
    requires forall x :: x in rows <==> x in rows'
    requires Consistent(rows) && IsPortList(rows, list) && IsPortList(rows', list')
    ensures list == list'
  {
    SameContents(rows, rows');
    SameContents(rows', rows);
    ContentListMembers(list);
    ContentListMembers(list');
    IncreasingUnique(ContentList(list), ContentList(list'));
    forall i | 0 <= i < |list| ensures list[i] == list'[i] {
      assert ContentList(list)[i] == ContentList(list')[i];
      assert FirstPort(rows, list[i].content, list[i].port) && FirstPort(rows', list'[i].content, list'[i].port);
      assert list[i] in rows && list'[i] in rows;
    }
  }

  lemma SameContents(rows: seq<HelperPort>, rows': seq<HelperPort>)
    requires forall x :: x in rows ==> x in rows'
    ensures Contents(rows) <= Contents(rows')
  {
    forall i | 0 <= i < |rows| ensures rows[i].content in Contents(rows') {
      assert rows[i] in rows;
    }
  }

  // ------------------------------------------------------------ alignment

  lemma {:induction false} IncreasingInRange(s: seq<int>, i: nat)
    requires Increasing(s) && i < |s| && forall k :: 0 <= k < |s| ==> 0 <= s[k] < |s|
    ensures s[i] >= i && s[i] <= i
  {
    AtLeast(s, i);
    AtMost(s, i);
  }

  lemma {:induction false} AtLeast(s: seq<int>, i: nat)
    requires Increasing(s) && i < |s| && s[0] >= 0
    ensures s[i] >= i
  {
    if i > 0 {
      AtLeast(s, i - 1);
    }
  }

  lemma {:induction false} AtMost(s: seq<int>, i: nat)
    requires Increasing(s) && i < |s| && s[|s| - 1] < |s|
    ensures s[i] <= i
    decreases |s| - i
  {
    if i < |s| - 1 {
      AtMost(s, i + 1);
    }
  }

  /**
   Once as many distinct contents as expected have reported, all from 0..n-1, entry `i` of the
   list is the port of segment `i`, so the list lines up with the segments in content order.
   */
  lemma FullListIsAligned(rows: seq<HelperPort>, list: seq<HelperPort>, n: nat)
    requires IsPortList(rows, list) && |list| == n
    requires forall i :: 0 <= i < |rows| ==> 0 <= rows[i].content < n
    ensures forall i :: 0 <= i < n ==> list[i].content == i
  {
    var s := ContentList(list);
    forall k | 0 <= k < n ensures 0 <= s[k] < n {
      assert list[k].content in Contents(list);
    }
    forall i | 0 <= i < n ensures list[i].content == i {
      IncreasingInRange(s, i);
    }
  }
}
