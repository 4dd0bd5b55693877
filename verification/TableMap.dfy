/**
 The map from destination tables to encoded source tables that passes from the planner to
 the metadata restore (copy/copy_query_wrapper.go FormUserTableMap, meta/builtin/parallel_depend.go
 formTablePair and RestoreCleanup).
 */
module TableMap {
  import opened Wrappers
  import opened Strings
  import opened Sequences

  datatype Table = Table(schema: string, name: string, relTuples: int64, isReplicated: bool)

  datatype TablePair = TablePair(src: Table, dest: Table)

  predicate DotFree(t: Table) {
    '.' !in t.schema && '.' !in t.name
  }

  function Flag(b: bool): string { if b then "true" else "false" }

  /** The map value: schema, name, tuple count and replication flag joined by dots. */
  function Encode(t: Table): string {
    t.schema + "." + (t.name + "." + (FormatInt(t.relTuples) + "." + Flag(t.isReplicated)))
  }

  /** What both readers make of a map value; None is the index panic on fewer than three parts. */
  function Decode(v: string): Option<Table> {
    var sl := Split(v, '.');
    if |sl| < 3 then None
    else Some(Table(sl[0], sl[1], ParseInt(sl[2]), |sl| > 3 && sl[3] == "true"))
  }

  /** A destination table carries its name only. */
  function Dest(schema: string, name: string): Table {
    Table(schema, name, 0, false)
  }

  /** The destination RestoreCleanup reads from a map key; None is the index panic. */
  function DecodeKey(k: string): Option<Table> {
    var sl := Split(k, '.');
    if |sl| < 2 then None else Some(Dest(sl[0], sl[1]))
  }

  // ------------------------------------------------------------ round trips

  lemma EncodeSplits(t: Table)
    requires DotFree(t)
    ensures Split(Encode(t), '.') == [t.schema, t.name, FormatInt(t.relTuples), Flag(t.isReplicated)]
  {
    FormatIsClean(t.relTuples, '.');
    var n, b := FormatInt(t.relTuples), Flag(t.isReplicated);
    SplitFour(t.schema, t.name, n, b, n + "." + b, t.name + "." + (n + "." + b), Encode(t));
    FourParts(t.schema, t.name, n, b);
  }

  lemma SplitFour(a: string, b: string, c: string, d: string, r1: string, r2: string, s: string)
    requires '.' !in a && '.' !in b && '.' !in c && '.' !in d
    requires r1 == c + "." + d && r2 == b + "." + r1 && s == a + "." + r2
    ensures Split(s, '.') == [a] + ([b] + [c, d])
  {
    SplitTwo(c, d, r1);
    SplitTail(b, r1, [c, d], r2);
    SplitTail(a, r2, [b] + [c, d], s);
  }

  lemma FourParts<T>(a: T, b: T, c: T, d: T)
    ensures [a] + ([b] + [c, d]) == [a, b, c, d]
  {
  }

  lemma SplitTwo(a: string, b: string, s: string)
    requires '.' !in a && '.' !in b && s == a + "." + b
    ensures Split(s, '.') == [a, b]
  {
    SplitHead(a, b, '.');
  }

  lemma SplitTail(a: string, rest: string, parts: seq<string>, s: string)
    requires '.' !in a && s == a + "." + rest && Split(rest, '.') == parts
    ensures Split(s, '.') == [a] + parts
  {
    SplitHead(a, rest, '.');
  }

  /**
   A table survives the trip through the map exactly when neither its schema nor its name
   contains a dot, whatever its tuple count and replication flag.
   */
  lemma RoundTripIff(t: Table)
    ensures Decode(Encode(t)) == Some(t) <==> DotFree(t)
  {
    if DotFree(t) {
      EncodeSplits(t);
      FormatParse(t.relTuples);
    } else {
      DottedNameIsCut(t);
    }
  }

  lemma DottedNameIsCut(t: Table)
    requires !DotFree(t)
    ensures Decode(Encode(t)) != Some(t)
  {
    var v := Encode(t);
    FirstPart(v, '.');
    if '.' !in t.schema {
      var rest := t.name + "." + (FormatInt(t.relTuples) + "." + Flag(t.isReplicated));
      SplitHead(t.schema, rest, '.');
      FirstPart(rest, '.');
    }
  }

  /**
   What any map value says, by its parts between dots: fewer than three cannot be read, without a
   fourth the table is not replicated, and with one it is exactly when that part is "true".
   */
  lemma ValueIsRead(parts: seq<string>)
    requires |parts| > 0 && forall k :: 0 <= k < |parts| ==> '.' !in parts[k]
    ensures Decode(Join(parts, '.')) ==
      if |parts| < 3 then None
      else if |parts| == 3 then Some(Table(parts[0], parts[1], ParseInt(parts[2]), false))
      else Some(Table(parts[0], parts[1], ParseInt(parts[2]), parts[3] == "true"))
  {
    SplitJoin(parts, '.');
  }

  /** The cleanup reads a key back exactly when the destination's names contain no dot. */
  lemma KeyRoundTripIff(schema: string, name: string)
    ensures DecodeKey(Qualify(schema, name)) == Some(Dest(schema, name)) <==> '.' !in schema && '.' !in name
  {
    var k := Qualify(schema, name);
    FirstPart(k, '.');
    if '.' !in schema {
      SplitHead(schema, name, '.');
      FirstPart(name, '.');
      if '.' !in name {
        assert Split(name, '.') == [name];
      }
    }
  }

  /** The key of dot-free names is the key of no other names. */
  lemma QualifyInjective(s1: string, n1: string, s2: string, n2: string)
    requires '.' !in s2 && '.' !in n2 && Qualify(s1, n1) == Qualify(s2, n2)
    ensures s1 == s2 && n1 == n2
  {
    var k := Qualify(s2, n2);
    assert k[|s1|] == '.' && k[|s2|] == '.';
    assert forall j :: 0 <= j < |s2| ==> k[j] == s2[j];
    assert forall j :: |s2| < j < |k| ==> k[j] == n2[j - |s2| - 1];
    assert k[..|s2|] == s2 && k[|s2| + 1..] == n2;
    assert Qualify(s1, n1)[..|s1|] == s1 && Qualify(s1, n1)[|s1| + 1..] == n1;
  }

  // ------------------------------------------------------------ dots or not, it can be decoded

  /** A separator more is a part more. */
  lemma {:induction false} SplitAtLeast(a: string, b: string, c: char, s: string)
    requires s == a + [c] + b
    ensures |Split(s, c)| >= 1 + |Split(b, c)|
    decreases |a|
  {
    if c !in a {
      SplitHead(a, b, c);
    } else {
      var i := Index(a, c);
      var t := a[i + 1..] + [c] + b;
      SplitAtLeast(a[i + 1..], b, c, t);
      AtSeparator(a, i, c, b);
      SplitHead(a[..i], t, c);
    }
  }

  lemma AtSeparator<T>(a: seq<T>, i: nat, c: T, b: seq<T>)
    requires i < |a| && a[i] == c
    ensures a + [c] + b == a[..i] + [c] + (a[i + 1..] + [c] + b)
  {
    assert a == a[..i] + [c] + a[i + 1..];
  }

  /** Every encoded table decodes to something, and so does every key. */
  lemma EncodedCanBeRead(t: Table, schema: string, name: string)
    ensures Decode(Encode(t)).Some? && DecodeKey(Qualify(schema, name)).Some?
  {
    var rest := FormatInt(t.relTuples) + "." + Flag(t.isReplicated);
    SplitAtLeast(t.name, rest, '.', t.name + "." + rest);
    SplitAtLeast(t.schema, t.name + "." + rest, '.', Encode(t));
    SplitAtLeast(schema, name, '.', Qualify(schema, name));
  }

  // ------------------------------------------------------------ building the map

  function Key(t: Table): string { Qualify(t.schema, t.name) }

  predicate DistinctKeys(dest: seq<Table>) {
    NoRepeats(Keys(dest))
  }

  /** No later table has the same key as table `i`. */
  predicate IsLast<K(==)>(keys: seq<K>, n: nat, i: nat)
    requires i < n <= |keys|
  {
    forall j :: i < j < n ==> keys[j] != keys[i]
  }

  /** Entries written one after another. */
  function MapOf<K, V>(keys: seq<K>, values: seq<V>, n: nat): map<K, V>
    requires n <= |values| && n <= |keys|
  {
    if n == 0 then map[] else MapOf(keys, values, n - 1)[keys[n - 1] := values[n - 1]]
  }

  lemma MapOfNext<K, V>(keys: seq<K>, values: seq<V>, n: nat)
    requires n < |values| && n < |keys|
    ensures MapOf(keys, values, n + 1) == MapOf(keys, values, n)[keys[n] := values[n]]
  {
  }

  lemma {:induction false} LastEntryWins<K, V>(keys: seq<K>, values: seq<V>, n: nat, i: nat)
    requires i < n <= |values| && n <= |keys| && IsLast(keys, n, i)
    ensures keys[i] in MapOf(keys, values, n) && MapOf(keys, values, n)[keys[i]] == values[i]
  {
    if i < n - 1 {
      LastEntryWins(keys, values, n - 1, i);
    }
  }

  lemma {:induction false} KeysAreGiven<K, V>(keys: seq<K>, values: seq<V>, n: nat, k: K)
    requires n <= |values| && n <= |keys| && k in MapOf(keys, values, n)
    ensures exists i :: 0 <= i < n && k == keys[i]
  {
    if k != keys[n - 1] {
      KeysAreGiven(keys, values, n - 1, k);
    }
  }

  function Keys(ts: seq<Table>): seq<string> {
    seq(|ts|, i requires 0 <= i < |ts| => Key(ts[i]))
  }

  function Values(ts: seq<Table>): seq<string> {
    seq(|ts|, i requires 0 <= i < |ts| => Encode(ts[i]))
  }

  /** `m` holds exactly these tables, each under its destination's name. */
  ghost predicate MapsTables(m: map<string, string>, src: seq<Table>, dest: seq<Table>) {
    && |src| == |dest| && DistinctKeys(dest)
    && (forall k :: k in m ==> exists i :: 0 <= i < |src| && k == Keys(dest)[i])
    && (forall i :: 0 <= i < |src| ==> Keys(dest)[i] in m && m[Keys(dest)[i]] == Values(src)[i])
  }

  method FillTableMap(src: seq<Table>, dest: seq<Table>) returns (m: map<string, string>)
    requires |src| <= |dest|
    ensures m == TableMapOf(src, dest)
  {
    m := map[];
    ghost var keys, values := Keys(dest), Values(src);
    for n := 0 to |src|
      invariant m == MapOf(keys, values, n)
    {
      m := m[Key(dest[n]) := Encode(src[n])];
      MapOfNext(keys, values, n);
    }
  }

  /** The map that is built. */
  function TableMapOf(src: seq<Table>, dest: seq<Table>): map<string, string>
    requires |src| <= |dest|
  {
    MapOf(Keys(dest), Values(src), |src|)
  }

  lemma {:induction false} MapOfKeys<K, V>(keys: seq<K>, values: seq<V>, n: nat)
    requires n <= |values| && n <= |keys|
    ensures MapOf(keys, values, n).Keys == Members(keys[..n])
  {
    if n > 0 {
      MapOfKeys(keys, values, n - 1);
      assert keys[..n] == keys[..n - 1] + [keys[n - 1]];
    }
  }

  /** No more entries than keys, and as many exactly when no key is repeated. */
  lemma MapOfSize<K, V>(keys: seq<K>, values: seq<V>, n: nat)
    requires n <= |values| && n <= |keys|
    ensures |MapOf(keys, values, n)| <= n
    ensures |MapOf(keys, values, n)| == n <==> NoRepeats(keys[..n])
  {
    MapOfKeys(keys, values, n);
    MembersSize(keys[..n]);
    assert |MapOf(keys, values, n)| == |MapOf(keys, values, n).Keys|;
  }

  /** FormUserTableMap: one entry per destination name; of several tables for one name the last stays. */
  method FormUserTableMap(src: seq<Table>, dest: seq<Table>) returns (m: map<string, string>)
    requires |src| <= |dest|
    ensures m == TableMapOf(src, dest) && |m| <= |src|
    ensures |m| == |src| <==> NoRepeats(Keys(dest)[..|src|])
    ensures forall k :: k in m ==> exists i :: 0 <= i < |src| && k == Keys(dest)[i]
    ensures forall i :: 0 <= i < |src| && IsLast(Keys(dest), |src|, i) ==>
      Keys(dest)[i] in m && m[Keys(dest)[i]] == Values(src)[i]
    ensures |src| == |dest| && DistinctKeys(dest) ==> MapsTables(m, src, dest)
  {
    m := FillTableMap(src, dest);
    MapOfSize(Keys(dest), Values(src), |src|);
    if |src| == |dest| && DistinctKeys(dest) {
      DistinctKeysMapAll(src, dest, m);
    }
    MapOfFacts(Keys(dest), Values(src), |src|);
  }

  /** With distinct destination names no entry is lost. */
  lemma DistinctKeysMapAll(src: seq<Table>, dest: seq<Table>, m: map<string, string>)
    requires |src| == |dest| && DistinctKeys(dest)
    requires m == MapOf(Keys(dest), Values(src), |src|)
    ensures MapsTables(m, src, dest)
  {
    DistinctAllKept(Keys(dest), Values(src), |src|);
  }

  lemma DistinctAllKept<K, V>(keys: seq<K>, values: seq<V>, n: nat)
    requires n <= |values| && n <= |keys| && NoRepeats(keys)
    ensures forall k :: k in MapOf(keys, values, n) ==> exists i :: 0 <= i < n && k == keys[i]
    ensures forall i :: 0 <= i < n ==> keys[i] in MapOf(keys, values, n) && MapOf(keys, values, n)[keys[i]] == values[i]
  {
    MapOfFacts(keys, values, n);
    assert forall i :: 0 <= i < n ==> IsLast(keys, n, i);
  }

  lemma MapOfFacts<K, V>(keys: seq<K>, values: seq<V>, n: nat)
    requires n <= |values| && n <= |keys|
    ensures forall k :: k in MapOf(keys, values, n) ==> exists i :: 0 <= i < n && k == keys[i]
    ensures forall i :: 0 <= i < n && IsLast(keys, n, i) ==>
      keys[i] in MapOf(keys, values, n) && MapOf(keys, values, n)[keys[i]] == values[i]
  {
    forall k | k in MapOf(keys, values, n) ensures exists i :: 0 <= i < n && k == keys[i] {
      KeysAreGiven(keys, values, n, k);
    }
    forall i | 0 <= i < n && IsLast(keys, n, i)
      ensures keys[i] in MapOf(keys, values, n) && MapOf(keys, values, n)[keys[i]] == values[i]
    {
      LastEntryWins(keys, values, n, i);
    }
  }
}
