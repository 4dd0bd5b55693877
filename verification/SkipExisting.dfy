/**
 The --skip-existing filter on table definitions (meta/builtin/skip_existing.go): a partition
 tree is skipped as a unit when its root is on the destination. The walk from a member to its
 root is bounded, which is where the unit can come apart.
 */
module SkipExisting {
  import opened Strings
  import opened Destination

  /** Partition levels "p", "", "l", "i", and any other text. */
  datatype Level = Root | Plain | Leaf | Middle | Other

  datatype Table = Table(schema: string, name: string, level: Level, inherits: seq<string>, isExternal: bool)

  /** Inline partitions (GPDB before 7), declarative partitions (GPDB 7 on, Cloudberry), or neither. */
  datatype Partitioning = Inline | Declarative | Unknown

  datatype Reason = Exists | RootExists | HalfBuiltLeaf

  datatype Skipped = Skipped(
    srcDb: string, srcSchema: string, srcName: string,
    destDb: string, destSchema: string, destName: string,
    reason: Reason)

  /** `suffix` names the destination copy of an external leaf. */
  datatype Setup = Setup(inv: Inventory, srcDb: string, destDb: string, source: Partitioning, suffix: string -> string)

  /** Tables by qualified name. */
  type Rows = m: map<string, Table> | forall k :: k in m ==> Fqn(m[k]) == k

  function Fqn(t: Table): string {
    Qualify(t.schema, t.name)
  }

  predicate IsTop(t: Table) {
    t.level == Root || t.level == Plain
  }

  predicate OnDestination(s: Setup, t: Table) {
    Existing(s.inv, Translate(s.inv, t.schema), t.name)
  }

  /** An external leaf of an inline partition is looked for under its suffixed name. */
  predicate SuffixedOnDestination(s: Setup, t: Table) {
    && t.level == Leaf && t.isExternal && s.source == Inline
    && Existing(s.inv, Translate(s.inv, t.schema), s.suffix(t.name))
  }

  predicate HalfBuilt(s: Setup, t: Table) {
    t.level == Leaf && s.source == Declarative && OnDestination(s, t)
  }

  function Record(s: Setup, t: Table, name: string, reason: Reason): Skipped {
    Skipped(s.srcDb, t.schema, t.name, s.destDb, Translate(s.inv, t.schema), name, reason)
  }

  // ------------------------------------------------------------ the walk to the root

  const MAX_DEPTH: nat := 16

  /** The qualified name the walk ends at, with `n` steps allowed. */
  function Walk(rows: Rows, t: Table, n: nat): string
    decreases n
  {
    if n == 0 || IsTop(t) || t.inherits == [] then Fqn(t)
    else if t.inherits[0] !in rows then t.inherits[0]
    else Walk(rows, rows[t.inherits[0]], n - 1)
  }

  method WalkToRoot(t: Table, rows: Rows, limit: nat) returns (fqn: string)
    ensures fqn == Walk(rows, t, limit)
  {
    var cur := t;
    for i := 0 to limit
      invariant Walk(rows, t, limit) == Walk(rows, cur, limit - i)
    {
      if IsTop(cur) || |cur.inherits| == 0 {
        return Fqn(cur);
      }
      if cur.inherits[0] !in rows {
        return cur.inherits[0];
      }
      cur := rows[cur.inherits[0]];
    }
    return Fqn(cur);
  }

  /** `b` is the row that `a` names as its parent. */
  predicate Inherits(rows: Rows, a: Table, b: Table) {
    !IsTop(a) && a.inherits != [] && a.inherits[0] in rows && rows[a.inherits[0]] == b
  }

  /** A complete chain of parents from the first table to the top of its tree. */
  predicate ChainToTop(rows: Rows, c: seq<Table>) {
    && |c| > 0 && IsTop(c[|c| - 1])
    && forall k :: 0 < k < |c| ==> Inherits(rows, c[k - 1], c[k])
  }

  lemma ChainTail(rows: Rows, c: seq<Table>)
    requires ChainToTop(rows, c) && |c| > 1
    ensures ChainToTop(rows, c[1..]) && Inherits(rows, c[0], c[1])
  {
    var d := c[1..];
    forall k | 0 < k < |d| ensures Inherits(rows, d[k - 1], d[k]) {
      assert Inherits(rows, c[k + 1 - 1], c[k + 1]);
    }
  }

  lemma {:induction false} WalkReachesTop(rows: Rows, c: seq<Table>, n: nat)
    requires ChainToTop(rows, c) && |c| - 1 <= n
    ensures Walk(rows, c[0], n) == Fqn(c[|c| - 1])
  {
    if |c| > 1 {
      ChainTail(rows, c);
      WalkReachesTop(rows, c[1..], n - 1);
    }
  }

  predicate Listed(rows: Rows, t: Table) {
    Fqn(t) in rows && rows[Fqn(t)] == t
  }

  /** The walk ends at the name of a top only when a short enough chain leads there. */
  lemma {:induction false} WalkEndIsTop(rows: Rows, t: Table, n: nat, top: Table) returns (c: seq<Table>)
    requires Listed(rows, t) && Listed(rows, top) && IsTop(top)
    requires Walk(rows, t, n) == Fqn(top)
    ensures ChainToTop(rows, c) && |c| - 1 <= n && c[0] == t && c[|c| - 1] == top
    decreases n
  {
    if n == 0 || IsTop(t) || t.inherits == [] {
      c := [t];
    } else {
      var d := WalkEndIsTop(rows, rows[t.inherits[0]], n - 1, top);
      c := [t] + d;
      forall k | 0 < k < |c| ensures Inherits(rows, c[k - 1], c[k]) {
        if k > 1 {
          assert Inherits(rows, d[k - 1 - 1], d[k - 1]);
        }
      }
    }
  }

  /** A table has at most one chain. */
  lemma {:induction false} ChainIsUnique(rows: Rows, c: seq<Table>, d: seq<Table>)
    requires ChainToTop(rows, c) && ChainToTop(rows, d) && c[0] == d[0]
    ensures c == d
  {
    if |c| > 1 {
      ChainTail(rows, c);
    }
    if |d| > 1 {
      ChainTail(rows, d);
    }
    if |c| > 1 && |d| > 1 {
      ChainIsUnique(rows, c[1..], d[1..]);
      assert c == [c[0]] + c[1..] && d == [d[0]] + d[1..];
    }
  }

  // ------------------------------------------------------------ the filter

  /** Rows with the same qualified name are the same row. */
  predicate FqnsIdentify(tables: seq<Table>) {
    forall i, j :: 0 <= i < |tables| && 0 <= j < |tables| && Fqn(tables[i]) == Fqn(tables[j]) ==> tables[i] == tables[j]
  }

  /** The index by qualified name; the last row wins. */
  function RowsOf(tables: seq<Table>): Rows {
    if tables == [] then map[] else RowsOf(tables[..|tables| - 1])[Fqn(tables[|tables| - 1]) := tables[|tables| - 1]]
  }

  lemma {:induction false} RowsHaveTable(tables: seq<Table>, k: nat)
    requires k < |tables|
    ensures Fqn(tables[k]) in RowsOf(tables)
  {
    var n := |tables| - 1;
    if k < n {
      RowsHaveTable(tables[..n], k);
    }
  }

  lemma {:induction false} RowIsTable(tables: seq<Table>, f: string)
    requires f in RowsOf(tables)
    ensures RowsOf(tables)[f] in tables
  {
    var n := |tables| - 1;
    if f != Fqn(tables[n]) {
      RowIsTable(tables[..n], f);
    }
  }

  lemma RowsOfAll(tables: seq<Table>)
    ensures forall k :: 0 <= k < |tables| ==> Fqn(tables[k]) in RowsOf(tables)
    ensures forall f :: f in RowsOf(tables) ==> RowsOf(tables)[f] in tables
  {
    forall k | 0 <= k < |tables| ensures Fqn(tables[k]) in RowsOf(tables) {
      RowsHaveTable(tables, k);
    }
    forall f | f in RowsOf(tables) ensures RowsOf(tables)[f] in tables {
      RowIsTable(tables, f);
    }
  }

  lemma RowsAreListed(tables: seq<Table>, t: Table)
    requires FqnsIdentify(tables) && t in tables
    ensures Listed(RowsOf(tables), t)
  {
    RowsOfAll(tables);
    assert RowsOf(tables)[Fqn(t)] in tables;
  }

  /** Names of the tops that are on the destination. */
  function PresentTops(s: Setup, tables: seq<Table>): set<string> {
    set t | t in tables && IsTop(t) && OnDestination(s, t) :: Fqn(t)
  }

  predicate Drops(s: Setup, rows: Rows, present: set<string>, t: Table, limit: nat) {
    match t.level
    case Root | Plain => Fqn(t) in present
    case Leaf | Middle => Walk(rows, t, limit) in present || SuffixedOnDestination(s, t)
    case Other => false
  }

  /** The skip record a table leaves, if any. */
  function RecordsFor(s: Setup, rows: Rows, present: set<string>, t: Table, limit: nat): seq<Skipped> {
    if IsTop(t) && Fqn(t) in present then [Record(s, t, t.name, Exists)]
    else if (t.level == Leaf || t.level == Middle) && Walk(rows, t, limit) in present then
      [Record(s, t, t.name, RootExists)]
    else if SuffixedOnDestination(s, t) then [Record(s, t, s.suffix(t.name), Exists)]
    else if HalfBuilt(s, t) then [Record(s, t, t.name, HalfBuiltLeaf)]
    else []
  }

  function KeptOf(s: Setup, rows: Rows, present: set<string>, tables: seq<Table>, limit: nat): seq<Table> {
    if tables == [] then []
    else
      var n := |tables| - 1;
      KeptOf(s, rows, present, tables[..n], limit) +
        if Drops(s, rows, present, tables[n], limit) then [] else [tables[n]]
  }

  function RecordsOf(s: Setup, rows: Rows, present: set<string>, tables: seq<Table>, limit: nat): seq<Skipped> {
    if tables == [] then []
    else
      var n := |tables| - 1;
      RecordsOf(s, rows, present, tables[..n], limit) + RecordsFor(s, rows, present, tables[n], limit)
  }

  method IndexRows(tables: seq<Table>) returns (rows: Rows)
    ensures rows == RowsOf(tables)
  {
    rows := map[];
    for i := 0 to |tables|
      invariant rows == RowsOf(tables[..i])
    {
      assert tables[..i + 1][..i] == tables[..i];
      rows := rows[Fqn(tables[i]) := tables[i]];
    }
    assert tables[..|tables|] == tables;
  }

  /** The first pass: which tops are on the destination. */
  method FindPresentTops(s: Setup, tables: seq<Table>) returns (present: set<string>)
    ensures present == PresentTops(s, tables)
  {
    present := {};
    for i := 0 to |tables|
      invariant present == PresentTops(s, tables[..i])
    {
      assert tables[..i + 1] == tables[..i] + [tables[i]];
      if IsTop(tables[i]) && OnDestination(s, tables[i]) {
        present := present + {Fqn(tables[i])};
      }
    }
    assert tables[..|tables|] == tables;
  }

  /** The second pass on one table: whether it stays, and what is recorded. */
  method Decide(s: Setup, rows: Rows, present: set<string>, t: Table, limit: nat)
    returns (keep: bool, records: seq<Skipped>)
    ensures keep == !Drops(s, rows, present, t, limit)
    ensures records == RecordsFor(s, rows, present, t, limit)
  {
    if IsTop(t) {
      if Fqn(t) in present {
        return false, [Record(s, t, t.name, Exists)];
      }
    } else if t.level == Leaf || t.level == Middle {
      var top := WalkToRoot(t, rows, limit);
      if top in present {
        return false, [Record(s, t, t.name, RootExists)];
      }
      if t.level == Leaf {
        if t.isExternal && s.source == Inline {
          var suffixed := s.suffix(t.name);
          if Existing(s.inv, Translate(s.inv, t.schema), suffixed) {
            return false, [Record(s, t, suffixed, Exists)];
          }
        }
        if s.source == Declarative && OnDestination(s, t) {
          return true, [Record(s, t, t.name, HalfBuiltLeaf)];
        }
      }
    }
    return true, [];
  }

  /** The filter; `enabled` is --skip-existing, and `records` is what it appends to the record list. */
  method FilterTables(enabled: bool, s: Setup, tables: seq<Table>) returns (kept: seq<Table>, records: seq<Skipped>)
    ensures kept == if enabled then KeptOf(s, RowsOf(tables), PresentTops(s, tables), tables, MAX_DEPTH) else tables
    ensures records == if enabled then RecordsOf(s, RowsOf(tables), PresentTops(s, tables), tables, MAX_DEPTH) else []
  {
    if !enabled {
      return tables, [];
    }
    var rows := IndexRows(tables);
    var present := FindPresentTops(s, tables);
    kept, records := [], [];
    for i := 0 to |tables|
      invariant kept == KeptOf(s, rows, present, tables[..i], MAX_DEPTH)
      invariant records == RecordsOf(s, rows, present, tables[..i], MAX_DEPTH)
    {
      var keep, more := Decide(s, rows, present, tables[i], MAX_DEPTH);
      assert tables[..i + 1][..i] == tables[..i];
      if keep {
        kept := kept + [tables[i]];
      }
      records := records + more;
    }
    assert tables[..|tables|] == tables;
  }

  // ------------------------------------------------------------ what survives

  /** A chain of at most `limit` steps leads from `t` to a top that is on the destination. */
  ghost predicate TopPresent(s: Setup, rows: Rows, t: Table, limit: nat) {
    exists c :: ChainToTop(rows, c) && c[0] == t && |c| - 1 <= limit && OnDestination(s, c[|c| - 1])
  }

  lemma ChainStaysListed(tables: seq<Table>, c: seq<Table>)
    requires FqnsIdentify(tables) && ChainToTop(RowsOf(tables), c) && c[0] in tables
    ensures c[|c| - 1] in tables
  {
    RowsOfAll(tables);
    var n := |c| - 1;
    if n > 0 {
      assert Inherits(RowsOf(tables), c[n - 1], c[n]);
    }
  }

  /** The walk lands on a present top exactly when a short chain leads to one. */
  lemma WalkFindsPresent(s: Setup, tables: seq<Table>, t: Table, limit: nat)
    requires FqnsIdentify(tables) && t in tables
    ensures Walk(RowsOf(tables), t, limit) in PresentTops(s, tables) <==> TopPresent(s, RowsOf(tables), t, limit)
  {
    var rows := RowsOf(tables);
    if Walk(rows, t, limit) in PresentTops(s, tables) {
      var top :| top in tables && IsTop(top) && OnDestination(s, top) && Fqn(top) == Walk(rows, t, limit);
      RowsAreListed(tables, t);
      RowsAreListed(tables, top);
      var c := WalkEndIsTop(rows, t, limit, top);
    }
    if TopPresent(s, rows, t, limit) {
      var c :| ChainToTop(rows, c) && c[0] == t && |c| - 1 <= limit && OnDestination(s, c[|c| - 1]);
      WalkReachesTop(rows, c, limit);
      ChainStaysListed(tables, c);
    }
  }

  /**
   Which tables the filter drops, for every list: those of a known level whose tree has its top on
   the destination and reaches it within the limit, and external leaves found under their suffix.
   */
  lemma DropsIff(s: Setup, tables: seq<Table>, t: Table, limit: nat)
    requires FqnsIdentify(tables) && t in tables
    ensures Drops(s, RowsOf(tables), PresentTops(s, tables), t, limit) <==>
      t.level != Other && (TopPresent(s, RowsOf(tables), t, limit) || SuffixedOnDestination(s, t))
  {
    WalkFindsPresent(s, tables, t, limit);
    if IsTop(t) {
      assert Walk(RowsOf(tables), t, limit) == Fqn(t);
    }
  }

  /** The filter keeps what it does not drop, and nothing else. */
  lemma {:induction false} KeptIff(s: Setup, rows: Rows, present: set<string>, tables: seq<Table>, limit: nat, t: Table)
    ensures t in KeptOf(s, rows, present, tables, limit) <==> t in tables && !Drops(s, rows, present, t, limit)
  {
    if tables != [] {
      var n := |tables| - 1;
      KeptIff(s, rows, present, tables[..n], limit, t);
      assert tables == tables[..n] + [tables[n]];
    }
  }

  /** A table with `c` as its chain goes where its top goes, if the chain is short enough. */
  lemma MemberFate(s: Setup, tables: seq<Table>, c: seq<Table>, limit: nat)
    requires FqnsIdentify(tables) && ChainToTop(RowsOf(tables), c) && c[0] in tables
    requires c[0].level != Other
    ensures c[0] in KeptOf(s, RowsOf(tables), PresentTops(s, tables), tables, limit) <==>
      (!OnDestination(s, c[|c| - 1]) || |c| - 1 > limit) && !SuffixedOnDestination(s, c[0])
  {
    var rows := RowsOf(tables);
    KeptIff(s, rows, PresentTops(s, tables), tables, limit, c[0]);
    DropsIff(s, tables, c[0], limit);
    if TopPresent(s, rows, c[0], limit) {
      var d :| ChainToTop(rows, d) && d[0] == c[0] && |d| - 1 <= limit && OnDestination(s, d[|d| - 1]);
      ChainIsUnique(rows, c, d);
    }
  }

  /** The suffixed copy of an external leaf is on the destination. */
  predicate SuffixedIsThere(s: Setup, t: Table, d: string) {
    t.level == Leaf && t.isExternal && s.source == Inline && IsThere(s.inv, d, s.suffix(t.name))
  }

  /**
   What the filter drops, by the names that are on the destination: a table whose root, at most 16
   steps up, is there under the schema that the root's schema is mapped to, and an external leaf
   that is there under its suffixed name.
   */
  lemma FilterDropsIff(s: Setup, tables: seq<Table>, c: seq<Table>, d: string, rootSchema: string)
    requires FqnsIdentify(tables) && ChainToTop(RowsOf(tables), c) && c[0] in tables && c[0].level != Other
    requires CopiedTo(s.inv, c[0].schema, d) && CopiedTo(s.inv, c[|c| - 1].schema, rootSchema)
    ensures c[0] !in KeptOf(s, RowsOf(tables), PresentTops(s, tables), tables, MAX_DEPTH) <==>
      (IsThere(s.inv, rootSchema, c[|c| - 1].name) && |c| <= 17) || SuffixedIsThere(s, c[0], d)
  {
    MemberFate(s, tables, c, MAX_DEPTH);
    ExistingIsThere(s.inv, c[|c| - 1].schema, rootSchema, c[|c| - 1].name);
    ExistingIsThere(s.inv, c[0].schema, d, s.suffix(c[0].name));
  }

  /** For a table without a parent: it is dropped exactly when it is on the destination itself. */
  lemma FilterDropsTopIff(s: Setup, tables: seq<Table>, t: Table, d: string)
    requires FqnsIdentify(tables) && t in tables && (t.level == Root || t.level == Plain)
    requires CopiedTo(s.inv, t.schema, d)
    ensures t !in KeptOf(s, RowsOf(tables), PresentTops(s, tables), tables, MAX_DEPTH) <==> IsThere(s.inv, d, t.name)
  {
    assert ChainToTop(RowsOf(tables), [t]);
    FilterDropsIff(s, tables, [t], d, d);
  }

  /** A chain from a listed table of a known level that is not found under an external suffix. */
  predicate Member(s: Setup, tables: seq<Table>, c: seq<Table>) {
    ChainToTop(RowsOf(tables), c) && c[0] in tables && c[0].level != Other && !SuffixedOnDestination(s, c[0])
  }

  predicate SharesFate(s: Setup, tables: seq<Table>, c: seq<Table>, limit: nat)
    requires |c| > 0
  {
    var kept := KeptOf(s, RowsOf(tables), PresentTops(s, tables), tables, limit);
    c[0] in kept <==> c[|c| - 1] in kept
  }

  /** Every member of a tree shares the fate of its root. */
  ghost predicate TreesStayWhole(s: Setup, tables: seq<Table>, limit: nat) {
    forall c :: Member(s, tables, c) ==> SharesFate(s, tables, c, limit)
  }

  /** No member lies more than `limit` steps below a top that is on the destination. */
  ghost predicate NoDeepMember(s: Setup, tables: seq<Table>, limit: nat) {
    forall c :: Member(s, tables, c) && OnDestination(s, c[|c| - 1]) ==> |c| - 1 <= limit
  }

  lemma SharesFateIff(s: Setup, tables: seq<Table>, c: seq<Table>, limit: nat)
    requires FqnsIdentify(tables) && Member(s, tables, c)
    ensures SharesFate(s, tables, c, limit) <==> (OnDestination(s, c[|c| - 1]) ==> |c| - 1 <= limit)
  {
    var top := c[|c| - 1];
    MemberFate(s, tables, c, limit);
    ChainStaysListed(tables, c);
    MemberFate(s, tables, [top], limit);
    assert [top][0] == top;
  }

  /** Partition trees are all or nothing exactly when no member is too deep. */
  lemma TreesStayWholeIff(s: Setup, tables: seq<Table>, limit: nat)
    requires FqnsIdentify(tables)
    ensures TreesStayWhole(s, tables, limit) <==> NoDeepMember(s, tables, limit)
  {
    forall c | Member(s, tables, c)
      ensures SharesFate(s, tables, c, limit) <==> (OnDestination(s, c[|c| - 1]) ==> |c| - 1 <= limit)
    {
      SharesFateIff(s, tables, c, limit);
    }
  }

  // ------------------------------------------------------------ a tree that comes apart

  /** Depth `k` of a tree of depth `n` with one member at each depth. */
  function Node(k: nat, n: nat): Table {
    var name := seq(k + 1, _ => 't');
    if k == 0 then Table("s", name, Root, [], false)
    else Table("s", name, if k < n then Middle else Leaf, [Qualify("s", name[1..])], false)
  }

  function DeepTree(n: nat): seq<Table> {
    seq(n + 1, k requires 0 <= k <= n => Node(k, n))
  }

  function DeepChain(n: nat): seq<Table> {
    seq(n + 1, k requires 0 <= k <= n => Node(n - k, n))
  }

  lemma NodeParent(k: nat, n: nat)
    requires k > 0
    ensures Node(k, n).inherits == [Fqn(Node(k - 1, n))]
  {
    assert Node(k, n).name[1..] == Node(k - 1, n).name;
  }

  lemma NodesDiffer(n: nat)
    ensures FqnsIdentify(DeepTree(n))
  {
    forall i, j | 0 <= i <= n && 0 <= j <= n && Fqn(Node(i, n)) == Fqn(Node(j, n)) ensures i == j {
      assert |Fqn(Node(i, n))| == i + 3 && |Fqn(Node(j, n))| == j + 3;
    }
  }

  lemma DeepChainLeadsUp(n: nat, rows: Rows, k: nat)
    requires 0 < k <= n && Listed(rows, Node(n - k, n))
    ensures Inherits(rows, DeepChain(n)[k - 1], DeepChain(n)[k])
  {
    NodeParent(n - k + 1, n);
  }

  lemma DeepChainIsChain(n: nat, rows: Rows)
    requires forall k: nat :: k <= n ==> Listed(rows, Node(k, n))
    ensures ChainToTop(rows, DeepChain(n))
  {
    forall k | 0 < k <= n ensures Inherits(rows, DeepChain(n)[k - 1], DeepChain(n)[k]) {
      DeepChainLeadsUp(n, rows, k);
    }
  }

  lemma DeepTreeListed(n: nat, tables: seq<Table>)
    requires tables == DeepTree(n)
    ensures FqnsIdentify(tables)
    ensures forall k: nat :: k <= n ==> Listed(RowsOf(tables), Node(k, n))
  {
    NodesDiffer(n);
    forall k: nat | k <= n ensures Listed(RowsOf(tables), Node(k, n)) {
      assert tables[k] == Node(k, n);
      RowsAreListed(tables, Node(k, n));
    }
  }

  /** With its root on the destination, the one leaf of a tree deeper than the limit is still created. */
  lemma DeepTreeSplits(s: Setup, limit: nat, tables: seq<Table>)
    requires OnDestination(s, Node(0, limit + 1)) && tables == DeepTree(limit + 1)
    ensures FqnsIdentify(tables) && !TreesStayWhole(s, tables, limit)
  {
    var n := limit + 1;
    DeepTreeListed(n, tables);
    DeepChainIsChain(n, RowsOf(tables));
    assert tables[n] == DeepChain(n)[0];
    assert Member(s, tables, DeepChain(n));
    TreesStayWholeIff(s, tables, limit);
  }

  // ------------------------------------------------------------ the records

  function Warnings(records: seq<Skipped>): nat {
    if records == [] then 0
    else Warnings(records[..|records| - 1]) + if records[|records| - 1].reason == HalfBuiltLeaf then 1 else 0
  }

  lemma WarningsAdd(a: seq<Skipped>, x: Skipped)
    ensures Warnings(a + [x]) == Warnings(a) + if x.reason == HalfBuiltLeaf then 1 else 0
  {
    assert (a + [x])[..|a|] == a;
  }

  lemma RecordsForOne(s: Setup, rows: Rows, present: set<string>, t: Table, limit: nat)
    ensures
      var more := RecordsFor(s, rows, present, t, limit);
      && |more| <= 1
      && (Drops(s, rows, present, t, limit) <==> |more| == 1 && more[0].reason != HalfBuiltLeaf)
  {
  }

  /** Every dropped table leaves one record; the other records warn about leaves that stay. */
  lemma {:induction false} RecordsAccountForAll(
    s: Setup, rows: Rows, present: set<string>, tables: seq<Table>, limit: nat)
    ensures |KeptOf(s, rows, present, tables, limit)| + |RecordsOf(s, rows, present, tables, limit)| ==
      |tables| + Warnings(RecordsOf(s, rows, present, tables, limit))
  {
    if tables != [] {
      var n := |tables| - 1;
      RecordsAccountForAll(s, rows, present, tables[..n], limit);
      RecordsAdd(s, rows, present, tables[n], limit, RecordsOf(s, rows, present, tables[..n], limit));
    }
  }

  lemma RecordsAdd(s: Setup, rows: Rows, present: set<string>, t: Table, limit: nat, before: seq<Skipped>)
    ensures
      var more := RecordsFor(s, rows, present, t, limit);
      Warnings(before + more) + (if Drops(s, rows, present, t, limit) then 1 else 0) == Warnings(before) + |more|
  {
    RecordsForOne(s, rows, present, t, limit);
    var more := RecordsFor(s, rows, present, t, limit);
    if more == [] {
      assert before + more == before;
    } else {
      assert more == [more[0]];
      WarningsAdd(before, more[0]);
    }
  }

  /** What a record says: the table on both sides, and why it was recorded. */
  lemma RecordsSay(s: Setup, rows: Rows, present: set<string>, t: Table, d: string, limit: nat)
    requires CopiedTo(s.inv, t.schema, d)
    ensures
      var top := Walk(rows, t, limit);
      var member := t.level == Leaf || t.level == Middle;
      RecordsFor(s, rows, present, t, limit) ==
        if (t.level == Root || t.level == Plain) && t.schema + "." + t.name in present then
          [Skipped(s.srcDb, t.schema, t.name, s.destDb, d, t.name, Exists)]
        else if member && top in present then
          [Skipped(s.srcDb, t.schema, t.name, s.destDb, d, t.name, RootExists)]
        else if SuffixedIsThere(s, t, d) then
          [Skipped(s.srcDb, t.schema, t.name, s.destDb, d, s.suffix(t.name), Exists)]
        else if t.level == Leaf && s.source == Declarative && IsThere(s.inv, d, t.name) then
          [Skipped(s.srcDb, t.schema, t.name, s.destDb, d, t.name, HalfBuiltLeaf)]
        else []
  {
    ExistingIsThere(s.inv, t.schema, d, t.name);
    ExistingIsThere(s.inv, t.schema, d, s.suffix(t.name));
  }
}
