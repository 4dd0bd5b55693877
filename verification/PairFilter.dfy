/**
 The --skip-existing filter on table pairs (copy/copy_metadata.go filterTablePairsByDestExisting)
 and its agreement with the filter on table definitions: the two run in different packages, over
 different inputs, and a pair must not survive when its table is not created.
 */
module PairFilter {
  import opened Destination
  import opened SkipExisting
  import opened Strings
  import TableMap

  type Pairing = map<string, seq<string>>

  // ------------------------------------------------------------ from leaves to roots

  predicate ListedUnder(p: Pairing, root: string, leaf: string) {
    root in p && leaf in p[root]
  }

  /** Every listed leaf goes to a root that lists it; a leaf of two roots goes to either. */
  ghost predicate IsInverse(p: Pairing, rootOf: map<string, string>) {
    && (forall root, leaf :: ListedUnder(p, root, leaf) ==> leaf in rootOf)
    && forall leaf :: leaf in rootOf ==> ListedUnder(p, rootOf[leaf], leaf)
  }

  ghost predicate InverseSoFar(p: Pairing, rootOf: map<string, string>, done: set<string>) {
    && (forall root, leaf :: root in done && ListedUnder(p, root, leaf) ==> leaf in rootOf)
    && forall leaf :: leaf in rootOf ==> ListedUnder(p, rootOf[leaf], leaf)
  }

  /** The inversion, for any order in which the map is walked. */
  method InvertPairing(p: Pairing) returns (rootOf: map<string, string>)
    ensures IsInverse(p, rootOf)
  {
    rootOf := map[];
    var todo := p.Keys;
    while todo != {}
      invariant todo <= p.Keys && InverseSoFar(p, rootOf, p.Keys - todo)
      decreases todo
    {
      var root :| root in todo;
      for i := 0 to |p[root]|
        invariant InverseSoFar(p, rootOf, p.Keys - todo)
        invariant forall k :: 0 <= k < i ==> p[root][k] in rootOf
      {
        rootOf := rootOf[p[root][i] := root];
      }
      todo := todo - {root};
    }
  }

  // ------------------------------------------------------------ the filter

  /** The root is cut at its first dot and looked up; without a dot it is not found. */
  predicate RootExisting(inv: Inventory, root: string) {
    '.' in root && Existing(inv, root[..Index(root, '.')], root[Index(root, '.') + 1..])
  }

  /** Where the root is cut makes no difference. */
  lemma RootExistingIff(inv: Inventory, root: string)
    ensures RootExisting(inv, root) <==> '.' in root && (root in inv.tables || root in inv.roots)
  {
    if '.' in root {
      var i := Index(root, '.');
      assert Qualify(root[..i], root[i + 1..]) == root;
    }
  }

  predicate Skips(inv: Inventory, rootOf: map<string, string>, dest: TableMap.Table) {
    || Existing(inv, dest.schema, dest.name)
    || var fqn := Qualify(dest.schema, dest.name); fqn in rootOf && RootExisting(inv, rootOf[fqn])
  }

  /** Positions of the pairs that stay, in order. */
  function Staying(inv: Inventory, rootOf: map<string, string>, dst: seq<TableMap.Table>): (at: seq<nat>)
    ensures forall k :: 0 <= k < |at| ==> at[k] < |dst|
  {
    if dst == [] then []
    else
      var n := |dst| - 1;
      Staying(inv, rootOf, dst[..n]) + if Skips(inv, rootOf, dst[n]) then [] else [n]
  }

  function Pick(tables: seq<TableMap.Table>, at: seq<nat>): seq<TableMap.Table>
    requires forall k :: 0 <= k < |at| ==> at[k] < |tables|
  {
    seq(|at|, k requires 0 <= k < |at| => tables[at[k]])
  }

  /** RecordPairSkip. */
  function PairRecord(s: Setup, src: TableMap.Table, dst: TableMap.Table): Skipped {
    Skipped(s.srcDb, src.schema, src.name, s.destDb, dst.schema, dst.name, Exists)
  }

  /** The records of the skipped pairs, in order. */
  function PairRecords(s: Setup, rootOf: map<string, string>, src: seq<TableMap.Table>, dst: seq<TableMap.Table>)
    : seq<Skipped>
    requires |dst| <= |src|
  {
    if dst == [] then []
    else
      var n := |dst| - 1;
      PairRecords(s, rootOf, src, dst[..n]) +
        if Skips(s.inv, rootOf, dst[n]) then [PairRecord(s, src[n], dst[n])] else []
  }

  lemma OnePairMore(s: Setup, rootOf: map<string, string>, src: seq<TableMap.Table>, dst: seq<TableMap.Table>, i: nat)
    requires i < |src| && i < |dst|
    ensures
      var skip := Skips(s.inv, rootOf, dst[i]);
      && Staying(s.inv, rootOf, dst[..i + 1]) == Staying(s.inv, rootOf, dst[..i]) + (if skip then [] else [i])
      && PairRecords(s, rootOf, src, dst[..i + 1]) ==
         PairRecords(s, rootOf, src, dst[..i]) + (if skip then [PairRecord(s, src[i], dst[i])] else [])
  {
    assert dst[..i + 1][..i] == dst[..i];
  }

  /** Both lists lose the same positions, so what stays is still paired. */
  method FilterPairs(s: Setup, src: seq<TableMap.Table>, dst: seq<TableMap.Table>, p: Pairing)
    returns (keptSrc: seq<TableMap.Table>, keptDst: seq<TableMap.Table>, records: seq<Skipped>)
    requires |src| <= |dst|
    ensures src == [] ==> keptSrc == src && keptDst == dst && records == []
    ensures src != [] ==> exists rootOf ::
      && IsInverse(p, rootOf)
      && keptSrc == Pick(src, Staying(s.inv, rootOf, dst[..|src|]))
      && keptDst == Pick(dst, Staying(s.inv, rootOf, dst[..|src|]))
      && records == PairRecords(s, rootOf, src, dst[..|src|])
  {
    if |src| == 0 {
      return src, dst, [];
    }
    var rootOf := InvertPairing(p);
    keptSrc, keptDst, records := [], [], [];
    for i := 0 to |src|
      invariant keptSrc == Pick(src, Staying(s.inv, rootOf, dst[..i]))
      invariant keptDst == Pick(dst, Staying(s.inv, rootOf, dst[..i]))
      invariant records == PairRecords(s, rootOf, src, dst[..i])
    {
      OnePairMore(s, rootOf, src, dst, i);
      if Skips(s.inv, rootOf, dst[i]) {
        records := records + [PairRecord(s, src[i], dst[i])];
      } else {
        keptSrc := keptSrc + [src[i]];
        keptDst := keptDst + [dst[i]];
      }
    }
  }

  /** The positions that stay are those not skipped, each once and in order. */
  lemma {:induction false} StayingIff(inv: Inventory, rootOf: map<string, string>, dst: seq<TableMap.Table>)
    ensures forall i: nat :: i in Staying(inv, rootOf, dst) <==> i < |dst| && !Skips(inv, rootOf, dst[i])
    ensures forall j, k :: 0 <= j < k < |Staying(inv, rootOf, dst)| ==>
      Staying(inv, rootOf, dst)[j] < Staying(inv, rootOf, dst)[k]
  {
    if dst != [] {
      StayingIff(inv, rootOf, dst[..|dst| - 1]);
    }
  }

  /** Which pairs are skipped, by the names that are on the destination. */
  lemma SkipsIff(inv: Inventory, rootOf: map<string, string>, dest: TableMap.Table)
    ensures Skips(inv, rootOf, dest) <==>
      var fqn := dest.schema + "." + dest.name;
      || fqn in inv.tables + inv.roots
      || (fqn in rootOf && '.' in rootOf[fqn] && rootOf[fqn] in inv.tables + inv.roots)
  {
    var fqn := Qualify(dest.schema, dest.name);
    if fqn in rootOf {
      RootExistingIff(inv, rootOf[fqn]);
    }
  }

  /** Every record names a skipped pair, source and destination, as existing. */
  lemma {:induction false} PairRecordsSay(
    s: Setup, rootOf: map<string, string>, src: seq<TableMap.Table>, dst: seq<TableMap.Table>, r: Skipped)
    requires |dst| <= |src|
    ensures r in PairRecords(s, rootOf, src, dst) <==>
      exists i :: 0 <= i < |dst| && Skips(s.inv, rootOf, dst[i]) &&
        r == Skipped(s.srcDb, src[i].schema, src[i].name, s.destDb, dst[i].schema, dst[i].name, Exists)
  {
    if dst != [] {
      PairRecordsSay(s, rootOf, src, dst[..|dst| - 1], r);
    }
  }

  // ------------------------------------------------------------ agreement of the two filters

  function DestFqn(s: Setup, t: Table): string {
    Qualify(Translate(s.inv, t.schema), t.name)
  }

  /** Leaves are listed under the translated name of their root; no table is under another name. */
  ghost predicate Truthful(s: Setup, tables: seq<Table>, p: Pairing) {
    forall c :: ChainToTop(RowsOf(tables), c) && c[0] in tables ==> TruthfulAbout(s, c, p)
  }

  ghost predicate TruthfulAbout(s: Setup, c: seq<Table>, p: Pairing)
    requires |c| > 0
  {
    && (forall root :: ListedUnder(p, root, DestFqn(s, c[0])) ==> root == DestFqn(s, c[|c| - 1]))
    && (c[0].level == Leaf ==> ListedUnder(p, DestFqn(s, c[|c| - 1]), DestFqn(s, c[0])))
  }

  /** A pair stays exactly when neither its table nor the root of its tree is on the destination. */
  lemma PairStaysIff(
    s: Setup, tables: seq<Table>, p: Pairing, rootOf: map<string, string>, c: seq<Table>, dest: TableMap.Table)
    requires Truthful(s, tables, p) && IsInverse(p, rootOf)
    requires ChainToTop(RowsOf(tables), c) && c[0] in tables && (c[0].level == Leaf || IsTop(c[0]))
    requires dest.schema == Translate(s.inv, c[0].schema) && dest.name == c[0].name
    ensures !Skips(s.inv, rootOf, dest) <==> !OnDestination(s, c[0]) && !OnDestination(s, c[|c| - 1])
  {
    var top := c[|c| - 1];
    var fqn := DestFqn(s, c[0]);
    assert TruthfulAbout(s, c, p);
    RootExistingIff(s.inv, DestFqn(s, top));
    assert DestFqn(s, top)[|Translate(s.inv, top.schema)|] == '.';
    assert |c| > 1 ==> Inherits(RowsOf(tables), c[0], c[1]);
    if fqn in rootOf {
      assert ListedUnder(p, rootOf[fqn], fqn);
    }
  }

  /** No pair survives for a table whose definition is dropped because of its root. */
  lemma NoPairWithoutTable(
    s: Setup, tables: seq<Table>, p: Pairing, rootOf: map<string, string>, t: Table, dest: TableMap.Table, limit: nat)
    requires FqnsIdentify(tables) && Truthful(s, tables, p) && IsInverse(p, rootOf)
    requires t in tables && (t.level == Leaf || IsTop(t)) && !SuffixedOnDestination(s, t)
    requires dest.schema == Translate(s.inv, t.schema) && dest.name == t.name
    requires t !in KeptOf(s, RowsOf(tables), PresentTops(s, tables), tables, limit)
    ensures Skips(s.inv, rootOf, dest)
  {
    KeptIff(s, RowsOf(tables), PresentTops(s, tables), tables, limit, t);
    DropsIff(s, tables, t, limit);
    var c :| ChainToTop(RowsOf(tables), c) && c[0] == t && |c| - 1 <= limit && OnDestination(s, c[|c| - 1]);
    PairStaysIff(s, tables, p, rootOf, c, dest);
  }

  /**
   All the ways the two filters can differ, at any depth. A table is created but receives no data
   when it is on the destination and its root is not, or when its root is there but too far away
   for the bounded walk. A table is not created but keeps its pair only if it was found under an
   external suffix and neither it nor its root is on the destination.
   */
  lemma WhereFiltersDiffer(
    s: Setup, tables: seq<Table>, p: Pairing, rootOf: map<string, string>, c: seq<Table>, dest: TableMap.Table,
    limit: nat)
    requires FqnsIdentify(tables) && Truthful(s, tables, p) && IsInverse(p, rootOf)
    requires ChainToTop(RowsOf(tables), c) && c[0] in tables && (c[0].level == Leaf || IsTop(c[0]))
    requires dest.schema == Translate(s.inv, c[0].schema) && dest.name == c[0].name
    ensures
      var kept := c[0] in KeptOf(s, RowsOf(tables), PresentTops(s, tables), tables, limit);
      var present, rootPresent := OnDestination(s, c[0]), OnDestination(s, c[|c| - 1]);
      && (kept && Skips(s.inv, rootOf, dest) <==>
          && !SuffixedOnDestination(s, c[0])
          && (if rootPresent then |c| - 1 > limit else present))
      && (!kept && !Skips(s.inv, rootOf, dest) <==> SuffixedOnDestination(s, c[0]) && !present && !rootPresent)
  {
    MemberFate(s, tables, c, limit);
    PairStaysIff(s, tables, p, rootOf, c, dest);
    assert |c| > 1 ==> Inherits(RowsOf(tables), c[0], c[1]);
  }
}
