/**
 The metadata file and its table of contents (utils/io.go FileWithByteCount,
 meta/builtin/toc/toc.go): text is appended to one file, and each entry keeps the byte range
 of its statement.
 */
module Toc {
  import opened Wrappers
  import opened Sequences
  import opened Strings
  import opened FilterSets

  datatype Section = Global | Predata | Postdata | Statistics

  datatype Entry = Entry(
    schema: string, name: string, objectType: string, reference: string, startByte: nat, endByte: nat)

  /** A statement read back; its ids are never filled in. */
  datatype Statement = Statement(
    schema: string, name: string, objectType: string, reference: string, text: string, classId: nat, oid: nat)

  // ------------------------------------------------------------ histories

  /** One call on the file or on the table of contents. */
  datatype Op =
    | Print(text: string)
    | Add(section: Section, entry: Entry, start: nat, end: nat)

  /** Everything printed. */
  function Printed(h: seq<Op>): string {
    if h == [] then ""
    else
      var n := |h| - 1;
      if h[n].Print? then Printed(h[..n]) + h[n].text else Printed(h[..n])
  }

  /** The entries of a section. */
  function Entries(h: seq<Op>, section: Section): seq<Entry> {
    if h == [] then []
    else
      var n := |h| - 1;
      if h[n].Add? && h[n].section == section then
        Entries(h[..n], section) + [h[n].entry.(startByte := h[n].start, endByte := h[n].end)]
      else Entries(h[..n], section)
  }

  lemma {:induction false} PrintedConcat(a: seq<Op>, b: seq<Op>)
    ensures Printed(a + b) == Printed(a) + Printed(b)
  {
    if b == [] {
      assert a + b == a;
    } else {
      var n := |b| - 1;
      PrintedConcat(a, b[..n]);
      assert (a + b)[..|a| + n] == a + b[..n];
      assert (a + b)[|a| + n] == b[n];
      if b[n].Print? {
        Associate(Printed(a), Printed(b[..n]), b[n].text);
      }
    }
  }

  lemma {:induction false} EntriesConcat(a: seq<Op>, b: seq<Op>, section: Section)
    ensures Entries(a + b, section) == Entries(a, section) + Entries(b, section)
  {
    if b == [] {
      assert a + b == a;
    } else {
      var n := |b| - 1;
      EntriesConcat(a, b[..n], section);
      assert (a + b)[..|a| + n] == a + b[..n];
      assert (a + b)[|a| + n] == b[n];
    }
  }

  /** A range that can be read: nothing is read for an empty one, wherever it lies. */
  predicate Readable(file: string, start: nat, end: nat) {
    start == end || start < end <= |file|
  }

  function TextAt(file: string, start: nat, end: nat): string
    requires Readable(file, start, end)
  {
    if start == end then "" else file[start..end]
  }

  /** Reading a range of the file; None is the fatal error of a range outside it. */
  function ReadRange(file: string, start: nat, end: nat): Option<string> {
    if Readable(file, start, end) then Some(TextAt(file, start, end)) else None
  }

  /**
   A range taken from the byte count before step `i` to the byte count before step `j` holds what
   was printed in between, no matter what is printed afterwards.
   */
  lemma RangeReadsBack(h: seq<Op>, i: nat, j: nat)
    requires i <= j <= |h|
    ensures ReadRange(Printed(h), |Printed(h[..i])|, |Printed(h[..j])|) == Some(Printed(h[i..j]))
  {
    PrintedConcat(h[..i], h[i..j]);
    PrintedConcat(h[..j], h[j..]);
    assert h[..i] + h[i..j] == h[..j] && h[..j] + h[j..] == h;
    RangeOfConcat(Printed(h[..i]), Printed(h[i..j]), Printed(h[j..]), Printed(h[..j]), Printed(h));
  }

  lemma RangeOfConcat<T>(a: seq<T>, b: seq<T>, c: seq<T>, ab: seq<T>, abc: seq<T>)
    requires ab == a + b && abc == ab + c
    ensures |a| <= |ab| <= |abc| && abc[|a|..|ab|] == b
  {
  }

  /** Step `k` records a range that brackets the writes of steps `i` up to `j`. */
  predicate Brackets(h: seq<Op>, k: nat, i: nat, j: nat) {
    && k < |h| && i <= j <= k && h[k].Add?
    && h[k].start == |Printed(h[..i])| && h[k].end == |Printed(h[..j])|
  }

  /** What step `k` records becomes the next entry of its section and stays there. */
  lemma EntryStays(h: seq<Op>, k: nat)
    requires k < |h| && h[k].Add?
    ensures
      var at := |Entries(h[..k], h[k].section)|;
      && at < |Entries(h, h[k].section)|
      && Entries(h, h[k].section)[at] == h[k].entry.(startByte := h[k].start, endByte := h[k].end)
  {
    var section := h[k].section;
    EntriesConcat(h[..k], h[k..k + 1], section);
    EntriesConcat(h[..k + 1], h[k + 1..], section);
    assert h[..k] + h[k..k + 1] == h[..k + 1] && h[..k + 1] + h[k + 1..] == h;
    assert h[k..k + 1][..0] == [];
    assert Entries(h[k..k + 1], section) == [h[k].entry.(startByte := h[k].start, endByte := h[k].end)];
  }

  /** The step that recorded an entry. */
  lemma {:induction false} EntryHasStep(h: seq<Op>, section: Section, m: nat) returns (k: nat)
    requires m < |Entries(h, section)|
    ensures k < |h| && h[k].Add? && h[k].section == section && |Entries(h[..k], section)| == m
  {
    var n := |h| - 1;
    if m < |Entries(h[..n], section)| {
      k := EntryHasStep(h[..n], section, m);
      assert h[..n][..k] == h[..k];
    } else {
      k := n;
    }
  }

  ghost predicate IsBracketed(h: seq<Op>, k: nat) {
    exists i: nat, j: nat :: Brackets(h, k, i, j)
  }

  /** All recorded ranges bracket writes. */
  ghost predicate AllBracketed(h: seq<Op>) {
    forall k :: 0 <= k < |h| && h[k].Add? ==> IsBracketed(h, k)
  }

  /** Every entry reads back exactly the text that was printed for it. */
  lemma EntryReadsBack(h: seq<Op>, section: Section, m: nat) returns (k: nat, i: nat, j: nat)
    requires AllBracketed(h) && m < |Entries(h, section)|
    ensures Brackets(h, k, i, j) && h[k].section == section && |Entries(h[..k], section)| == m
    ensures
      var e := Entries(h, section)[m];
      && e == h[k].entry.(startByte := e.startByte, endByte := e.endByte)
      && ReadRange(Printed(h), e.startByte, e.endByte) == Some(Printed(h[i..j]))
  {
    k := EntryHasStep(h, section, m);
    assert IsBracketed(h, k);
    i, j :| Brackets(h, k, i, j);
    EntryStays(h, k);
    RangeReadsBack(h, i, j);
  }

  /** So selecting statements is never fatal. */
  lemma BracketedInFile(h: seq<Op>, section: Section)
    requires AllBracketed(h)
    ensures InFile(Printed(h), Entries(h, section))
  {
    forall m | 0 <= m < |Entries(h, section)|
      ensures Readable(Printed(h), Entries(h, section)[m].startByte, Entries(h, section)[m].endByte)
    {
      var k, i, j := EntryReadsBack(h, section, m);
    }
  }

  // ------------------------------------------------------------ selecting statements

  /** The four lists of a restore filter. */
  datatype Filters = Filters(
    includeSchemas: seq<string>, excludeSchemas: seq<string>,
    includeRelations: seq<string>, excludeRelations: seq<string>)

  function NoFilters(): Filters {
    Filters([], [], [], [])
  }

  predicate IsRelation(objectType: string) {
    objectType == "TABLE" || objectType == "VIEW" || objectType == "MATERIALIZED VIEW" || objectType == "SEQUENCE"
  }

  /** shouldIncludeStatement. */
  predicate ShouldInclude(e: Entry, objects: FilterSet, schemas: FilterSet, relations: FilterSet) {
    var fqn := Qualify(e.schema, e.name);
    var leafAllowed := !(relations.isExclude && e.reference != "" && !Matches(relations, e.reference));
    var relation :=
      || (relations.isExclude && !IsRelation(e.objectType) && e.reference == "")
      || (IsRelation(e.objectType) && Matches(relations, fqn) && leafAllowed)
      || (e.objectType != "SEQUENCE OWNER" && e.reference != "" && Matches(relations, e.reference))
      || (e.objectType == "SEQUENCE OWNER" && Matches(relations, fqn) && Matches(relations, e.reference));
    Matches(objects, e.objectType) && Matches(schemas, e.schema) && relation
  }

  /** Which entries the relation lists select. */
  predicate SelectsRelation(f: Filters, e: Entry) {
    var fqn := Qualify(e.schema, e.name);
    var own := Passes(f.includeRelations, f.excludeRelations, fqn);
    var referred := Passes(f.includeRelations, f.excludeRelations, e.reference);
    var relation := e.objectType in ["TABLE", "VIEW", "MATERIALIZED VIEW", "SEQUENCE"];
    if f.includeRelations == [] && e.reference == "" then relation ==> own
    else if e.objectType == "SEQUENCE OWNER" then own && referred
    else if f.includeRelations == [] then referred
    else (relation && own) || (e.reference != "" && referred)
  }

  predicate Selects(f: Filters, included: seq<string>, excluded: seq<string>, e: Entry) {
    && Passes(included, excluded, e.objectType)
    && Passes(f.includeSchemas, f.excludeSchemas, e.schema)
    && SelectsRelation(f, e)
  }

  /**
   The four alternatives of the code in terms of the lists: with an exclude list an entry that
   refers to a relation is selected by that relation alone, even if its own name is excluded.
   */
  lemma ShouldIncludeIff(f: Filters, included: seq<string>, excluded: seq<string>, e: Entry,
                         objects: FilterSet, schemas: FilterSet, relations: FilterSet)
    requires FiltersLike(objects, included, excluded)
    requires FiltersLike(schemas, f.includeSchemas, f.excludeSchemas)
    requires FiltersLike(relations, f.includeRelations, f.excludeRelations)
    ensures ShouldInclude(e, objects, schemas, relations) <==> Selects(f, included, excluded, e)
  {
    assert IsRelation(e.objectType) ==> e.objectType != "SEQUENCE OWNER";
  }

  /** Without schema and relation filters only the object type decides, whatever the entry refers to. */
  lemma OnlyTypeDecides(included: seq<string>, excluded: seq<string>, e: Entry)
    ensures Selects(NoFilters(), included, excluded, e) <==> Passes(included, excluded, e.objectType)
  {
  }

  function StatementOf(e: Entry, text: string): Statement {
    Statement(e.schema, e.name, e.objectType, e.reference, text, 0, 0)
  }

  function Selected(es: seq<Entry>, f: Filters, included: seq<string>, excluded: seq<string>): seq<Entry> {
    if es == [] then []
    else
      var n := |es| - 1;
      Selected(es[..n], f, included, excluded) + if Selects(f, included, excluded, es[n]) then [es[n]] else []
  }

  /** Each entry's range can be read. */
  predicate InFile(file: string, es: seq<Entry>) {
    forall k :: 0 <= k < |es| ==> Readable(file, es[k].startByte, es[k].endByte)
  }

  /** `st` is what is read back of `e`: its names and type, the text of its range, and no ids. */
  predicate ReadFrom(st: Statement, e: Entry, file: string) {
    && st.schema == e.schema && st.name == e.name && st.objectType == e.objectType && st.reference == e.reference
    && Some(st.text) == ReadRange(file, e.startByte, e.endByte)
    && st.classId == 0 && st.oid == 0
  }

  function StatementsOf(file: string, es: seq<Entry>): (r: seq<Statement>)
    requires InFile(file, es)
    ensures |r| == |es| && forall k :: 0 <= k < |r| ==> ReadFrom(r[k], es[k], file)
  {
    seq(|es|, k requires 0 <= k < |es| => StatementOf(es[k], TextAt(file, es[k].startByte, es[k].endByte)))
  }

  lemma {:induction false} SelectedConcat(
    a: seq<Entry>, b: seq<Entry>, f: Filters, included: seq<string>, excluded: seq<string>)
    ensures Selected(a + b, f, included, excluded) ==
      Selected(a, f, included, excluded) + Selected(b, f, included, excluded)
  {
    if b == [] {
      assert a + b == a;
    } else {
      var n := |b| - 1;
      SelectedConcat(a, b[..n], f, included, excluded);
      assert (a + b)[..|a| + n] == a + b[..n];
      assert (a + b)[|a| + n] == b[n];
    }
  }

  lemma {:induction false} SelectedTimes(
    es: seq<Entry>, f: Filters, included: seq<string>, excluded: seq<string>, e: Entry)
    ensures multiset(Selected(es, f, included, excluded))[e] ==
      if Selects(f, included, excluded, e) then multiset(es)[e] else 0
  {
    if es != [] {
      var n := |es| - 1;
      SelectedTimes(es[..n], f, included, excluded, e);
      assert es == es[..n] + [es[n]];
    }
  }

  // ------------------------------------------------------------ the file and the table

  class MetadataFile {
    var written: string
    var byteCount: nat

    ghost predicate Valid()
      reads this
    {
      byteCount == |written|
    }

    constructor ()
      ensures Valid() && written == ""
    {
      written, byteCount := "", 0;
    }

    method MustPrint(text: string)
      requires Valid()
      modifies this
      ensures Valid() && written == old(written) + text
    {
      written := written + text;
      byteCount := byteCount + |text|;
    }
  }

  class TableOfContents {
    var sections: map<Section, seq<Entry>>

    ghost predicate Valid()
      reads this
    {
      forall s: Section :: s in sections
    }

    /** This table is the one that `h` builds. */
    ghost predicate Holds(h: seq<Op>)
      reads this
    {
      Valid() && forall s: Section :: sections[s] == Entries(h, s)
    }

    constructor ()
      ensures Holds([])
    {
      sections := map[Global := [], Predata := [], Postdata := [], Statistics := []];
      new;
      forall s: Section ensures s in sections && sections[s] == [] {
        match s case Global => case Predata => case Postdata => case Statistics =>
      }
    }

    method AddMetadataEntry(section: Section, entry: Entry, start: nat, end: nat, ghost h: seq<Op>)
      requires Holds(h)
      modifies this
      ensures Holds(h + [Add(section, entry, start, end)])
    {
      sections := sections[section := sections[section] + [entry.(startByte := start, endByte := end)]];
      assert (h + [Add(section, entry, start, end)])[..|h|] == h;
    }

    /** GetSQLStatementForObjectTypes; None is the fatal error of a range outside the file. */
    method GetStatements(section: Section, file: string, included: seq<string>, excluded: seq<string>, f: Filters)
      returns (r: Option<seq<Statement>>)
      requires Valid()
      ensures
        var es := Selected(sections[section], f, included, excluded);
        && r == (if InFile(file, es) then Some(StatementsOf(file, es)) else None)
        && (r.Some? ==> |r.value| == |es| && forall k :: 0 <= k < |es| ==> ReadFrom(r.value[k], es[k], file))
    {
      var es := sections[section];
      var objects := NewChoice(included, excluded);
      var schemas := NewChoice(f.includeSchemas, f.excludeSchemas);
      var relations := NewChoice(f.includeRelations, f.excludeRelations);
      var out: seq<Statement> := [];
      ghost var done: seq<Entry> := [];
      for i := 0 to |es|
        invariant done == Selected(es[..i], f, included, excluded) && InFile(file, done)
        invariant out == StatementsOf(file, done)
      {
        assert es[..i + 1][..i] == es[..i];
        var e := es[i];
        ShouldIncludeIff(f, included, excluded, e, objects, schemas, relations);
        if ShouldInclude(e, objects, schemas, relations) {
          done := done + [e];
          var contents := ReadRange(file, e.startByte, e.endByte);
          if contents.None? {
            SelectedConcat(es[..i + 1], es[i + 1..], f, included, excluded);
            assert es[..i + 1] + es[i + 1..] == es;
            assert Selected(es, f, included, excluded)[|done| - 1] == e;
            return None;
          }
          out := out + [StatementOf(e, contents.value)];
        }
      }
      assert es[..|es|] == es;
      return Some(out);
    }
  }

  // ------------------------------------------------------------ the printers

  /** The entry under which PrintStatements records: postdata entries are marked as metadata of their object. */
  function Retagged(section: Section, entry: Entry): Entry {
    if section.Postdata? then
      entry.(objectType := entry.objectType + " METADATA",
             reference := if entry.schema != "" then Qualify(entry.schema, entry.name) else entry.name)
    else entry
  }

  function Framed(statement: string): string {
    "\n\n" + statement + "\n"
  }

  function FramedAll(statements: seq<string>): seq<string> {
    seq(|statements|, i requires 0 <= i < |statements| => Framed(statements[i]))
  }

  /** Printing `text` at byte `at` and recording its range. */
  function PrintOne(section: Section, entry: Entry, text: string, at: nat): (ops: seq<Op>)
    ensures |ops| == 2
  {
    [Print(text), Add(section, entry, at, at + |text|)]
  }

  function Total(texts: seq<string>): nat {
    if texts == [] then 0 else Total(texts[..|texts| - 1]) + |texts[|texts| - 1]|
  }

  /** The same for several texts, one after another. */
  function PrintAll(section: Section, entry: Entry, texts: seq<string>, at: nat): seq<Op> {
    if texts == [] then []
    else
      var n := |texts| - 1;
      PrintAll(section, entry, texts[..n], at) + PrintOne(section, entry, texts[n], at + Total(texts[..n]))
  }

  lemma BracketsKept(h: seq<Op>, more: seq<Op>)
    requires AllBracketed(h)
    ensures forall k :: 0 <= k < |h| && h[k].Add? ==> IsBracketed(h + more, k)
  {
    forall k | 0 <= k < |h| && h[k].Add? ensures IsBracketed(h + more, k) {
      assert IsBracketed(h, k);
      var i: nat, j: nat :| Brackets(h, k, i, j);
      assert (h + more)[..i] == h[..i] && (h + more)[..j] == h[..j];
      assert Brackets(h + more, k, i, j);
    }
  }

  lemma PrintOneBrackets(h: seq<Op>, section: Section, entry: Entry, text: string, more: seq<Op>)
    requires more == PrintOne(section, entry, text, |Printed(h)|)
    ensures Printed(h + more) == Printed(h) + text && Brackets(h + more, |h| + 1, |h|, |h| + 1)
  {
    var h1 := h + [Print(text)];
    assert h1[..|h|] == h && (h + more)[..|h| + 1] == h1 && (h + more)[..|h|] == h;
    assert Printed(h1) == Printed(h) + text;
  }

  /** Printing text and recording the range it takes keeps all ranges bracketing. */
  lemma PrintOneKeeps(h: seq<Op>, section: Section, entry: Entry, text: string, more: seq<Op>)
    requires more == PrintOne(section, entry, text, |Printed(h)|) && AllBracketed(h)
    ensures AllBracketed(h + more)
  {
    PrintOneBrackets(h, section, entry, text, more);
    BracketsKept(h, more);
    OneMoreBracketed(h, more);
  }

  lemma OneMoreBracketed(h: seq<Op>, more: seq<Op>)
    requires |more| == 2 && more[0].Print? && IsBracketed(h + more, |h| + 1)
    requires forall k :: 0 <= k < |h| && h[k].Add? ==> IsBracketed(h + more, k)
    ensures AllBracketed(h + more)
  {
    var t := h + more;
    forall k | 0 <= k < |t| && t[k].Add? ensures IsBracketed(t, k) {
      if k < |h| {
        assert t[k] == h[k];
      } else {
        assert t[k] == more[k - |h|];
      }
    }
  }

  lemma EntriesAfterPrint(h: seq<Op>, text: string)
    ensures forall s: Section :: Entries(h + [Print(text)], s) == Entries(h, s)
  {
    assert (h + [Print(text)])[..|h|] == h;
  }

  /** File and table are what `h` makes of them. */
  ghost predicate InSync(file: MetadataFile, toc: TableOfContents, h: seq<Op>)
    reads file, toc
  {
    file.Valid() && toc.Holds(h) && file.written == Printed(h)
  }

  /** One statement: remember the count, print, record the range. */
  method PrintStatement(
    file: MetadataFile, toc: TableOfContents, section: Section, entry: Entry, text: string, ghost h: seq<Op>)
    returns (ghost h': seq<Op>)
    requires InSync(file, toc, h)
    modifies file, toc
    ensures InSync(file, toc, h')
    ensures h' == h + PrintOne(section, entry, text, |Printed(h)|) && |Printed(h')| == |Printed(h)| + |text|
    ensures AllBracketed(h) ==> AllBracketed(h')
  {
    var start := file.byteCount;
    file.MustPrint(text);
    EntriesAfterPrint(h, text);
    toc.AddMetadataEntry(section, entry, start, file.byteCount, h + [Print(text)]);
    h' := h + PrintOne(section, entry, text, start);
    PrintOneFacts(h, section, entry, text, PrintOne(section, entry, text, start));
  }

  lemma PrintOneFacts(h: seq<Op>, section: Section, entry: Entry, text: string, more: seq<Op>)
    requires more == PrintOne(section, entry, text, |Printed(h)|)
    ensures h + [Print(text)] + [Add(section, entry, |Printed(h)|, |Printed(h)| + |text|)] == h + more
    ensures Printed(h + more) == Printed(h) + text && (AllBracketed(h) ==> AllBracketed(h + more))
  {
    PrintOneBrackets(h, section, entry, text, more);
    if AllBracketed(h) {
      PrintOneKeeps(h, section, entry, text, more);
    }
  }

  lemma PrintAllStep(h: seq<Op>, section: Section, entry: Entry, texts: seq<string>, i: nat, at: nat)
    requires i < |texts|
    ensures Total(texts[..i + 1]) == Total(texts[..i]) + |texts[i]|
    ensures h + PrintAll(section, entry, texts[..i + 1], at) ==
      (h + PrintAll(section, entry, texts[..i], at)) + PrintOne(section, entry, texts[i], at + Total(texts[..i]))
  {
    assert texts[..i + 1][..i] == texts[..i];
    Associate(h, PrintAll(section, entry, texts[..i], at), PrintOne(section, entry, texts[i], at + Total(texts[..i])));
  }

  /** The loop over the texts of one object. */
  method PrintTexts(
    file: MetadataFile, toc: TableOfContents, section: Section, entry: Entry, texts: seq<string>, ghost h: seq<Op>)
    returns (ghost h': seq<Op>)
    requires InSync(file, toc, h)
    modifies file, toc
    ensures InSync(file, toc, h')
    ensures h' == h + PrintAll(section, entry, texts, |Printed(h)|)
    ensures AllBracketed(h) ==> AllBracketed(h')
  {
    h' := h;
    ghost var at := |Printed(h)|;
    for i := 0 to |texts|
      invariant InSync(file, toc, h') && |Printed(h')| == at + Total(texts[..i])
      invariant h' == h + PrintAll(section, entry, texts[..i], at)
      invariant AllBracketed(h) ==> AllBracketed(h')
    {
      PrintAllStep(h, section, entry, texts, i, at);
      h' := PrintStatement(file, toc, section, entry, texts[i], h');
    }
    assert texts[..|texts|] == texts;
  }

  /** PrintStatements: every statement of an object becomes an entry whose range brackets it. */
  method PrintStatements(
    file: MetadataFile, toc: TableOfContents, section: Section, entry: Entry, statements: seq<string>,
    ghost h: seq<Op>)
    returns (ghost h': seq<Op>)
    requires InSync(file, toc, h)
    modifies file, toc
    ensures InSync(file, toc, h')
    ensures h' == h + PrintAll(section, Retagged(section, entry), FramedAll(statements), |Printed(h)|)
    ensures AllBracketed(h) ==> AllBracketed(h')
  {
    h' := PrintTexts(file, toc, section, Retagged(section, entry), FramedAll(statements), h);
  }

  // ------------------------------------------------------------ what the printers leave behind

  lemma PrintOneIs(section: Section, entry: Entry, text: string, at: nat, one: seq<Op>)
    requires one == PrintOne(section, entry, text, at)
    ensures Printed(one) == text && Printed([one[0]]) == text
  {
    var p, q := [one[0]], [one[1]];
    assert p[..0] == [] && q[..0] == [] && one == p + q;
    assert Printed(p) == "" + text == text && Printed(q) == "";
    PrintedConcat(p, q);
    assert text + "" == text;
  }

  lemma {:induction false} PrintedLength(section: Section, entry: Entry, texts: seq<string>, at: nat)
    ensures |Printed(PrintAll(section, entry, texts, at))| == Total(texts)
  {
    if texts != [] {
      var n := |texts| - 1;
      var one := PrintOne(section, entry, texts[n], at + Total(texts[..n]));
      PrintedLength(section, entry, texts[..n], at);
      PrintedConcat(PrintAll(section, entry, texts[..n], at), one);
      PrintOneIs(section, entry, texts[n], at + Total(texts[..n]), one);
    }
  }

  lemma {:induction false} PrintAllSize(section: Section, entry: Entry, texts: seq<string>, at: nat)
    ensures |PrintAll(section, entry, texts, at)| == 2 * |texts|
  {
    if texts != [] {
      PrintAllSize(section, entry, texts[..|texts| - 1], at);
    }
  }

  /** The steps for text `m` come after those for the texts before it. */
  lemma {:induction false} PrintAllSteps(
    section: Section, entry: Entry, texts: seq<string>, at: nat, m: nat, ops: seq<Op>)
    requires m < |texts| && ops == PrintAll(section, entry, texts, at)
    ensures |ops| == 2 * |texts| && ops[..2 * m] == PrintAll(section, entry, texts[..m], at)
    ensures ops[2 * m] == Print(texts[m])
    ensures ops[2 * m + 1] == Add(section, entry, at + Total(texts[..m]), at + Total(texts[..m]) + |texts[m]|)
  {
    var n := |texts| - 1;
    var before := PrintAll(section, entry, texts[..n], at);
    var last := PrintOne(section, entry, texts[n], at + Total(texts[..n]));
    PrintAllSize(section, entry, texts[..n], at);
    Front(before, last, 2 * m, ops);
    if m < n {
      PrintAllSteps(section, entry, texts[..n], at, m, before);
      assert texts[..n][..m] == texts[..m];
    }
  }

  lemma Front<T>(a: seq<T>, b: seq<T>, k: nat, s: seq<T>)
    requires s == a + b && k <= |a|
    ensures s[..k] == a[..k] && (k == |a| ==> s[..k] == a)
    ensures forall i :: 0 <= i < |a| ==> s[i] == a[i]
    ensures forall i :: 0 <= i < |b| ==> s[|a| + i] == b[i]
  {
  }

  /** History `t` goes on with `ops` after `h`. */
  predicate GoesOn<T(==)>(t: seq<T>, h: seq<T>, ops: seq<T>) {
    |h| + |ops| <= |t| && t[..|h|] == h && t[|h|..|h| + |ops|] == ops
  }

  lemma At<T>(t: seq<T>, h: seq<T>, ops: seq<T>, k: nat)
    requires GoesOn(t, h, ops) && k < |ops|
    ensures t[|h| + k] == ops[k]
  {
    assert t[|h|..|h| + |ops|][k] == t[|h| + k];
  }

  lemma UpToIn<T>(t: seq<T>, h: seq<T>, ops: seq<T>, k: nat)
    requires GoesOn(t, h, ops) && k <= |ops|
    ensures t[..|h| + k] == h + ops[..k]
  {
    Extend(t, |h|, |h| + k);
    Cut(t, |h|, |h| + k, |h| + |ops|);
  }

  lemma PrintedUpTo(t: seq<Op>, h: seq<Op>, ops: seq<Op>, k: nat)
    requires GoesOn(t, h, ops) && k <= |ops|
    ensures |Printed(t[..|h| + k])| == |Printed(h)| + |Printed(ops[..k])|
  {
    UpToIn(t, h, ops, k);
    PrintedConcat(h, ops[..k]);
  }

  /** A text that is printed is found where the file ended before. */
  lemma PrintReadsBack(t: seq<Op>, i: nat, text: string)
    requires i < |t| && t[i] == Print(text)
    ensures ReadRange(Printed(t), |Printed(t[..i])|, |Printed(t[..i])| + |text|) == Some(text)
  {
    var one := [Print(text)];
    assert one[..0] == [] && Printed(one) == "" + text == text;
    PrintedConcat(t[..i], one);
    assert t[..i + 1] == t[..i] + one && t[i..i + 1] == one;
    RangeReadsBack(t, i, i + 1);
  }

  lemma TextReadsBack(t: seq<Op>, h: seq<Op>, ops: seq<Op>, k: nat, text: string)
    requires GoesOn(t, h, ops) && k + 1 < |ops| && ops[k] == Print(text) && ops[k + 1].Add?
    requires ops[k + 1].start == |Printed(h)| + |Printed(ops[..k])| && ops[k + 1].end == ops[k + 1].start + |text|
    ensures t[|h| + k + 1] == ops[k + 1]
    ensures ReadRange(Printed(t), ops[k + 1].start, ops[k + 1].end) == Some(text)
  {
    At(t, h, ops, k);
    At(t, h, ops, k + 1);
    PrintedUpTo(t, h, ops, k);
    PrintReadsBack(t, |h| + k, text);
  }

  lemma RetaggedIs(section: Section, entry: Entry, e: Entry)
    requires e == Retagged(section, entry)
    ensures e.schema == entry.schema && e.name == entry.name
    ensures e.objectType == (if section.Postdata? then entry.objectType + " METADATA" else entry.objectType)
    ensures e.reference ==
      (if !section.Postdata? then entry.reference
       else if entry.schema != "" then entry.schema + "." + entry.name else entry.name)
  {
  }

  lemma FramedAt(statements: seq<string>, m: nat, texts: seq<string>)
    requires m < |statements| && texts == FramedAll(statements)
    ensures |texts| == |statements| && texts[m] == "\n\n" + statements[m] + "\n"
  {
  }

  /**
   After PrintStatements, and whatever is printed later, the entry of each statement carries the
   object's names, marked as metadata in postdata, and its range reads back that statement.
   */
  lemma StatementReadsBack(
    h: seq<Op>, section: Section, entry: Entry, statements: seq<string>, m: nat, ops: seq<Op>, t: seq<Op>)
    requires m < |statements| && GoesOn(t, h, ops)
    requires ops == PrintAll(section, Retagged(section, entry), FramedAll(statements), |Printed(h)|)
    ensures |h| + 2 * m + 1 < |t|
    ensures
      var op := t[|h| + 2 * m + 1];
      && op.Add? && op.section == section && op.entry.schema == entry.schema && op.entry.name == entry.name
      && op.entry.objectType == (if section.Postdata? then entry.objectType + " METADATA" else entry.objectType)
      && op.entry.reference ==
         (if !section.Postdata? then entry.reference
          else if entry.schema != "" then entry.schema + "." + entry.name else entry.name)
      && ReadRange(Printed(t), op.start, op.end) == Some("\n\n" + statements[m] + "\n")
  {
    var tagged, texts, at := Retagged(section, entry), FramedAll(statements), |Printed(h)|;
    RetaggedIs(section, entry, tagged);
    FramedAt(statements, m, texts);
    TextsReadBack(h, section, tagged, texts, m, at, ops, t);
  }

  lemma TextsReadBack(
    h: seq<Op>, section: Section, entry: Entry, texts: seq<string>, m: nat, at: nat, ops: seq<Op>, t: seq<Op>)
    requires m < |texts| && GoesOn(t, h, ops) && at == |Printed(h)| && ops == PrintAll(section, entry, texts, at)
    ensures |h| + 2 * m + 1 < |t|
    ensures
      var op := t[|h| + 2 * m + 1];
      op.Add? && op.section == section && op.entry == entry && ReadRange(Printed(t), op.start, op.end) == Some(texts[m])
  {
    PrintAllSteps(section, entry, texts, at, m, ops);
    PrintedLength(section, entry, texts[..m], at);
    TextReadsBack(t, h, ops, 2 * m, texts[m]);
  }
}
