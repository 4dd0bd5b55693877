/**
 Dollar quoting of string literals (utils/util.go DollarQuoteString) against the lexical rule of
 section 4.1.2.4 of the PostgreSQL documentation: a tag, the text up to the next occurrence of
 the same tag, and that tag.
 */
module DollarQuote {
  import opened Wrappers
  import opened Sequences

  // ------------------------------------------------------------ substrings

  predicate OccursAt(s: string, t: string, k: nat) {
    k + |t| <= |s| && s[k..k + |t|] == t
  }

  predicate Contains(s: string, t: string) {
    exists k :: 0 <= k <= |s| && OccursAt(s, t, k)
  }

  /** strings.Contains. */
  method FindSubstring(s: string, t: string) returns (found: bool)
    ensures found == Contains(s, t)
  {
    for k := 0 to |s| + 1
      invariant forall i :: 0 <= i < k ==> !OccursAt(s, t, i)
    {
      if OccursAt(s, t, k) {
        return true;
      }
    }
    return false;
  }

  // ------------------------------------------------------------ choosing a tag

  const DELIMITER: string := "_XXXXXXX"

  /** What is looked for in the literal: a dollar and the first `i` characters of the delimiter. */
  function Opening(i: nat): (t: string)
    requires i < 8
    ensures |t| == i + 1 && t[0] == '$'
  {
    "$" + DELIMITER[..i]
  }

  /** The first tag from `i` on whose opening is not in the literal; the empty tag if there is none. */
  function TagFrom(literal: string, i: nat): string
    requires i <= 8
    decreases 8 - i
  {
    if i == 8 then ""
    else if Contains(literal, Opening(i)) then TagFrom(literal, i + 1)
    else Opening(i) + "$"
  }

  function Quoted(literal: string): string {
    TagFrom(literal, 0) + literal + TagFrom(literal, 0)
  }

  method DollarQuoteString(literal: string) returns (r: string)
    ensures r == Quoted(literal)
  {
    var quote := "";
    for i := 0 to 8
      invariant quote == "" && TagFrom(literal, 0) == TagFrom(literal, i)
    {
      var found := FindSubstring(literal, Opening(i));
      if !found {
        quote := Opening(i) + "$";
        return quote + literal + quote;
      }
    }
    return quote + literal + quote;
  }

  lemma ShorterOccurs(literal: string, i: nat)
    requires i < 7 && Contains(literal, Opening(i + 1))
    ensures Contains(literal, Opening(i))
  {
    var k :| 0 <= k <= |literal| && OccursAt(literal, Opening(i + 1), k);
    assert Opening(i + 1)[..i + 1] == Opening(i);
    assert literal[k..k + i + 1] == literal[k..k + i + 2][..i + 1];
    assert OccursAt(literal, Opening(i), k);
  }

  /** There is a tag exactly when the longest opening is not in the literal. */
  lemma {:induction false} TagExistsIff(literal: string, i: nat) returns (j: nat)
    requires i < 8
    ensures j < 8 && (TagFrom(literal, i) != "" <==> !Contains(literal, Opening(7)))
    ensures TagFrom(literal, i) != "" ==> TagFrom(literal, i) == Opening(j) + "$" && !Contains(literal, Opening(j))
    decreases 8 - i
  {
    j := i;
    if Contains(literal, Opening(i)) {
      if i < 7 {
        j := TagExistsIff(literal, i + 1);
      } else {
        assert TagFrom(literal, 8) == "";
      }
    } else {
      LongerAbsent(literal, i, 7);
    }
  }

  lemma {:induction false} LongerAbsent(literal: string, i: nat, j: nat)
    requires i <= j < 8 && !Contains(literal, Opening(i))
    ensures !Contains(literal, Opening(j))
  {
    if i < j {
      LongerAbsent(literal, i, j - 1);
      if Contains(literal, Opening(j)) {
        ShorterOccurs(literal, j - 1);
      }
    }
  }

  // ------------------------------------------------------------ the lexer

  /** First occurrence of `t` at or after `from`. */
  function Find(s: string, t: string, from: nat): (r: Option<nat>)
    ensures r.Some? ==> from <= r.value && OccursAt(s, t, r.value)
    decreases |s| - from
  {
    if from > |s| then None else if OccursAt(s, t, from) then Some(from) else Find(s, t, from + 1)
  }

  lemma {:induction false} FindIs(s: string, t: string, from: nat, k: nat)
    requires from <= k && OccursAt(s, t, k)
    requires forall i :: from <= i < k ==> !OccursAt(s, t, i)
    ensures Find(s, t, from) == Some(k)
    decreases k - from
  {
    if from < k {
      FindIs(s, t, from + 1, k);
    }
  }

  predicate IsTagStart(c: char) {
    'A' <= c <= 'Z' || 'a' <= c <= 'z' || c == '_' || c >= 128 as char
  }

  /** A tag is empty or an unquoted identifier without dollars. */
  predicate IsTag(t: string) {
    t != "" ==> IsTagStart(t[0]) && forall k :: 0 <= k < |t| ==> IsTagStart(t[k]) || '0' <= t[k] <= '9'
  }

  datatype Lexed = Lexed(body: string, rest: string)

  /** The body after an opening tag that ends with the dollar at `m`, and what follows the closing tag. */
  function LexBody(s: string, m: nat): Option<Lexed>
    requires 1 <= m < |s|
  {
    match Find(s, s[..m + 1], m + 1)
    case None => None
    case Some(k) => Some(Lexed(s[m + 1..k], s[k + m + 1..]))
  }

  /** A dollar-quoted constant at the start of `s`. */
  function Lex(s: string): Option<Lexed> {
    if s == "" || s[0] != '$' then None
    else
      match Find(s, "$", 1)
      case None => None
      case Some(m) => if IsTag(s[1..m]) then LexBody(s, m) else None
  }

  /** The characters of a tag between its dollars are no dollars. */
  lemma TagInside(i: nat, tag: string)
    requires i < 8 && tag == Opening(i) + "$"
    ensures |tag| == i + 2 && tag[0] == '$' && tag[i + 1] == '$' && IsTag(tag[1..i + 1])
    ensures forall k :: 0 < k <= i ==> tag[k] != '$'
  {
    assert tag[1..i + 1] == DELIMITER[..i];
    assert forall k :: 0 < k <= i ==> tag[k] == DELIMITER[k - 1];
  }

  /** The opening can neither occur in the literal nor begin there and run into the closing tag. */
  lemma ClosesAtTheEnd(literal: string, i: nat, tag: string, rest: string, s: string, k: nat)
    requires i < 8 && tag == Opening(i) + "$" && !Contains(literal, Opening(i))
    requires s == tag + literal + tag + rest && |tag| <= k < |tag| + |literal|
    ensures !OccursAt(s, tag, k)
  {
    TagInside(i, tag);
    var at := k - |tag|;
    if at + i + 1 <= |literal| {
      InsideLiteral(tag, literal, rest, s, at, i + 1);
      Cut(s, k, k + i + 1, k + |tag|);
      assert tag[..i + 1] == Opening(i);
      assert !OccursAt(literal, Opening(i), at);
    } else {
      Straddles(tag, literal, rest, s, at);
      assert tag[|literal| - at] != '$';
    }
  }

  lemma InsideLiteral<T>(tag: seq<T>, literal: seq<T>, rest: seq<T>, s: seq<T>, at: nat, n: nat)
    requires s == tag + literal + tag + rest && at + n <= |literal|
    ensures s[|tag| + at..|tag| + at + n] == literal[at..at + n]
  {
  }

  /** An occurrence of the tag that begins in the literal and reaches the closing tag has its dollar inside. */
  lemma Straddles(tag: string, literal: string, rest: string, s: string, at: nat)
    requires s == tag + literal + tag + rest && tag != "" && at < |literal| < at + |tag| && tag[0] == '$'
    ensures s[|tag| + at..|tag| + at + |tag|][|literal| - at] == '$'
  {
  }

  lemma LexFindsTag(i: nat, tag: string, more: string, s: string)
    requires i < 8 && tag == Opening(i) + "$" && s == tag + more
    ensures Find(s, "$", 1) == Some(i + 1) && s[..i + 2] == tag
  {
    TagInside(i, tag);
    assert forall k :: 0 <= k < |tag| ==> s[k] == tag[k];
    FindIs(s, "$", 1, i + 1);
  }

  lemma BodyRecovered(literal: string, tag: string, rest: string, s: string)
    requires s == tag + literal + tag + rest && |tag| >= 2
    requires forall n :: |tag| <= n < |tag| + |literal| ==> !OccursAt(s, tag, n)
    ensures LexBody(s, |tag| - 1) == Some(Lexed(literal, rest))
  {
    Parts(tag, literal, rest, s);
    FindIs(s, tag, |tag|, |tag| + |literal|);
  }

  lemma LexRecovers(literal: string, i: nat, tag: string, rest: string, s: string)
    requires i < 8 && tag == Opening(i) + "$" && !Contains(literal, Opening(i)) && s == tag + literal + tag + rest
    ensures Lex(s) == Some(Lexed(literal, rest))
  {
    Regroup(tag, literal, rest);
    LexFindsTag(i, tag, literal + tag + rest, s);
    TagInside(i, tag);
    forall n | |tag| <= n < |tag| + |literal| ensures !OccursAt(s, tag, n) {
      ClosesAtTheEnd(literal, i, tag, rest, s, n);
    }
    BodyRecovered(literal, tag, rest, s);
    assert s[1..i + 1] == s[..i + 2][1..i + 1];
  }

  lemma Regroup<T>(tag: seq<T>, body: seq<T>, rest: seq<T>)
    ensures tag + body + tag + rest == tag + (body + tag + rest)
  {
  }

  lemma Parts<T>(tag: seq<T>, body: seq<T>, rest: seq<T>, s: seq<T>)
    requires s == tag + body + tag + rest
    ensures |s| == |tag| + |body| + |tag| + |rest| && s[..|tag|] == tag && s[|tag|..|tag| + |body|] == body
    ensures s[|tag| + |body|..|tag| + |body| + |tag|] == tag && s[|tag| + |body| + |tag|..] == rest
  {
  }

  /** Whatever SQL follows, the lexer recovers the literal exactly when the longest opening is not in it. */
  lemma RoundTripIff(literal: string, rest: string)
    ensures Lex(Quoted(literal) + rest) == Some(Lexed(literal, rest)) <==> !Contains(literal, "$_XXXXXX")
  {
    var j := TagExistsIff(literal, 0);
    assert Opening(7) == "$_XXXXXX";
    var s := Quoted(literal) + rest;
    if TagFrom(literal, 0) != "" {
      LexRecovers(literal, j, TagFrom(literal, 0), rest, s);
    } else {
      assert Quoted(literal) == literal;
      LexedIsShorter(s);
    }
  }

  lemma LexedIsShorter(s: string)
    ensures Lex(s).Some? ==> |Lex(s).value.body| + |Lex(s).value.rest| < |s|
  {
  }

  /** A literal with the longest opening is not quoted at all. */
  lemma Unquotable(literal: string)
    requires Contains(literal, "$_XXXXXX")
    ensures Quoted(literal) == literal
  {
    var j := TagExistsIff(literal, 0);
    assert Opening(7) == "$_XXXXXX";
  }

  /** That opening itself is such a literal. */
  lemma UnquotableExample(literal: string, rest: string)
    requires literal == "$_XXXXXX"
    ensures Lex(Quoted(literal) + rest) != Some(Lexed(literal, rest))
  {
    assert OccursAt(literal, "$_XXXXXX", 0);
    RoundTripIff(literal, rest);
  }
}
