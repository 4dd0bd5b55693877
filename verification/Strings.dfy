/** The string functions of the Go library that names and numbers travel through. */
module Strings {
  type int64 = x: int | -0x8000_0000_0000_0000 <= x < 0x8000_0000_0000_0000

  /** The name of an object with that of its schema. */
  function Qualify(schema: string, name: string): string {
    schema + "." + name
  }

  /** strings.Split with a one-character separator. */
  function Split(s: string, c: char): (parts: seq<string>)
    ensures |parts| > 0
  {
    if c !in s then [s]
    else
      var i := Index(s, c);
      [s[..i]] + Split(s[i + 1..], c)
  }

  /** Position of the first `c`. */
  function Index(s: string, c: char): (i: nat)
    requires c in s
    ensures i < |s| && s[i] == c && c !in s[..i]
  {
    if s[0] == c then 0 else
      var i := Index(s[1..], c);
      assert s[..i + 1] == [s[0]] + s[1..][..i];
      i + 1
  }

  /** strings.Join with a one-character separator. */
  function Join(parts: seq<string>, c: char): string {
    if |parts| == 0 then ""
    else if |parts| == 1 then parts[0]
    else parts[0] + [c] + Join(parts[1..], c)
  }

  /** Splitting at the first separator. */
  lemma SplitHead(a: string, b: string, c: char)
    requires c !in a
    ensures Split(a + [c] + b, c) == [a] + Split(b, c)
  {
    var s := a + [c] + b;
    assert s[|a|] == c;
    var i := Index(s, c);
    assert forall k :: 0 <= k < |a| ==> s[k] == a[k];
    assert s[..i] == a && s[i + 1..] == b;
  }

  /** Parts without separators survive joining and splitting. */
  lemma {:induction false} SplitJoin(parts: seq<string>, c: char)
    requires |parts| > 0 && forall k :: 0 <= k < |parts| ==> c !in parts[k]
    ensures Split(Join(parts, c), c) == parts
  {
    if |parts| > 1 {
      SplitJoin(parts[1..], c);
      SplitHead(parts[0], Join(parts[1..], c), c);
    }
  }

  /** The first part has no separator, so it can only be a name that has none either. */
  lemma FirstPart(s: string, c: char)
    ensures c !in Split(s, c)[0]
  {
  }

  // ------------------------------------------------------------ decimal numbers

  function Digit(d: nat): char
    requires d < 10
  {
    "0123456789"[d]
  }

  predicate IsDigit(c: char) { '0' <= c <= '9' }

  function DigitValue(c: char): nat
    requires IsDigit(c)
  {
    c as int - '0' as int
  }

  function Digits(n: nat): string {
    if n < 10 then [Digit(n)] else Digits(n / 10) + [Digit(n % 10)]
  }

  /** strconv.FormatInt in base 10. */
  function FormatInt(n: int): string {
    if n < 0 then "-" + Digits(-n) else Digits(n)
  }

  predicate AllDigits(s: string) {
    forall k :: 0 <= k < |s| ==> IsDigit(s[k])
  }

  function Value(s: string): nat
    requires AllDigits(s)
  {
    if s == "" then 0 else 10 * Value(s[..|s| - 1]) + DigitValue(s[|s| - 1])
  }

  /** strconv.ParseInt in base 10 with its error ignored: 0 for bad syntax, clamped when out of range. */
  function ParseInt(s: string): int64 {
    var signed := s != "" && (s[0] == '-' || s[0] == '+');
    var negative := signed && s[0] == '-';
    var body := if signed then s[1..] else s;
    if body == "" || !AllDigits(body) then 0
    else
      var v: int := Value(body);
      if negative then (if v > 0x8000_0000_0000_0000 then -0x8000_0000_0000_0000 else -v)
      else if v >= 0x8000_0000_0000_0000 then 0x7fff_ffff_ffff_ffff
      else v
  }

  lemma DigitRoundTrip(d: nat)
    requires d < 10
    ensures IsDigit(Digit(d)) && DigitValue(Digit(d)) == d
  {
  }

  lemma {:induction false} DigitsRoundTrip(n: nat)
    ensures AllDigits(Digits(n)) && |Digits(n)| > 0 && Value(Digits(n)) == n
  {
    DigitRoundTrip(n % 10);
    if n >= 10 {
      DigitsRoundTrip(n / 10);
      assert Digits(n)[..|Digits(n)| - 1] == Digits(n / 10);
    } else {
      assert [Digit(n)][..0] == "";
    }
  }

  /** Every 64-bit number survives formatting and parsing; others become the nearest one. */
  lemma ParseClamps(n: int)
    ensures ParseInt(FormatInt(n)) ==
      if n < -9223372036854775808 then -9223372036854775808
      else if n > 9223372036854775807 then 9223372036854775807
      else n
  {
    var a: nat := if n < 0 then -n else n;
    DigitsRoundTrip(a);
    assert IsDigit(Digits(a)[0]);
    assert n < 0 ==> FormatInt(n)[1..] == Digits(a);
  }

  lemma FormatParse(n: int64)
    ensures ParseInt(FormatInt(n)) == n
  {
    ParseClamps(n);
  }

  /** A plus sign is allowed. */
  lemma ParsePlus(digits: string, s: string)
    requires digits != "" && AllDigits(digits) && s == "+" + digits
    ensures ParseInt(s) == ParseInt(digits)
  {
    assert IsDigit(digits[0]) && s[1..] == digits;
  }

  /** A text with no digits, or with something else than digits after the sign, counts as 0. */
  lemma ParseBad(s: string)
    requires s in ["", "-", "+"] || exists k :: 0 <= k < |s| && !IsDigit(s[k]) && (k > 0 || s[0] !in "+-")
    ensures ParseInt(s) == 0
  {
    if k :| 0 <= k < |s| && !IsDigit(s[k]) && (k > 0 || s[0] !in "+-") {
      assert k > 0 ==> s[1..][k - 1] == s[k];
    }
  }

  /** The text of a number holds no separator. */
  lemma FormatIsClean(n: int, c: char)
    requires !IsDigit(c) && c != '-'
    ensures c !in FormatInt(n)
  {
    DigitsRoundTrip(if n < 0 then -n else n);
  }
}
