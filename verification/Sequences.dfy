/** Lists: their members, concatenation and slices. */
module Sequences {
  function Members<T>(s: seq<T>): set<T> {
    set x | x in s
  }

  predicate NoRepeats<T(==)>(s: seq<T>) {
    forall i, j :: 0 <= i < j < |s| ==> s[i] != s[j]
  }

  /** 0, 1, ... up to `n`, without it. */
  function UpTo(n: nat): (r: seq<nat>)
    ensures |r| == n && forall i :: 0 <= i < n ==> r[i] == i
  {
    seq(n, i => i)
  }

  /** The lists one after another. */
  function Flat<T>(parts: seq<seq<T>>): seq<T> {
    if parts == [] then [] else Flat(parts[..|parts| - 1]) + parts[|parts| - 1]
  }

  lemma {:induction false} MembersSize<T>(s: seq<T>)
    ensures |Members(s)| <= |s| && (|Members(s)| == |s| <==> NoRepeats(s))
  {
    if s != [] {
      var n := |s| - 1;
      var rest, x := s[..n], s[n];
      MembersSize(rest);
      assert s == rest + [x];
      assert Members(s) == Members(rest) + {x};
      NoRepeatsLast(rest, x);
    }
  }

  lemma NoRepeatsLast<T>(s: seq<T>, x: T)
    ensures NoRepeats(s + [x]) <==> NoRepeats(s) && x !in s
  {
    var t := s + [x];
    assert t[|s|] == x;
    assert forall i :: 0 <= i < |s| ==> t[i] == s[i];
  }

  lemma Associate<T>(a: seq<T>, b: seq<T>, c: seq<T>)
    ensures a + (b + c) == (a + b) + c
  {
  }

  /** The slice from `a` to `c` is made of two, and can be cut into them. */
  lemma Glue<T>(x: seq<T>, a: nat, b: nat, c: nat)
    requires a <= b <= c <= |x|
    ensures x[a..b] + x[b..c] == x[a..c]
  {
  }

  lemma OneMore<T>(x: seq<T>, i: nat)
    requires i < |x|
    ensures x[..i] + [x[i]] == x[..i + 1]
  {
  }

  lemma Extend<T>(x: seq<T>, a: nat, b: nat)
    requires a <= b <= |x|
    ensures x[..a] + x[a..b] == x[..b]
  {
  }

  lemma Cut<T>(x: seq<T>, a: nat, b: nat, c: nat)
    requires a <= b <= c <= |x|
    ensures x[a..c][..b - a] == x[a..b] && x[a..c][b - a..] == x[b..c]
  {
  }

  /** Equal slices of two lists are cut into equal parts. */
  lemma CutBoth<T>(x: seq<T>, a: nat, c: nat, y: seq<T>, p: nat, n: nat)
    requires a + n <= c <= |x| && p + (c - a) <= |y| && x[a..c] == y[p..p + (c - a)]
    ensures x[a..a + n] == y[p..p + n] && x[a + n..c] == y[p + n..p + (c - a)]
  {
    Cut(x, a, a + n, c);
    Cut(y, p, p + n, p + (c - a));
  }

  /** A slice of what follows `a`. */
  lemma Within<T>(x: seq<T>, a: nat, b: nat, c: nat)
    requires b <= c && a + c <= |x|
    ensures x[a..][b..c] == x[a + b..a + c]
  {
  }

  lemma Prefix<T>(x: seq<T>, a: nat, c: nat)
    requires a <= c <= |x|
    ensures x[a..][..c - a] == x[a..c]
  {
  }
}
