/** Lists merged from several sources, each item tagged with the source it came from. */
module Interleaving {
  /** Source `from` contributed `item`. */
  datatype Tagged<+T> = Tagged(from: nat, item: T)

  function Items<T>(t: seq<Tagged<T>>): seq<T> {
    seq(|t|, i requires 0 <= i < |t| => t[i].item)
  }

  /** What source `i` contributed, in order. */
  function From<T>(i: nat, t: seq<Tagged<T>>): seq<T> {
    if t == [] then []
    else From(i, t[..|t| - 1]) + if t[|t| - 1].from == i then [t[|t| - 1].item] else []
  }

  function Tag<T>(i: nat, items: seq<T>): (t: seq<Tagged<T>>)
    ensures Items(t) == items
  {
    seq(|items|, k requires 0 <= k < |items| => Tagged(i, items[k]))
  }

  lemma {:induction false} FromConcat<T>(i: nat, s: seq<Tagged<T>>, t: seq<Tagged<T>>)
    ensures From(i, s + t) == From(i, s) + From(i, t)
  {
    if t == [] {
      assert s + t == s;
    } else {
      assert (s + t)[..|s + t| - 1] == s + t[..|t| - 1];
      FromConcat(i, s, t[..|t| - 1]);
    }
  }

  lemma {:induction false} FromTag<T>(i: nat, j: nat, items: seq<T>)
    ensures From(j, Tag(i, items)) == if i == j then items else []
  {
    if items != [] {
      var n := |items| - 1;
      assert Tag(i, items)[..n] == Tag(i, items[..n]);
      FromTag(i, j, items[..n]);
    }
  }

  // ------------------------------------------------------------ nothing lost, nothing repeated

  /** How often `r` occurs in all the lists together. */
  function Occurrences<T(==)>(lists: seq<seq<T>>, r: T): nat {
    if lists == [] then 0
    else Occurrences(lists[..|lists| - 1], r) + multiset(lists[|lists| - 1])[r]
  }

  function FromLists<T>(n: nat, t: seq<Tagged<T>>): seq<seq<T>> {
    seq(n, i requires 0 <= i < n => From(i, t))
  }

  lemma FromOneMore<T>(i: nat, s: seq<Tagged<T>>, x: Tagged<T>, r: T)
    ensures multiset(From(i, s + [x]))[r] == multiset(From(i, s))[r] + if x.from == i && x.item == r then 1 else 0
  {
    assert (s + [x])[..|s|] == s;
    var own := if x.from == i then [x.item] else [];
    assert From(i, s + [x]) == From(i, s) + own;
  }

  /** The same for what the first `n` sources contributed. */
  function Contributed<T(==)>(n: nat, t: seq<Tagged<T>>, r: T): nat {
    if n == 0 then 0 else Contributed(n - 1, t, r) + multiset(From(n - 1, t))[r]
  }

  lemma {:induction false} ContributedIs<T>(n: nat, t: seq<Tagged<T>>, r: T)
    ensures Occurrences(FromLists(n, t), r) == Contributed(n, t, r)
  {
    if n > 0 {
      ContributedIs(n - 1, t, r);
      assert FromLists(n, t)[..n - 1] == FromLists(n - 1, t);
    }
  }

  lemma {:induction false} ContributedOneMore<T>(n: nat, s: seq<Tagged<T>>, x: Tagged<T>, r: T)
    ensures Contributed(n, s + [x], r) == Contributed(n, s, r) + if x.from < n && x.item == r then 1 else 0
  {
    if n > 0 {
      ContributedOneMore(n - 1, s, x, r);
      FromOneMore(n - 1, s, x, r);
    }
  }

  lemma {:induction false} ContributedNothing<T>(n: nat, r: T)
    ensures Contributed(n, [], r) == 0
  {
    if n > 0 {
      ContributedNothing(n - 1, r);
    }
  }

  lemma ItemsOneMore<T>(s: seq<Tagged<T>>, x: Tagged<T>, r: T)
    ensures multiset(Items(s + [x]))[r] == multiset(Items(s))[r] + if x.item == r then 1 else 0
  {
    assert Items(s + [x]) == Items(s) + [x.item];
  }

  lemma {:induction false} ContributedIsAll<T>(n: nat, t: seq<Tagged<T>>, r: T)
    requires forall k :: 0 <= k < |t| ==> t[k].from < n
    ensures Contributed(n, t, r) == multiset(Items(t))[r]
  {
    if t == [] {
      ContributedNothing(n, r);
    } else {
      var s, x := t[..|t| - 1], t[|t| - 1];
      assert t == s + [x];
      ContributedIsAll(n, s, r);
      ContributedOneMore(n, s, x, r);
      ItemsOneMore(s, x, r);
    }
  }

  /** If all sources are below `n`, every item is contributed by one of them. */
  lemma OccurrencesAreAll<T>(n: nat, t: seq<Tagged<T>>, r: T)
    requires forall k :: 0 <= k < |t| ==> t[k].from < n
    ensures Occurrences(FromLists(n, t), r) == multiset(Items(t))[r]
  {
    ContributedIs(n, t, r);
    ContributedIsAll(n, t, r);
  }
}
