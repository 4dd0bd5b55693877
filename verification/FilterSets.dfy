/** Include and exclude filters on names (utils/set.go). */
module FilterSets {
  datatype FilterSet = FilterSet(items: set<string>, isExclude: bool, alwaysMatches: bool)

  predicate Matches(s: FilterSet, item: string) {
    s.alwaysMatches || (if s.isExclude then item !in s.items else item in s.items)
  }

  /** What a pair of lists lets through: an include list, when given, hides the exclude list. */
  predicate Passes(included: seq<string>, excluded: seq<string>, item: string) {
    if included != [] then item in included else item !in excluded
  }

  /** `s` filters like the two lists. */
  ghost predicate FiltersLike(s: FilterSet, included: seq<string>, excluded: seq<string>) {
    && (s.isExclude <==> included == [])
    && forall item :: Matches(s, item) <==> Passes(included, excluded, item)
  }

  method NewSet(list: seq<string>) returns (s: FilterSet)
    ensures !s.isExclude && !s.alwaysMatches
    ensures forall item :: Matches(s, item) <==> item in list
  {
    var items: set<string> := {};
    for i := 0 to |list|
      invariant forall item :: item in items <==> item in list[..i]
    {
      items := items + {list[i]};
    }
    s := FilterSet(items, false, false);
  }

  /** The choice constructFilterSets makes for one pair of lists. */
  method NewChoice(included: seq<string>, excluded: seq<string>) returns (s: FilterSet)
    ensures FiltersLike(s, included, excluded)
  {
    if |included| > 0 {
      s := NewSet(included);
      s := s.(alwaysMatches := |included| == 0);
    } else {
      var t := NewSet(excluded);
      s := t.(alwaysMatches := |excluded| == 0, isExclude := true);
      assert forall item :: Matches(t, item) <==> item in t.items;
    }
  }
}
