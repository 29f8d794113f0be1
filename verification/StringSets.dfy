/** Sets of strings listed in byte order, as `sort.Strings` leaves the keys of a map. */
module StringSets {
  import opened Text
  import opened Sorting

  predicate Ascending(s: seq<string>) { forall i, j :: 0 <= i < j < |s| ==> Less(s[i], s[j]) }

  /** The elements of a set once each, in byte order. */
  ghost predicate IsSortedSet(s: seq<string>, values: set<string>) {
    Ascending(s) && forall v :: v in s <==> v in values
  }

  method SortedStringSet(values: set<string>) returns (items: seq<string>)
    ensures IsSortedSet(items, values)
  {
    items := [];
    var rest := values;
    while rest != {}
      invariant rest <= values
      invariant forall v :: v in items <==> v in values - rest
      invariant forall v :: v in items ==> multiset(items)[v] == 1
      decreases |rest|
    {
      var v :| v in rest;
      assert v !in items;
      assert v !in multiset(items);
      assert multiset(items + [v]) == multiset(items) + multiset{v};
      items := items + [v];
      rest := rest - {v};
    }
    SortedStringsAre(items);
    items := SortedStrings(items);
  }

  function SortedStrings(items: seq<string>): seq<string> {
    StableSort((a: string, b: string) => Less(a, b), items)
  }

  lemma StringOrder()
    ensures StrictWeakOrder((a: string, b: string) => Less(a, b))
  {
    hide Less;
    var less := (a: string, b: string) => Less(a, b);
    forall x
      ensures !less(x, x)
    {
      LessTotal(x, x);
    }
    forall x, y, z | less(x, y) && less(y, z)
      ensures less(x, z)
    {
      LessTransitive(x, y, z);
    }
    forall x, y, z | less(x, z)
      ensures less(x, y) || less(y, z)
    {
      LessTotal(x, y);
      if Less(y, x) {
        LessTransitive(y, x, z);
      }
    }
  }

  lemma SortedStringsAre(items: seq<string>)
    requires forall v :: v in items ==> multiset(items)[v] == 1
    ensures IsSortedSet(SortedStrings(items), set v | v in items)
  {
    hide Less, StrictWeakOrder, StableSort;
    var s := SortedStrings(items);
    StringOrder();
    StableSortSorted((a: string, b: string) => Less(a, b), items);
    assert multiset(s) == multiset(items);
    assert forall v :: v in s <==> v in multiset(s);
    assert forall v :: v in items <==> v in multiset(items);
    forall i, j | 0 <= i < j < |s|
      ensures Less(s[i], s[j])
    {
      LessTotal(s[i], s[j]);
      Different(s, i, j);
    }
  }

  lemma Different(s: seq<string>, i: nat, j: nat)
    requires i < j < |s| && multiset(s)[s[i]] == 1
    ensures s[i] != s[j]
  {
    assert s == s[..j] + s[j..] && s[..j][i] == s[i] && s[j..][0] == s[j];
    assert multiset(s) == multiset(s[..j]) + multiset(s[j..]);
    assert s[i] in multiset(s[..j]) && s[j] in multiset(s[j..]);
  }
}
