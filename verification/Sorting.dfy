/** What Go's `sort.SliceStable` and `sort.Strings` promise, for any strict weak order: the result is
    ordered, it is a permutation, and equivalent elements keep their order. */
module Sorting {

  ghost predicate StrictWeakOrder<T(!new)>(less: (T, T) -> bool) {
    && (forall x :: !less(x, x))
    && (forall x, y, z :: less(x, y) && less(y, z) ==> less(x, z))
    && (forall x, y, z :: less(x, z) ==> less(x, y) || less(y, z))
  }

  ghost predicate Sorted<T>(less: (T, T) -> bool, s: seq<T>) {
    forall i, j :: 0 <= i < j < |s| ==> !less(s[j], s[i])
  }

  function Insert<T>(less: (T, T) -> bool, x: T, s: seq<T>): (r: seq<T>)
    ensures multiset(r) == multiset{x} + multiset(s)
  {
    if s != [] && less(s[0], x) then
      var r := [s[0]] + Insert(less, x, s[1..]);
      assert s == [s[0]] + s[1..];
      r
    else
      [x] + s
  }

  function StableSort<T>(less: (T, T) -> bool, s: seq<T>): (r: seq<T>)
    ensures multiset(r) == multiset(s)
    ensures |r| == |s|
  {
    if s == [] then
      []
    else
      var r := Insert(less, s[0], StableSort(less, s[1..]));
      assert s == [s[0]] + s[1..];
      assert |multiset(r)| == |multiset(s)|;
      r
  }

  lemma {:induction false} InsertSorted<T(!new)>(less: (T, T) -> bool, x: T, s: seq<T>)
    requires StrictWeakOrder(less) && Sorted(less, s)
    ensures Sorted(less, Insert(less, x, s))
  {
    if s != [] && less(s[0], x) {
      InsertSorted(less, x, s[1..]);
      var rest := Insert(less, x, s[1..]);
      forall y | y in rest
        ensures !less(y, s[0])
      {
        assert y in multiset(rest);
        assert y == x || y in s[1..];
      }
    } else if s != [] {
      forall y | y in s
        ensures !less(y, x)
      {
        assert y == s[0] || !less(y, s[0]);
      }
    }
  }

  lemma {:induction false} StableSortSorted<T(!new)>(less: (T, T) -> bool, s: seq<T>)
    requires StrictWeakOrder(less)
    ensures Sorted(less, StableSort(less, s))
  {
    if s != [] {
      StableSortSorted(less, s[1..]);
      InsertSorted(less, s[0], StableSort(less, s[1..]));
    }
  }

  /** A sequence already in order is left alone. */
  lemma {:induction false} StableSortOfSorted<T(!new)>(less: (T, T) -> bool, s: seq<T>)
    requires Sorted(less, s)
    ensures StableSort(less, s) == s
  {
    if s != [] {
      assert Sorted(less, s[1..]);
      StableSortOfSorted(less, s[1..]);
      assert s[1..] != [] ==> !less(s[1], s[0]);
    }
  }

  /** When distinct elements are always strictly ordered, the order of the input does not matter. */
  lemma {:induction false} SortedUnique<T(!new)>(less: (T, T) -> bool, s: seq<T>, t: seq<T>)
    requires StrictWeakOrder(less)
    requires Sorted(less, s) && Sorted(less, t) && multiset(s) == multiset(t)
    requires forall x, y :: x in s && y in s && x != y ==> less(x, y) || less(y, x)
    ensures s == t
  {
    assert |multiset(s)| == |s| && |multiset(t)| == |t|;
    if s != [] {
      HeadsAgree(less, s, t);
      assert s == [s[0]] + s[1..] && t == [t[0]] + t[1..];
      assert multiset(s[1..]) == multiset(s) - multiset{s[0]};
      assert multiset(t[1..]) == multiset(t) - multiset{t[0]};
      SortedUnique(less, s[1..], t[1..]);
    }
  }

  lemma HeadsAgree<T(!new)>(less: (T, T) -> bool, s: seq<T>, t: seq<T>)
    requires Sorted(less, s) && Sorted(less, t) && multiset(s) == multiset(t)
    requires s != [] && t != []
    requires forall x, y :: x in s && y in s && x != y ==> less(x, y) || less(y, x)
    ensures s[0] == t[0]
  {
    assert s[0] in multiset(t) && t[0] in multiset(s);
    var i :| 0 <= i < |t| && t[i] == s[0];
    var j :| 0 <= j < |s| && s[j] == t[0];
    assert i == 0 || !less(t[i], t[0]);
    assert j == 0 || !less(s[j], s[0]);
  }

  function Filter<T(!new)>(keep: T -> bool, s: seq<T>): (r: seq<T>)
    ensures forall x :: x in r <==> x in s && keep(x)
    ensures |r| <= |s|
  {
    if s == [] then [] else (if keep(s[0]) then [s[0]] else []) + Filter(keep, s[1..])
  }

  /** The elements that `less` does not tell apart from x. */
  function Same<T>(less: (T, T) -> bool, x: T): T -> bool {
    y => !less(x, y) && !less(y, x)
  }

  /** Stability: the elements of any one equivalence class come out in the order they went in. */
  lemma {:induction false} StableSortStable<T(!new)>(less: (T, T) -> bool, s: seq<T>, x: T)
    requires StrictWeakOrder(less)
    ensures Filter(Same(less, x), StableSort(less, s)) == Filter(Same(less, x), s)
  {
    if s != [] {
      StableSortStable(less, s[1..], x);
      forall z | less(z, s[0])
        ensures !(Same(less, x)(z) && Same(less, x)(s[0]))
      {
        assert less(z, x) || less(x, s[0]);
      }
      InsertStable(less, Same(less, x), s[0], StableSort(less, s[1..]));
      FilterOnce(Same(less, x), s[0], s[1..]);
      assert s == [s[0]] + s[1..];
    }
  }

  /** Inserting y passes no element of a class that y belongs to. */
  lemma {:induction false} InsertStable<T(!new)>(less: (T, T) -> bool, keep: T -> bool, y: T, s: seq<T>)
    requires forall z :: less(z, y) ==> !(keep(z) && keep(y))
    ensures Filter(keep, Insert(less, y, s)) == (if keep(y) then [y] else []) + Filter(keep, s)
  {
    hide Filter;
    if s != [] && less(s[0], y) {
      InsertStable(less, keep, y, s[1..]);
      FilterOnce(keep, s[0], Insert(less, y, s[1..]));
      FilterOnce(keep, s[0], s[1..]);
      assert s == [s[0]] + s[1..];
    } else {
      FilterOnce(keep, y, s);
    }
  }

  lemma FilterOnce<T(!new)>(keep: T -> bool, x: T, s: seq<T>)
    ensures Filter(keep, [x] + s) == (if keep(x) then [x] else []) + Filter(keep, s)
  {
    assert ([x] + s)[1..] == s;
  }

  /** The last element of a sequence, found in a permutation of it. */
  lemma SplitPermutation<T>(v: seq<T>, w: seq<T>) returns (a: seq<T>, b: seq<T>)
    requires v != [] && multiset(v) == multiset(w)
    ensures w == a + [v[|v| - 1]] + b && multiset(a + b) == multiset(v[..|v| - 1])
  {
    var n := |v| - 1;
    assert v == v[..n] + [v[n]];
    assert v[n] in multiset(w);
    var j :| 0 <= j < |w| && w[j] == v[n];
    a, b := w[..j], w[j + 1..];
    assert w == a + [w[j]] + b;
    assert multiset(a + b) == multiset(w) - multiset{v[n]};
    assert multiset(v[..n]) == multiset(v) - multiset{v[n]};
  }

  function Reverse<T>(s: seq<T>): (r: seq<T>)
    ensures |r| == |s| && multiset(r) == multiset(s)
    ensures forall i :: 0 <= i < |s| ==> r[i] == s[|s| - 1 - i]
  {
    if s == [] then [] else
      assert s == [s[0]] + s[1..];
      Reverse(s[1..]) + [s[0]]
  }

  lemma {:induction false} OccursOnce<T>(s: seq<T>, x: T)
    requires forall i, j :: 0 <= i < j < |s| ==> s[i] != s[j]
    ensures multiset(s)[x] == if x in s then 1 else 0
  {
    if s != [] {
      var n := |s| - 1;
      OccursOnce(s[..n], x);
      assert s == s[..n] + [s[n]];
    }
  }

  lemma DistinctPermutation<T>(s: seq<T>, t: seq<T>)
    requires multiset(s) == multiset(t) && forall i, j :: 0 <= i < j < |s| ==> s[i] != s[j]
    ensures forall i, j :: 0 <= i < j < |t| ==> t[i] != t[j]
  {
    forall i, j | 0 <= i < j < |t|
      ensures t[i] != t[j]
    {
      OccursOnce(s, t[i]);
      assert t == t[..i] + [t[i]] + t[i + 1..j] + [t[j]] + t[j + 1..];
      assert multiset(t)[t[i]] == 1;
    }
  }
}
