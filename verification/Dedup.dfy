/** Deduplication by a seen-set, as most loops of the server do it: keep an element if it has a key and no
    earlier element had that key. */
module Dedup {
  import opened Text

  predicate IsFirst<T, K(==)>(key: T -> Option<K>, s: seq<T>, i: nat)
    requires i < |s|
  {
    key(s[i]).Some? && forall j :: 0 <= j < i ==> key(s[j]) != key(s[i])
  }

  /** The first element of each key, in order. */
  function Firsts<T, K(==)>(key: T -> Option<K>, s: seq<T>): (r: seq<T>)
    ensures |r| <= |s|
  {
    if s == [] then []
    else
      var n := |s| - 1;
      Firsts(key, s[..n]) + if IsFirst(key, s, n) then [s[n]] else []
  }

  /** What a loop's seen-set holds after s. */
  predicate Seen<T, K(==)>(key: T -> Option<K>, s: seq<T>, k: K) {
    exists j :: 0 <= j < |s| && key(s[j]) == Some(k)
  }

  /** The body of such a loop: an element is kept exactly if its key is not in the seen-set. */
  lemma FirstIsUnseen<T, K>(key: T -> Option<K>, s: seq<T>)
    requires s != [] && key(s[|s| - 1]).Some?
    ensures IsFirst(key, s, |s| - 1) <==> !Seen(key, s[..|s| - 1], key(s[|s| - 1]).value)
  {
    var n := |s| - 1;
    assert forall j :: 0 <= j < n ==> s[..n][j] == s[j];
  }

  lemma SeenStep<T, K(!new)>(key: T -> Option<K>, s: seq<T>)
    requires s != []
    ensures forall k :: Seen(key, s, k) <==> Seen(key, s[..|s| - 1], k) || key(s[|s| - 1]) == Some(k)
  {
    var n := |s| - 1;
    forall k
      ensures Seen(key, s, k) <==> Seen(key, s[..n], k) || key(s[n]) == Some(k)
    {
      if Seen(key, s[..n], k) {
        var j :| 0 <= j < n && key(s[..n][j]) == Some(k);
        assert s[j] == s[..n][j];
      }
      if Seen(key, s, k) && key(s[n]) != Some(k) {
        var j :| 0 <= j < |s| && key(s[j]) == Some(k);
        assert s[..n][j] == s[j];
      }
    }
  }

  /** The kept elements have exactly the keys that occur, each once, and are elements of the input. */
  lemma {:induction false} FirstsKeys<T(!new), K(!new)>(key: T -> Option<K>, s: seq<T>)
    ensures forall x :: x in Firsts(key, s) ==> x in s && key(x).Some?
    ensures forall k :: Seen(key, s, k) <==> Seen(key, Firsts(key, s), k)
    ensures forall i, j :: 0 <= i < j < |Firsts(key, s)| ==> key(Firsts(key, s)[i]) != key(Firsts(key, s)[j])
  {
    if s != [] {
      var n := |s| - 1;
      FirstsKeys(key, s[..n]);
      FirstsStepKeys(key, s);
    }
  }

  lemma FirstsStepKeys<T(!new), K(!new)>(key: T -> Option<K>, s: seq<T>)
    requires s != []
    requires var r := Firsts(key, s[..|s| - 1]);
             && (forall x :: x in r ==> x in s[..|s| - 1] && key(x).Some?)
             && (forall k :: Seen(key, s[..|s| - 1], k) <==> Seen(key, r, k))
             && (forall i, j :: 0 <= i < j < |r| ==> key(r[i]) != key(r[j]))
    ensures forall x :: x in Firsts(key, s) ==> x in s && key(x).Some?
    ensures forall k :: Seen(key, s, k) <==> Seen(key, Firsts(key, s), k)
    ensures forall i, j :: 0 <= i < j < |Firsts(key, s)| ==> key(Firsts(key, s)[i]) != key(Firsts(key, s)[j])
  {
    var n := |s| - 1;
    var r := Firsts(key, s[..n]);
    var r' := Firsts(key, s);
    SeenStep(key, s);
    if IsFirst(key, s, n) {
      FirstIsUnseen(key, s);
      assert r' == r + [s[n]] && r'[..|r|] == r;
      SeenStep(key, r');
      assert !Seen(key, r, key(s[n]).value);
    } else {
      assert r' == r;
      if key(s[n]).Some? {
        FirstIsUnseen(key, s);
      }
    }
  }

  lemma {:induction false} FirstsPrefix<T, K>(key: T -> Option<K>, s: seq<T>, i: nat)
    requires i <= |s|
    ensures Firsts(key, s[..i]) <= Firsts(key, s)
    decreases |s| - i
  {
    if i == |s| {
      assert s[..i] == s;
    } else {
      FirstsPrefix(key, s, i + 1);
      assert s[..i + 1][..i] == s[..i];
    }
  }

  lemma EmptySeen<T, K(!new)>(key: T -> Option<K>)
    ensures Firsts(key, []) == []
    ensures forall k :: !Seen(key, [], k)
  {
    hide IsFirst;
  }

  /** x occurs in s as the first element with its key. */
  ghost predicate IsFirstOf<T(!new), K>(key: T -> Option<K>, s: seq<T>, x: T) {
    exists i :: 0 <= i < |s| && s[i] == x && IsFirst(key, s, i)
  }

  lemma {:induction false} FirstIsKept<T(!new), K>(key: T -> Option<K>, s: seq<T>, x: T)
    requires IsFirstOf(key, s, x)
    ensures x in Firsts(key, s)
  {
    var n := |s| - 1;
    var i :| 0 <= i < |s| && s[i] == x && IsFirst(key, s, i);
    if i < n {
      assert s[..n][i] == x && IsFirst(key, s[..n], i);
      FirstIsKept(key, s[..n], x);
    }
  }

  /** The first n elements, or all. */
  function Take<T>(s: seq<T>, n: nat): seq<T> { if |s| > n then s[..n] else s }
}
