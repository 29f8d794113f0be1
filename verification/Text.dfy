/** Byte strings as the Go code sees them: a `string` here holds one `char` per byte.
    Collects the separator and ordering facts on which the string keys of the server rest. */
module Text {

  datatype Option<+T> = None | Some(value: T)

  /** A separator absent from two heads splits two equal joins at the same place. */
  lemma SplitUnique(a: string, b: string, a': string, b': string, sep: char)
    requires sep !in a && sep !in a'
    requires a + [sep] + b == a' + [sep] + b'
    ensures a == a' && b == b'
  {
    var s, s' := a + [sep] + b, a' + [sep] + b';
    assert s[|a|] == sep && s'[|a'|] == sep;
    assert forall k :: 0 <= k < |a| ==> s[k] == a[k] != sep;
    assert forall k :: 0 <= k < |a'| ==> s'[k] == a'[k] != sep;
    assert s[|a|] == sep && s'[|a'|] == sep;
    assert a == s[..|a|] == s'[..|a'|] == a';
    assert b == s[|a| + 1..] == s'[|a'| + 1..] == b';
  }

  /** Go's `<` on strings: byte-wise lexicographic order. */
  predicate Less(a: string, b: string) {
    b != "" && (a == "" || a[0] < b[0] || (a[0] == b[0] && Less(a[1..], b[1..])))
  }

  lemma {:induction false} LessTransitive(a: string, b: string, c: string)
    requires Less(a, b) && Less(b, c)
    ensures Less(a, c)
  {
    if a != "" && a[0] == b[0] == c[0] {
      LessTransitive(a[1..], b[1..], c[1..]);
    }
  }

  lemma {:induction false} LessTotal(a: string, b: string)
    ensures !(Less(a, b) && Less(b, a))
    ensures Less(a, b) || a == b || Less(b, a)
    ensures a == b ==> !Less(a, b)
  {
    if a != "" && b != "" && a[0] == b[0] {
      LessTotal(a[1..], b[1..]);
      assert a == [a[0]] + a[1..] && b == [b[0]] + b[1..];
    }
  }

  /** The bytes that `strings.TrimSpace` removes from an ASCII string. */
  predicate IsSpace(c: char) {
    c == ' ' || '\t' <= c <= '\r'
  }

  /** Where the spaces from i on end, and where the spaces before i start. */
  function SpacesEnd(s: string, i: nat): (j: nat)
    requires i <= |s|
    ensures i <= j <= |s| && (j < |s| ==> !IsSpace(s[j]))
    ensures forall k :: i <= k < j ==> IsSpace(s[k])
    decreases |s| - i
  {
    if i < |s| && IsSpace(s[i]) then SpacesEnd(s, i + 1) else i
  }

  function SpacesStart(s: string, i: nat): (j: nat)
    requires i <= |s|
    ensures j <= i && (j > 0 ==> !IsSpace(s[j - 1]))
    ensures forall k :: j <= k < i ==> IsSpace(s[k])
  {
    if i > 0 && IsSpace(s[i - 1]) then SpacesStart(s, i - 1) else i
  }

  function TrimLeft(s: string): (r: string)
    ensures |r| <= |s| && r == s[|s| - |r|..]
    ensures r != "" ==> !IsSpace(r[0])
    ensures forall k :: 0 <= k < |s| - |r| ==> IsSpace(s[k])
  {
    s[SpacesEnd(s, 0)..]
  }

  function TrimRight(s: string): (r: string)
    ensures |r| <= |s| && r == s[..|r|]
    ensures r != "" ==> !IsSpace(r[|r| - 1])
    ensures forall k :: |r| <= k < |s| ==> IsSpace(s[k])
  {
    s[..SpacesStart(s, |s|)]
  }

  function TrimSpace(s: string): string {
    TrimRight(TrimLeft(s))
  }

  lemma TrimSpaceIdempotent(s: string)
    ensures TrimSpace(TrimSpace(s)) == TrimSpace(s)
    ensures |TrimSpace(s)| <= |s|
    ensures forall c :: c in TrimSpace(s) ==> c in s
  {
    var t := TrimSpace(s);
    if t != "" {
      assert t[0] == TrimLeft(s)[0];
      assert TrimLeft(t) == t;
    }
  }

  /** The lexicographic step: by these strings, and where they agree by what follows. */
  predicate LessThen(a: string, b: string, then_: bool) { Less(a, b) || (a == b && then_) }

  lemma LessFacts(a: string, b: string, c: string)
    ensures !Less(a, a) && !(Less(a, b) && Less(b, a)) && (Less(a, b) || a == b || Less(b, a))
    ensures Less(a, b) && Less(b, c) ==> Less(a, c)
  {
    LessTotal(a, b);
    LessTotal(a, a);
    if Less(a, b) && Less(b, c) {
      LessTransitive(a, b, c);
    }
  }

  lemma Associate<T>(a: seq<T>, b: seq<T>, c: seq<T>)
    ensures (a + b) + c == a + (b + c)
  {
  }
}
