/** Which filters a cursor is bound to. The signature is taken over the filters joined by NUL bytes, so it tells filters
    apart unless a NUL inside one of them can take over from a border between two; here is exactly when it can. */
module CursorSignatures {
  import opened Text
  import opened ResourceList
  import Names

  /** The filters of a request that passes every check. */
  predicate Accepted(f: Filters) { Trimmed(f) == f && FiltersAccepted(f) }

  /** The filters that hold any text; sort and direction hold one of a few words. */
  function Free(f: Filters): (r: seq<string>)
    ensures |r| == 5
  {
    [f.query, f.cluster, f.namespace, f.kind, f.status]
  }

  predicate Bare(s: string) { s == "" || (!IsSpace(s[0]) && !IsSpace(s[|s| - 1])) }
  predicate AllBare(parts: seq<string>) { forall k :: 0 <= k < |parts| ==> Bare(parts[k]) }

  function Limit(k: int): int { if k == 0 then 160 else 120 }
  predicate Fits(parts: seq<string>) { forall k :: 0 <= k < |parts| ==> |parts[k]| <= Limit(k) }

  lemma TrimmedIsBare(s: string)
    ensures TrimSpace(s) == s <==> Bare(s)
  {
    hide IsSpace, SpacesEnd, SpacesStart;
    if Bare(s) {
      NothingToTrim(s);
    }
    hide TrimLeft, TrimRight;
    if TrimSpace(s) == s {
      assert |TrimLeft(s)| == |s|;
      assert TrimLeft(s) == s;
    }
  }

  lemma NothingToTrim(s: string)
    requires Bare(s)
    ensures TrimLeft(s) == s && TrimRight(s) == s
  {
    hide IsSpace;
    assert SpacesEnd(s, 0) == 0;
    assert SpacesStart(s, |s|) == |s|;
  }

  predicate Words(f: Filters) {
    && (f.sort == "" || f.sort == "name" || f.sort == "kind" || f.sort == "namespace" || f.sort == "status" || f.sort == "cluster")
    && (f.direction == "asc" || f.direction == "desc")
  }

  lemma AcceptedIs(f: Filters)
    ensures Accepted(f) <==> AllBare(Free(f)) && Fits(Free(f)) && Words(f)
  {
    hide TrimSpace, Trimmed, FilterError, AllBare, Fits, Free, Words;
    NoError(f);
    if Words(f) {
      TrimmedIs(f);
    }
  }

  lemma NoError(f: Filters)
    ensures FilterError(f).None? <==> Fits(Free(f)) && Words(f)
  {
    var parts := Free(f);
    assert Fits(parts) <==> |parts[0]| <= 160 && |parts[1]| <= 120 && |parts[2]| <= 120 && |parts[3]| <= 120 && |parts[4]| <= 120 by {
      hide Free;
    }
    hide Fits;
  }

  lemma TrimmedIs(f: Filters)
    requires Words(f)
    ensures Trimmed(f) == f <==> AllBare(Free(f))
  {
    hide TrimSpace, Bare, Words, AllBare;
    TrimmedIsBare(f.query);
    TrimmedIsBare(f.cluster);
    TrimmedIsBare(f.namespace);
    TrimmedIsBare(f.kind);
    TrimmedIsBare(f.status);
    WordsAreTrimmed(f);
    FiveBare(Free(f));
  }

  lemma FiveBare(p: seq<string>)
    requires |p| == 5
    ensures AllBare(p) <==> Bare(p[0]) && Bare(p[1]) && Bare(p[2]) && Bare(p[3]) && Bare(p[4])
  {
    hide Bare;
  }

  lemma WordsAreTrimmed(f: Filters)
    requires Words(f)
    ensures TrimSpace(f.sort) == f.sort && TrimSpace(f.direction) == f.direction != ""
  {
    TrimmedIsBare(f.sort);
    TrimmedIsBare(f.direction);
    hide TrimSpace;
  }

  // ----- joined texts and their borders -----

  function Text5(p: seq<string>): string
    requires |p| == 5
  {
    p[0] + ['\0'] + p[1] + ['\0'] + p[2] + ['\0'] + p[3] + ['\0'] + p[4]
  }

  lemma SignedTextIs(f: Filters)
    ensures SignedText(f) == Text5(Free(f)) + ['\0'] + f.sort + ['\0'] + f.direction
  {
    hide Names.Join;
    var parts := Fields(f);
    JoinOnce(parts, '\0');
    JoinOnce(parts[1..], '\0');
    JoinOnce(parts[1..][1..], '\0');
    JoinOnce(parts[1..][1..][1..], '\0');
    JoinOnce(parts[1..][1..][1..][1..], '\0');
    JoinOnce(parts[1..][1..][1..][1..][1..], '\0');
    OnePart(parts[1..][1..][1..][1..][1..][1..], '\0');
  }

  /** Accepted filters are signed as the same text exactly if they agree on sort and direction and their free parts
      are joined to the same text. */
  lemma SignedAlike(f: Filters, g: Filters)
    requires Words(f) && Words(g)
    ensures SignedText(f) == SignedText(g) <==> Text5(Free(f)) == Text5(Free(g)) && f.sort == g.sort && f.direction == g.direction
  {
    SignedTextIs(f);
    SignedTextIs(g);
    hide Text5, SignedText, Free;
    WordsHoldNoNul(f);
    WordsHoldNoNul(g);
    if SignedText(f) == SignedText(g) {
      Names.SplitUniqueLast(Text5(Free(f)) + ['\0'] + f.sort, f.direction, Text5(Free(g)) + ['\0'] + g.sort, g.direction, '\0');
      Names.SplitUniqueLast(Text5(Free(f)), f.sort, Text5(Free(g)), g.sort, '\0');
    }
  }

  lemma WordsHoldNoNul(f: Filters)
    requires Words(f)
    ensures '\0' !in f.sort && '\0' !in f.direction
  {
  }

  /** The positions of the borders in the joined text, with one before it and one behind. */
  function Borders(p: seq<string>): (b: seq<int>)
    requires |p| == 5
    ensures |b| == 6 && b[0] == -1
    ensures forall k :: 0 <= k < 5 ==> b[k + 1] == b[k] + 1 + |p[k]|
  {
    var b1 := |p[0]|;
    var b2 := b1 + 1 + |p[1]|;
    var b3 := b2 + 1 + |p[2]|;
    var b4 := b3 + 1 + |p[3]|;
    [-1, b1, b2, b3, b4, b4 + 1 + |p[4]|]
  }

  lemma BordersAre(p: seq<string>)
    requires |p| == 5
    ensures var w, b := Text5(p), Borders(p);
            && |w| == b[5]
            && (forall k :: 1 <= k <= 4 ==> 0 <= b[k] < |w| && w[b[k]] == '\0')
            && (forall k :: 0 <= k < 5 ==> w[b[k] + 1..b[k + 1]] == p[k])
  {
    var w, b := Text5(p), Borders(p);
    assert w[b[0] + 1..b[1]] == p[0];
    assert w[b[1] + 1..b[2]] == p[1];
    assert w[b[2] + 1..b[3]] == p[2];
    assert w[b[3] + 1..b[4]] == p[3];
    assert w[b[4] + 1..b[5]] == p[4];
  }

  /** A NUL byte that can be a border: no white space stands next to it. */
  predicate Usable(s: string, x: int) {
    0 <= x < |s| && s[x] == '\0' && (x > 0 ==> !IsSpace(s[x - 1])) && (x + 1 < |s| ==> !IsSpace(s[x + 1]))
  }

  lemma BordersAreUsable(p: seq<string>, k: int)
    requires |p| == 5 && AllBare(p) && 1 <= k <= 4
    ensures Usable(Text5(p), Borders(p)[k])
  {
    hide Text5, Bare, Borders, Usable;
    BordersAre(p);
    assert Bare(p[k - 1]) && Bare(p[k]);
    var w, b := Text5(p), Borders(p);
    assert w[b[k - 1] + 1..b[k]] == p[k - 1] && w[b[k] + 1..b[k + 1]] == p[k];
    UsableBetween(w, b[k - 1], b[k], b[k + 1]);
  }

  lemma UsableBetween(w: string, x: int, y: int, z: int)
    requires -1 <= x < y < z <= |w| && (x >= 0 ==> w[x] == '\0') && w[y] == '\0' && (z < |w| ==> w[z] == '\0')
    requires Bare(w[x + 1..y]) && Bare(w[y + 1..z])
    ensures Usable(w, y)
  {
    NulIsNoSpace();
    BareBefore(w, x, y);
    BareBehind(w, y, z);
    hide IsSpace, Bare;
  }

  lemma BareBefore(w: string, x: int, y: int)
    requires -1 <= x < y <= |w| && Bare(w[x + 1..y])
    ensures x + 1 < y ==> !IsSpace(w[y - 1])
  {
    hide IsSpace;
    if x + 1 < y {
      assert w[x + 1..y][y - x - 2] == w[y - 1];
    }
  }

  lemma BareBehind(w: string, y: int, z: int)
    requires -1 <= y < z <= |w| && Bare(w[y + 1..z])
    ensures y + 1 < z ==> !IsSpace(w[y + 1])
  {
    hide IsSpace;
    if y + 1 < z {
      assert w[y + 1..z][0] == w[y + 1];
    }
  }

  lemma NulIsNoSpace()
    ensures !IsSpace('\0')
  {
  }

  // ----- moving a border -----

  /** A part cut at one of its positions. */
  function Divide(p: seq<string>, i: int, q: int): (r: seq<string>)
    requires 0 <= i < |p| && 0 <= q < |p[i]|
    ensures |r| == |p| + 1
  {
    p[..i] + [p[i][..q], p[i][q + 1..]] + p[i + 1..]
  }

  /** Two neighbours joined by a NUL byte. */
  function Merge(a: seq<string>, j: int): (r: seq<string>)
    requires 0 <= j < |a| - 1
    ensures |r| == |a| - 1
  {
    a[..j] + [a[j] + ['\0'] + a[j + 1]] + a[j + 2..]
  }

  /** The NUL at q in part i can take over from a border: the one between parts j and j + 1 of those that it divides
      the parts into. The limits enter here: what is joined then, and what moves to another place, has to fit. */
  predicate CanTakeOver(p: seq<string>, i: int, q: int, j: int)
    requires |p| == 5
  {
    0 <= i < 5 && Usable(p[i], q) && 0 <= j < 5 && j != i && Fits(Merge(Divide(p, i, q), j))
  }

  predicate Ambiguous(p: seq<string>)
    requires |p| == 5
  {
    exists i, q, j :: 0 <= i < 5 && 0 <= q < |p[i]| && 0 <= j < 5 && CanTakeOver(p, i, q, j)
  }

  function Text6(a: seq<string>): string
    requires |a| == 6
  {
    a[0] + ['\0'] + a[1] + ['\0'] + a[2] + ['\0'] + a[3] + ['\0'] + a[4] + ['\0'] + a[5]
  }

  lemma MergeKeepsText(a: seq<string>, j: int)
    requires |a| == 6 && 0 <= j < 5
    ensures Text5(Merge(a, j)) == Text6(a)
  {
    var m := Merge(a, j);
    if j == 0 {
      assert m == [a[0] + ['\0'] + a[1], a[2], a[3], a[4], a[5]];
    } else if j == 1 {
      assert m == [a[0], a[1] + ['\0'] + a[2], a[3], a[4], a[5]];
      MergedBehind(a[0] + ['\0'], a[1], a[2]);
    } else if j == 2 {
      assert m == [a[0], a[1], a[2] + ['\0'] + a[3], a[4], a[5]];
      MergedBehind(a[0] + ['\0'] + a[1] + ['\0'], a[2], a[3]);
    } else if j == 3 {
      assert m == [a[0], a[1], a[2], a[3] + ['\0'] + a[4], a[5]];
      MergedBehind(a[0] + ['\0'] + a[1] + ['\0'] + a[2] + ['\0'], a[3], a[4]);
    } else {
      assert m == [a[0], a[1], a[2], a[3], a[4] + ['\0'] + a[5]];
      MergedBehind(a[0] + ['\0'] + a[1] + ['\0'] + a[2] + ['\0'] + a[3] + ['\0'], a[4], a[5]);
    }
  }

  lemma MergedBehind(before: string, x: string, y: string)
    ensures before + (x + ['\0'] + y) == before + x + ['\0'] + y
  {
  }

  lemma MergeBack(p: seq<string>, i: int, q: int)
    requires |p| == 5 && 0 <= i < 5 && 0 <= q < |p[i]| && p[i][q] == '\0'
    ensures Merge(Divide(p, i, q), i) == p
  {
    assert p[i] == p[i][..q] + ['\0'] + p[i][q + 1..];
  }

  lemma DivideKeepsBare(p: seq<string>, i: int, q: int)
    requires |p| == 5 && AllBare(p) && 0 <= i < 5 && Usable(p[i], q)
    ensures AllBare(Divide(p, i, q))
  {
    hide IsSpace;
    assert Bare(p[i]);
    assert forall k :: 0 <= k < 5 ==> Bare(p[k]);
  }

  lemma MergeKeepsBare(a: seq<string>, j: int)
    requires |a| == 6 && AllBare(a) && 0 <= j < 5
    ensures AllBare(Merge(a, j))
  {
    NulIsNoSpace();
    hide IsSpace;
    var m := a[j] + ['\0'] + a[j + 1];
    assert Bare(a[j]) && Bare(a[j + 1]);
    assert m[0] == (if a[j] == "" then '\0' else a[j][0]);
    assert m[|m| - 1] == (if a[j + 1] == "" then '\0' else a[j + 1][|a[j + 1]| - 1]);
    assert Bare(m);
    hide Bare;
  }

  lemma MergesDiffer(a: seq<string>, i: int, j: int)
    requires |a| == 6 && 0 <= i < 5 && 0 <= j < 5 && i != j
    ensures Merge(a, i) != Merge(a, j)
  {
    var k := if i < j then i else j;
    assert Merge(a, k)[k] == a[k] + ['\0'] + a[k + 1];
    assert |Merge(a, i)[k]| != |Merge(a, j)[k]|;
  }

  /** Parts of which a NUL can take over have others of the same text. */
  lemma TakenOver(p: seq<string>, i: int, q: int, j: int)
    requires |p| == 5 && AllBare(p) && CanTakeOver(p, i, q, j)
    ensures var m := Merge(Divide(p, i, q), j);
            m != p && AllBare(m) && Fits(m) && Text5(m) == Text5(p)
  {
    hide Text5, Text6, Merge, Divide, Bare, Fits;
    var a := Divide(p, i, q);
    MergeBack(p, i, q);
    MergeKeepsText(a, i);
    MergeKeepsText(a, j);
    DivideKeepsBare(p, i, q);
    MergeKeepsBare(a, j);
    MergesDiffer(a, i, j);
  }

  // ----- any other parts of the same text show such a move -----

  /** Borders as positions, from before the text to behind it, with parts that fit. */
  predicate Grid(x: seq<int>, n: int) {
    && |x| == 6 && x[0] == -1 && x[5] == n
    && (forall a, b :: 0 <= a < b <= 5 ==> x[a] < x[b])
    && (forall k :: 0 <= k < 5 ==> x[k + 1] - x[k] - 1 <= Limit(k))
  }

  lemma BordersAreGrid(p: seq<string>)
    requires |p| == 5 && Fits(p)
    ensures Grid(Borders(p), |Text5(p)|)
  {
    BordersAre(p);
    hide Text5, Borders;
    var b := Borders(p);
    assert b[0] < b[1] < b[2] < b[3] < b[4] < b[5];
  }

  lemma Ordered(x: seq<int>, n: int, a: int, b: int)
    requires Grid(x, n) && 0 <= a < 6 && 0 <= b < 6
    ensures x[a] < x[b] <==> a < b
  {
  }

  /** Borders that are all borders of x lie no further left than in x, each at its place. */
  lemma {:induction false} NotBehind(x: seq<int>, y: seq<int>, n: int, t: int)
    requires Grid(x, n) && Grid(y, n) && 0 <= t <= 4 && forall s :: 1 <= s <= t ==> y[s] in x
    ensures y[t] >= x[t]
  {
    if t > 0 {
      NotBehind(x, y, n, t - 1);
      var r :| 0 <= r < 6 && x[r] == y[t];
      assert y[t - 1] < y[t];
      Ordered(x, n, t - 1, r);
      Ordered(x, n, r, t);
    }
  }

  lemma {:induction false} NotAhead(x: seq<int>, y: seq<int>, n: int, t: int)
    requires Grid(x, n) && Grid(y, n) && 1 <= t <= 5 && forall s :: t <= s <= 4 ==> y[s] in x
    ensures y[t] <= x[t]
    decreases 5 - t
  {
    if t < 5 {
      NotAhead(x, y, n, t + 1);
      var r :| 0 <= r < 6 && x[r] == y[t];
      assert y[t] < y[t + 1];
      Ordered(x, n, r, t + 1);
      Ordered(x, n, t, r);
    }
  }

  /** Where a position that is none of the borders lies. */
  lemma Between(x: seq<int>, n: int, q: int) returns (i: int)
    requires Grid(x, n) && -1 < q < n && q !in x
    ensures 0 <= i < 5 && x[i] < q < x[i + 1]
  {
    i := 0;
    while x[i + 1] < q
      invariant 0 <= i < 5 && x[i] < q
      decreases 5 - i
    {
      assert i + 1 < 5;
      i := i + 1;
    }
    assert x[i + 1] in x;
  }

  /** If some border of y lies left of its place in x, the last such shows which border of x can go, and a border of y
      to its left what takes over. */
  lemma TakesOverFromRight(x: seq<int>, y: seq<int>, n: int, l: int) returns (i: int, q: int)
    requires Grid(x, n) && Grid(y, n) && |x| == |y| == 6 && 1 <= l <= 4 && y[l] < x[l] && y[l + 1] >= x[l + 1]
    ensures 0 <= i < l && x[i] < q < x[i + 1] && q in y[1..5]
    ensures x[l + 1] - (if i == l - 1 then q else x[l - 1]) - 1 <= 120
    ensures i < l - 1 ==> x[i + 1] - q - 1 <= 120
  {
    hide Grid;
    var t := LastOutside(x, y, n, l);
    q := y[t];
    Inside(y, n, t);
    i := Between(x, n, q);
    assert q in y[1..5] by { assert y[1..5][t - 1] == q; }
    Ordered(y, n, t, l);
    Ordered(x, n, i, l);
    Ordered(x, n, i + 1, l - 1);
    Ordered(x, n, l - 1, i + 1);
    Ordered(x, n, i + 1, l + 1);
    Gap(y, n, l);
    Gap(y, n, t);
    if t < l {
      Ordered(y, n, t, t + 1);
      InBetween(x, n, i, q, y[t + 1]);
      NextBelow(x, n, l, y[l]);
    }
  }

  lemma LastOutside(x: seq<int>, y: seq<int>, n: int, l: int) returns (t: int)
    requires Grid(x, n) && Grid(y, n) && 1 <= l <= 4 && y[l] < x[l]
    ensures 1 <= t <= l && y[t] !in x && forall s :: t < s <= l ==> y[s] in x
  {
    t := l;
    while y[t] in x
      invariant 1 <= t <= l && forall s :: t < s <= l ==> y[s] in x
      decreases t
    {
      if t == 1 {
        NotBehind(x, y, n, l);
        assert false;
      }
      t := t - 1;
    }
  }

  lemma Inside(x: seq<int>, n: int, k: int)
    requires Grid(x, n) && 1 <= k <= 4
    ensures -1 < x[k] < n
  {
  }

  lemma Gap(x: seq<int>, n: int, k: int)
    requires Grid(x, n) && 0 <= k < 5
    ensures x[k + 1] - x[k] - 1 <= Limit(k)
  {
  }

  /** A border beyond a position between two borders is at least the second. */
  lemma InBetween(x: seq<int>, n: int, i: int, q: int, z: int)
    requires Grid(x, n) && 0 <= i < 5 && x[i] < q < z && z in x
    ensures z >= x[i + 1]
  {
    var r :| 0 <= r < 6 && x[r] == z;
    Ordered(x, n, i, r);
    Ordered(x, n, r, i + 1);
  }

  lemma NextBelow(x: seq<int>, n: int, l: int, z: int)
    requires Grid(x, n) && 1 <= l <= 5 && z < x[l] && z in x
    ensures z <= x[l - 1]
  {
    var r :| 0 <= r < 6 && x[r] == z;
    Ordered(x, n, r, l);
    Ordered(x, n, l - 1, r);
  }

  /** If the first border of y at another place lies right of it, that border of x can go, and a border of y to its
      right takes over. */
  lemma TakesOverFromLeft(x: seq<int>, y: seq<int>, n: int, k: int) returns (i: int, q: int)
    requires Grid(x, n) && Grid(y, n) && |x| == |y| == 6 && 1 <= k <= 4 && y[k] > x[k] && y[k - 1] == x[k - 1]
    ensures k <= i < 5 && x[i] < q < x[i + 1] && q in y[1..5]
    ensures (if i == k then q else x[k + 1]) - x[k - 1] - 1 <= Limit(k - 1)
  {
    hide Grid;
    var t := FirstOutside(x, y, n, k);
    q := y[t];
    Inside(y, n, t);
    i := Between(x, n, q);
    assert q in y[1..5] by { assert y[1..5][t - 1] == q; }
    Ordered(y, n, k, t);
    Ordered(x, n, k, i + 1);
    Ordered(x, n, i, k + 1);
    Gap(y, n, k - 1);
    if t > k {
      NextAbove(x, n, k, y[k]);
    }
  }

  lemma FirstOutside(x: seq<int>, y: seq<int>, n: int, k: int) returns (t: int)
    requires Grid(x, n) && Grid(y, n) && 1 <= k <= 4 && y[k] > x[k]
    ensures k <= t <= 4 && y[t] !in x && forall s :: k <= s < t ==> y[s] in x
  {
    t := k;
    while y[t] in x
      invariant k <= t <= 4 && forall s :: k <= s < t ==> y[s] in x
      decreases 5 - t
    {
      if t == 4 {
        NotAhead(x, y, n, k);
        assert false;
      }
      t := t + 1;
    }
  }

  lemma NextAbove(x: seq<int>, n: int, k: int, z: int)
    requires Grid(x, n) && 0 <= k < 5 && z > x[k] && z in x
    ensures z >= x[k + 1]
  {
    var r :| 0 <= r < 6 && x[r] == z;
    Ordered(x, n, k, r);
    Ordered(x, n, r, k + 1);
  }

  // ----- the moves in terms of parts -----

  lemma FitsToTheRight(p: seq<string>, i: int, q: int, j: int)
    requires |p| == 5 && Fits(p) && 0 <= i < j < 5 && 0 <= q < |p[i]|
    requires (if j == i + 1 then |p[i]| - q - 1 else |p[j - 1]|) + 1 + |p[j]| <= 120
    requires i + 1 < j ==> |p[i]| - q - 1 <= 120
    ensures Fits(Merge(Divide(p, i, q), j))
  {
    var a := Divide(p, i, q);
    var m := Merge(a, j);
    forall k | 0 <= k < 5
      ensures |m[k]| <= Limit(k)
    {
      if k == j {
        assert |m[k]| == |a[j]| + 1 + |a[j + 1]|;
      }
    }
  }

  lemma FitsToTheLeft(p: seq<string>, i: int, q: int, j: int)
    requires |p| == 5 && Fits(p) && 0 <= j < i < 5 && 0 <= q < |p[i]|
    requires |p[j]| + 1 + (if j + 1 == i then q else |p[j + 1]|) <= Limit(j)
    ensures Fits(Merge(Divide(p, i, q), j))
  {
    var a := Divide(p, i, q);
    var m := Merge(a, j);
    forall k | 0 <= k < 5
      ensures |m[k]| <= Limit(k)
    {
      if k == j {
        assert |m[k]| == |a[j]| + 1 + |a[j + 1]|;
      }
    }
  }

  /** A usable position of the text, as one of the part it lies in. */
  lemma UsableInPart(p: seq<string>, i: int, x: int)
    requires |p| == 5 && 0 <= i < 5 && Borders(p)[i] < x < Borders(p)[i + 1] && Usable(Text5(p), x)
    ensures Usable(p[i], x - Borders(p)[i] - 1)
  {
    hide Text5, Borders, Usable;
    BordersAre(p);
    var w, b := Text5(p), Borders(p);
    assert w[b[i] + 1..b[i + 1]] == p[i];
    BordersInOrder(p, i);
    UsableInSlice(w, b[i] + 1, b[i + 1], x);
  }

  lemma BordersInOrder(p: seq<string>, i: int)
    requires |p| == 5 && 0 <= i < 5
    ensures 0 <= Borders(p)[i] + 1 <= Borders(p)[i + 1] <= |Text5(p)|
  {
    BordersAre(p);
    hide Text5, Borders;
    var b := Borders(p);
    assert b[0] < b[1] < b[2] < b[3] < b[4] < b[5];
  }

  lemma UsableInSlice(w: string, lo: int, hi: int, x: int)
    requires 0 <= lo <= x < hi <= |w| && Usable(w, x)
    ensures Usable(w[lo..hi], x - lo)
  {
    hide IsSpace;
    var s, q := w[lo..hi], x - lo;
    assert s[q] == w[x];
    assert q > 0 ==> s[q - 1] == w[x - 1];
    assert q + 1 < |s| ==> s[q + 1] == w[x + 1];
  }

  lemma SameBorders(p: seq<string>, g: seq<string>)
    requires |p| == |g| == 5 && Text5(p) == Text5(g) && forall k :: 1 <= k <= 4 ==> Borders(p)[k] == Borders(g)[k]
    ensures p == g
  {
    hide Text5, Borders;
    BordersAre(p);
    BordersAre(g);
    var w, b := Text5(p), Borders(p);
    assert forall k :: 0 <= k < 6 ==> b[k] == Borders(g)[k];
    forall k | 0 <= k < 5
      ensures p[k] == g[k]
    {
      assert w[b[k] + 1..b[k + 1]] == p[k];
      assert w[Borders(g)[k] + 1..Borders(g)[k + 1]] == g[k];
    }
  }

  /** The last border of y that lies left of its place in x, or 0. */
  function LastLeft(x: seq<int>, y: seq<int>): (l: int)
    requires |x| == |y| == 6
    ensures 0 <= l <= 4 && (l > 0 ==> y[l] < x[l]) && forall m :: l < m <= 4 ==> y[m] >= x[m]
  {
    if y[4] < x[4] then 4 else if y[3] < x[3] then 3 else if y[2] < x[2] then 2 else if y[1] < x[1] then 1 else 0
  }

  /** The first that lies right of it, or 5. */
  function FirstRight(x: seq<int>, y: seq<int>): (k: int)
    requires |x| == |y| == 6
    ensures 1 <= k <= 5 && (k < 5 ==> y[k] > x[k]) && forall m :: 1 <= m < k ==> y[m] <= x[m]
  {
    if y[1] > x[1] then 1 else if y[2] > x[2] then 2 else if y[3] > x[3] then 3 else if y[4] > x[4] then 4 else 5
  }

  lemma AnotherBorder(g: seq<string>, q: int)
    requires |g| == 5 && AllBare(g) && q in Borders(g)[1..5]
    ensures Usable(Text5(g), q)
  {
    hide Text5, Borders, Usable, AllBare;
    var t :| 0 <= t < 4 && Borders(g)[1..5][t] == q;
    BordersAreUsable(g, t + 1);
  }

  lemma MovedFromRight(p: seq<string>, g: seq<string>, l: int)
    requires |p| == |g| == 5 && AllBare(g) && Fits(p) && Fits(g) && Text5(p) == Text5(g)
    requires 1 <= l <= 4 && Borders(g)[l] < Borders(p)[l] && Borders(g)[l + 1] >= Borders(p)[l + 1]
    ensures Ambiguous(p)
  {
    hide Text5, Borders, AllBare, Fits, Usable, Divide, Merge, Grid;
    var n, x, y := |Text5(p)|, Borders(p), Borders(g);
    BordersAreGrid(p);
    BordersAreGrid(g);
    var i, q := TakesOverFromRight(x, y, n, l);
    AnotherBorder(g, q);
    UsableInPart(p, i, q);
    FitsToTheRight(p, i, q - x[i] - 1, l);
    assert CanTakeOver(p, i, q - x[i] - 1, l);
  }

  lemma MovedFromLeft(p: seq<string>, g: seq<string>, k: int)
    requires |p| == |g| == 5 && AllBare(g) && Fits(p) && Fits(g) && Text5(p) == Text5(g)
    requires 1 <= k <= 4 && Borders(g)[k] > Borders(p)[k] && Borders(g)[k - 1] == Borders(p)[k - 1]
    ensures Ambiguous(p)
  {
    hide Text5, Borders, AllBare, Fits, Usable, Divide, Merge, Grid;
    var n, x, y := |Text5(p)|, Borders(p), Borders(g);
    BordersAreGrid(p);
    BordersAreGrid(g);
    var i, q := TakesOverFromLeft(x, y, n, k);
    AnotherBorder(g, q);
    UsableInPart(p, i, q);
    FitsToTheLeft(p, i, q - x[i] - 1, k - 1);
    assert CanTakeOver(p, i, q - x[i] - 1, k - 1);
  }

  /** If any other parts that are trimmed and fit have the same text, then one NUL alone can take over. */
  lemma OtherPartsShowAMove(p: seq<string>, g: seq<string>)
    requires |p| == |g| == 5 && AllBare(g) && Fits(p) && Fits(g) && Text5(p) == Text5(g) && p != g
    ensures Ambiguous(p)
  {
    hide Text5, Borders, AllBare, Fits, Ambiguous, LastLeft, FirstRight;
    var x, y := Borders(p), Borders(g);
    BordersAre(p);
    BordersAre(g);
    var l, k := LastLeft(x, y), FirstRight(x, y);
    if l > 0 {
      MovedFromRight(p, g, l);
    } else if k < 5 {
      MovedFromLeft(p, g, k);
    } else {
      SameBorders(p, g);
    }
  }

  // ----- what a signature tells apart -----

  function WithFree(f: Filters, p: seq<string>): Filters
    requires |p| == 5
  {
    Filters(p[0], p[1], p[2], p[3], p[4], f.sort, f.direction)
  }

  /** The signed text of the filters of an accepted request is that of no others, unless a NUL byte inside one of the
      first five, with no white space beside it, can take over from one of the four borders between them without
      breaking a length limit. */
  lemma SignedTextIsExact(f: Filters)
    requires Accepted(f)
    ensures (forall g :: Accepted(g) && SignedText(g) == SignedText(f) ==> g == f) <==> !Ambiguous(Free(f))
  {
    hide Text5, AllBare, Fits, Words, SignedText, Accepted, Merge, Divide, Usable;
    AcceptedIs(f);
    var p := Free(f);
    if i, q, j :| 0 <= i < 5 && 0 <= q < |p[i]| && 0 <= j < 5 && CanTakeOver(p, i, q, j) {
      var m := Merge(Divide(p, i, q), j);
      TakenOver(p, i, q, j);
      var g := WithFree(f, m);
      assert Free(g) == m;
      AcceptedIs(g);
      SameWords(f, g);
      SignedAlike(f, g);
    }
    hide CanTakeOver, Ambiguous;
    forall g | Accepted(g) && SignedText(g) == SignedText(f) && g != f
      ensures Ambiguous(p)
    {
      AcceptedIs(g);
      SignedAlike(f, g);
      OtherPartsShowAMove(p, Free(g));
    }
  }

  /** Where no limit is near, every NUL byte without white space beside it can take over, and no other can. */
  lemma FarFromTheLimits(p: seq<string>)
    requires |p| == 5 && |Text5(p)| <= 120
    ensures Ambiguous(p) <==> exists i, q :: 0 <= i < 5 && 0 <= q < |p[i]| && Usable(p[i], q)
  {
    hide Usable;
    if i, q :| 0 <= i < 5 && 0 <= q < |p[i]| && Usable(p[i], q) {
      var j := if i == 0 then 1 else 0;
      var m := Merge(Divide(p, i, q), j);
      NulAt(p[i], q);
      MergeBack(p, i, q);
      MergeKeepsText(Divide(p, i, q), i);
      MergeKeepsText(Divide(p, i, q), j);
      ShortPartsFit(m);
      assert CanTakeOver(p, i, q, j);
    }
  }

  lemma NulAt(s: string, x: int)
    requires Usable(s, x)
    ensures s[x] == '\0'
  {
  }

  lemma ShortPartsFit(p: seq<string>)
    requires |p| == 5 && |Text5(p)| <= 120
    ensures Fits(p)
  {
    assert |Text5(p)| == |p[0]| + |p[1]| + |p[2]| + |p[3]| + |p[4]| + 4;
    hide Text5;
  }

  /** Where all five are as long as they may be, none can: such filters share their text with no others, whatever NUL
      bytes they hold. */
  lemma AtTheLimits(p: seq<string>)
    requires |p| == 5 && forall k :: 0 <= k < 5 ==> |p[k]| == Limit(k)
    ensures !Ambiguous(p)
  {
    hide Usable;
    forall i, q, j | 0 <= i < 5 && 0 <= q < |p[i]| && 0 <= j < 5 && j != i
      ensures !Fits(Merge(Divide(p, i, q), j))
    {
      var a := Divide(p, i, q);
      assert Merge(a, j)[j] == a[j] + ['\0'] + a[j + 1];
      if j < i {
        assert a[j] == p[j];
      } else {
        assert a[j + 1] == p[j];
      }
    }
  }

  lemma SameWords(f: Filters, g: Filters)
    requires g.sort == f.sort && g.direction == f.direction
    ensures Words(g) <==> Words(f)
  {
  }
}
