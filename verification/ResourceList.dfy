/** The resource table of the HTTP API: filtering, ordering, paging by cursor, and facets. */
module ResourceList {
  import opened Text
  import opened Sorting
  import opened StringSets
  import Decimal
  import Base64
  import Names

  datatype Resource = Resource(
    id: string, name: string, kind: string, namespace: string, clusterId: string, status: string,
    labels: map<string, string>, summary: map<string, string>)

  /** The part of a query that a cursor is bound to. */
  datatype Filters = Filters(
    query: string, cluster: string, namespace: string, kind: string, status: string, sort: string, direction: string)
  datatype Query = Query(filters: Filters, limit: nat, offset: nat)

  /** The parameters as they stand in the URL. */
  datatype Request = Request(filters: Filters, limit: string, cursor: string)

  datatype QueryError =
    | FilterTooLong | InvalidSort | InvalidDirection | CursorRequiresLimit | InvalidLimit
    | CursorTooLong | InvalidCursor | CursorMismatch
  datatype Result<T> = Ok(value: T) | Error(error: QueryError)

  const MaxPageSize := 200
  const MaxCursorLength := 32

  // ----- parsing -----

  function Trimmed(f: Filters): Filters {
    var direction := TrimSpace(f.direction);
    Filters(TrimSpace(f.query), TrimSpace(f.cluster), TrimSpace(f.namespace), TrimSpace(f.kind), TrimSpace(f.status),
            TrimSpace(f.sort), if direction == "" then "asc" else direction)
  }

  function FilterError(f: Filters): Option<QueryError> {
    if |f.query| > 160 || |f.cluster| > 120 || |f.namespace| > 120 || |f.kind| > 120 || |f.status| > 120 then Some(FilterTooLong)
    else if f.sort != "" && f.sort != "name" && f.sort != "kind" && f.sort != "namespace" && f.sort != "status" && f.sort != "cluster" then Some(InvalidSort)
    else if f.direction != "asc" && f.direction != "desc" then Some(InvalidDirection)
    else None
  }

  /** What the signature of a cursor is taken over. */
  function SignedText(f: Filters): string {
    Names.Join(Fields(f), '\0')
  }

  /** Six bytes of a digest in hexadecimal. */
  predicate IsSignature(s: string) {
    |s| == 12 && forall k :: 0 <= k < |s| ==> '0' <= s[k] <= '9' || 'a' <= s[k] <= 'f'
  }

  ghost predicate Digests(digest: string -> string) { forall s :: IsSignature(digest(s)) }

  function SignatureOf(f: Filters, digest: string -> string): (s: string)
    requires Digests(digest)
    ensures IsSignature(s)
  {
    hide SignedText, IsSignature;
    digest(SignedText(f))
  }

  function CursorText(offset: nat, signature: string): string {
    Decimal.Itoa(offset) + "." + signature
  }

  function Cursor(offset: nat, signature: string): string
    requires IsSignature(signature)
  {
    CursorIsBytes(offset, signature);
    Base64.Encode(CursorText(offset, signature))
  }

  lemma CursorIsBytes(offset: nat, signature: string)
    requires IsSignature(signature)
    ensures Base64.IsBytes(CursorText(offset, signature))
  {
    var digits := Decimal.Itoa(offset);
    assert forall k :: 0 <= k < |digits| ==> Decimal.IsDigit(digits[k]);
  }

  function ParseCursor(cursor: string, signature: string): Result<nat> {
    if |cursor| > MaxCursorLength then Error(CursorTooLong)
    else
      var decoded := Base64.Decode(cursor);
      if decoded.None? then Error(InvalidCursor)
      else
        var parts := Names.Split(decoded.value, '.');
        if |parts| != 2 || parts[1] != signature then Error(CursorMismatch)
        else
          var offset := Decimal.Atoi(parts[0]);
          if offset.None? || offset.value < 0 then Error(InvalidCursor) else Ok(offset.value)
  }

  function ParseQuery(request: Request, digest: string -> string): Result<Query> {
    var f := Trimmed(request.filters);
    var error := FilterError(f);
    var limitText, cursor := TrimSpace(request.limit), TrimSpace(request.cursor);
    if error.Some? then Error(error.value)
    else if limitText == "" then
      if request.cursor != "" then Error(CursorRequiresLimit) else Ok(Query(f, 0, 0))
    else
      var limit := Decimal.Atoi(limitText);
      if limit.None? || limit.value < 1 || limit.value > MaxPageSize then Error(InvalidLimit)
      else if cursor == "" then Ok(Query(f, limit.value, 0))
      else
        var offset := ParseCursor(cursor, digest(SignedText(f)));
        if offset.Error? then Error(offset.error) else Ok(Query(f, limit.value, offset.value))
  }

  // ----- the cursor round trip -----

  lemma {:induction false} TrimNothing(s: string)
    requires forall k :: 0 <= k < |s| ==> !IsSpace(s[k])
    ensures TrimSpace(s) == s
  {
  }

  /** An emitted cursor fits the length check exactly if its offset is below ten to the eleven. */
  lemma CursorFits(offset: nat, signature: string)
    requires IsSignature(signature)
    ensures |Cursor(offset, signature)| <= MaxCursorLength <==> offset < 100_000_000_000
    ensures Cursor(offset, signature) != ""
  {
    CursorIsBytes(offset, signature);
    Decimal.ItoaLength(offset, 11);
    TenToTheEleven();
  }

  lemma TenToTheEleven()
    ensures Decimal.Pow10(11) == 100_000_000_000
  {
    assert Decimal.Pow10(4) == 10_000;
    assert Decimal.Pow10(8) == 100_000_000;
  }

  /** A cursor read back with the filters it was made for gives its offset, with others a mismatch. */
  lemma ParseCursorOf(offset: nat, signature: string, expected: string)
    requires IsSignature(signature)
    ensures ParseCursor(Cursor(offset, signature), expected)
         == if offset >= 100_000_000_000 then Error(CursorTooLong)
            else if signature != expected then Error(CursorMismatch)
            else Ok(offset)
    ensures var c := Cursor(offset, signature); c != "" && TrimSpace(c) == c
  {
    hide Names.Split, Names.Join, Base64.Decode, Base64.Encode, Base64.IsBytes, Decimal.Atoi, Decimal.Itoa, CursorText, TrimSpace, IsSpace;
    CursorFits(offset, signature);
    CursorIsBytes(offset, signature);
    var text, c := CursorText(offset, signature), Cursor(offset, signature);
    Base64.DecodeEncode(text);
    TrimNothing(c);
    SplitCursorText(offset, signature);
    if offset < 100_000_000_000 {
      Decimal.AtoiItoa(offset);
    }
  }

  lemma SplitCursorText(offset: nat, signature: string)
    requires IsSignature(signature)
    ensures Names.Split(CursorText(offset, signature), '.') == [Decimal.Itoa(offset), signature]
  {
    var digits := Decimal.Itoa(offset);
    var parts := [digits, signature];
    assert forall k :: 0 <= k < |digits| ==> Decimal.IsDigit(digits[k]);
    assert Names.Join(parts, '.') == CursorText(offset, signature) by {
      assert parts[1..] == [signature];
      assert Names.Join(parts[1..], '.') == signature;
      assert digits + ['.'] + signature == CursorText(offset, signature);
    }
    Names.SplitIsTheOnlySplit(parts, '.');
  }

  function Fields(f: Filters): (r: seq<string>)
    ensures |r| == 7
  {
    [f.query, f.cluster, f.namespace, f.kind, f.status, f.sort, f.direction]
  }

  lemma JoinOnce(parts: seq<string>, sep: char)
    requires |parts| > 1
    ensures Names.Join(parts, sep) == parts[0] + [sep] + Names.Join(parts[1..], sep)
    ensures sep in Names.Join(parts, sep)
  {
    assert Names.Join(parts, sep)[|parts[0]|] == sep;
  }

  lemma OnePart(parts: seq<string>, sep: char)
    requires |parts| == 1
    ensures Names.Join(parts, sep) == parts[0]
  {
  }

  /** Moving the border between two neighbours that hold a separator leaves the joined text. */
  lemma {:induction false} MovedBorder(parts: seq<string>, i: nat, x: string, y: string, sep: char)
    requires i + 1 < |parts| && parts[i] + [sep] + parts[i + 1] == x + [sep] + y
    ensures Names.Join(parts[i := x][i + 1 := y], sep) == Names.Join(parts, sep)
  {
    hide Names.Join;
    var moved := parts[i := x][i + 1 := y];
    JoinOnce(parts, sep);
    JoinOnce(moved, sep);
    if i > 0 {
      assert moved[1..] == parts[1..][i - 1 := x][i := y];
      MovedBorder(parts[1..], i - 1, x, y, sep);
    } else if |parts| == 2 {
      OnePart(parts[1..], sep);
      OnePart(moved[1..], sep);
    } else {
      JoinOnce(parts[1..], sep);
      JoinOnce(moved[1..], sep);
      assert moved[1..][1..] == parts[1..][1..];
      var tail := [sep] + Names.Join(parts[2..], sep);
      assert parts[1..][1..] == parts[2..];
      assert parts[0] + [sep] + (parts[1] + [sep] + Names.Join(parts[2..], sep)) == (parts[0] + [sep] + parts[1]) + tail;
      assert x + [sep] + (y + [sep] + Names.Join(parts[2..], sep)) == (x + [sep] + y) + tail;
    }
  }

  // ----- filtering and ordering -----

  predicate Contains(s: string, t: string) {
    exists i: nat :: i + |t| <= |s| && OccursAt(s, t, i)
  }

  predicate OccursAt(s: string, t: string, i: nat)
    requires i + |t| <= |s|
  {
    s[i..i + |t|] == t
  }

  predicate Selects(filter: string, value: string) { filter == "" || filter == "all" || value == filter }

  /** `lower` is `strings.ToLower`. */
  predicate Matches(r: Resource, f: Filters, lower: string -> string) {
    && Selects(f.cluster, r.clusterId)
    && (Selects(f.namespace, r.namespace) || (r.kind == "Namespace" && r.name == f.namespace))
    && Selects(f.kind, r.kind)
    && Selects(f.status, r.status)
    && MatchesText(r, lower(TrimSpace(f.query)), lower)
  }

  predicate MatchesText(r: Resource, text: string, lower: string -> string) {
    || text == ""
    || Contains(lower(r.name), text) || Contains(lower(r.kind), text) || Contains(lower(r.namespace), text)
    || Contains(lower(r.clusterId), text) || Contains(lower(r.status), text)
    || (exists key :: key in r.labels && Contains(lower(key + " " + r.labels[key]), text))
    || (exists key :: key in r.summary && Contains(lower(key + " " + r.summary[key]), text))
  }

  function Keep(f: Filters, lower: string -> string): Resource -> bool {
    (r: Resource) => Matches(r, f, lower)
  }

  function SortValue(r: Resource, field: string): string {
    if field == "name" then r.name
    else if field == "namespace" then r.namespace
    else if field == "status" then r.status
    else if field == "cluster" then r.clusterId
    else r.kind
  }

  /** The comparison handed to `sort.SliceStable`. */
  predicate Before(a: Resource, b: Resource, f: Filters, lower: string -> string) {
    var left, right := lower(SortValue(a, f.sort)), lower(SortValue(b, f.sort));
    var (l, r) := if left == right then (a.id, b.id) else (left, right);
    if f.direction == "desc" then Less(r, l) else Less(l, r)
  }

  function Order(f: Filters, lower: string -> string): (Resource, Resource) -> bool {
    (a: Resource, b: Resource) => Before(a, b, f, lower)
  }

  lemma BeforeTransitive(a: Resource, b: Resource, c: Resource, f: Filters, lower: string -> string)
    requires Before(a, b, f, lower) && Before(b, c, f, lower)
    ensures Before(a, c, f, lower)
  {
    hide Less;
    var x, y, z := lower(SortValue(a, f.sort)), lower(SortValue(b, f.sort)), lower(SortValue(c, f.sort));
    var desc := f.direction == "desc";
    LessTotal(x, y);
    LessTotal(y, z);
    LessTotal(x, z);
    if x == y && y == z {
      if desc { LessTransitive(c.id, b.id, a.id); } else { LessTransitive(a.id, b.id, c.id); }
    } else if x != y && y != z {
      if desc { LessTransitive(z, y, x); } else { LessTransitive(x, y, z); }
    }
  }

  lemma BeforeTotal(a: Resource, b: Resource, f: Filters, lower: string -> string)
    ensures !(Before(a, b, f, lower) && Before(b, a, f, lower))
    ensures Before(a, b, f, lower) || Before(b, a, f, lower) ||
            (a.id == b.id && lower(SortValue(a, f.sort)) == lower(SortValue(b, f.sort)))
    ensures a.id == b.id && lower(SortValue(a, f.sort)) == lower(SortValue(b, f.sort)) ==> !Before(a, b, f, lower)
  {
    hide Less;
    LessTotal(lower(SortValue(a, f.sort)), lower(SortValue(b, f.sort)));
    LessTotal(a.id, b.id);
  }

  lemma OrderIsWeak(f: Filters, lower: string -> string)
    ensures StrictWeakOrder(Order(f, lower))
  {
    hide Before;
    var less := Order(f, lower);
    forall x
      ensures !less(x, x)
    {
      BeforeTotal(x, x, f, lower);
    }
    forall x, y, z | less(x, y) && less(y, z)
      ensures less(x, z)
    {
      BeforeTransitive(x, y, z, f, lower);
    }
    forall x, y, z | less(x, z)
      ensures less(x, y) || less(y, z)
    {
      OrderSplits(x, y, z, f, lower);
    }
  }

  lemma OrderSplits(x: Resource, y: Resource, z: Resource, f: Filters, lower: string -> string)
    requires Before(x, z, f, lower)
    ensures Before(x, y, f, lower) || Before(y, z, f, lower)
  {
    if !Before(x, y, f, lower) {
      BeforeTotal(x, y, f, lower);
      if Before(y, x, f, lower) {
        BeforeTransitive(y, x, z, f, lower);
      } else {
        hide Less;
        assert Before(y, z, f, lower);
      }
    }
  }

  /** The whole list that pages are cut from. */
  function FullList(resources: seq<Resource>, f: Filters, lower: string -> string): seq<Resource> {
    var filtered := Filter(Keep(f, lower), resources);
    if f.sort == "" then filtered else StableSort(Order(f, lower), filtered)
  }

  ghost predicate UniqueIds(s: seq<Resource>) { forall x, y :: x in s && y in s && x.id == y.id ==> x == y }

  lemma {:induction false} FilterMultiset(keep: Resource -> bool, s: seq<Resource>)
    ensures forall x :: multiset(Filter(keep, s))[x] == if keep(x) then multiset(s)[x] else 0
  {
    if s != [] {
      FilterMultiset(keep, s[1..]);
      assert s == [s[0]] + s[1..];
    }
  }

  /** With a sort field and unique ids the list is the same whatever order the resources come in. */
  lemma OrderOfInputDoesNotMatter(s: seq<Resource>, t: seq<Resource>, f: Filters, lower: string -> string)
    requires multiset(s) == multiset(t) && UniqueIds(s) && f.sort != ""
    ensures FullList(s, f, lower) == FullList(t, f, lower)
  {
    hide FullList, StrictWeakOrder, Sorted;
    FullListSorted(s, f, lower);
    FullListSorted(t, f, lower);
    OrderIsWeak(f, lower);
    StrictOnList(s, f, lower);
    assert multiset(FullList(s, f, lower)) == multiset(FullList(t, f, lower));
    SortedUnique(Order(f, lower), FullList(s, f, lower), FullList(t, f, lower));
  }

  lemma FullListSorted(s: seq<Resource>, f: Filters, lower: string -> string)
    requires f.sort != ""
    ensures Sorted(Order(f, lower), FullList(s, f, lower))
    ensures forall x :: multiset(FullList(s, f, lower))[x] == if Keep(f, lower)(x) then multiset(s)[x] else 0
  {
    hide StrictWeakOrder, Matches, Before;
    OrderIsWeak(f, lower);
    StableSortSorted(Order(f, lower), Filter(Keep(f, lower), s));
    FilterMultiset(Keep(f, lower), s);
  }

  /** The order is strict and total on the list. */
  lemma StrictOnList(s: seq<Resource>, f: Filters, lower: string -> string)
    requires UniqueIds(s) && f.sort != ""
    ensures forall x, y :: x in FullList(s, f, lower) && y in FullList(s, f, lower) && x != y ==> Order(f, lower)(x, y) || Order(f, lower)(y, x)
  {
    hide Matches, Before;
    var full := FullList(s, f, lower);
    forall x, y | x in full && y in full && x != y
      ensures Order(f, lower)(x, y) || Order(f, lower)(y, x)
    {
      assert x in multiset(full) && y in multiset(full);
      assert x in Filter(Keep(f, lower), s) && y in Filter(Keep(f, lower), s);
      BeforeTotal(x, y, f, lower);
    }
  }

  /** "desc" is "asc" backwards. */
  lemma DescendingIsReversed(s: seq<Resource>, f: Filters, lower: string -> string)
    requires UniqueIds(s) && f.sort != "" && f.direction == "asc"
    ensures FullList(s, f.(direction := "desc"), lower) == Reverse(FullList(s, f, lower))
  {
    var g := f.(direction := "desc");
    var asc, desc := FullList(s, f, lower), FullList(s, g, lower);
    hide FullList, StrictWeakOrder, Sorted, Reverse;
    FullListSorted(s, f, lower);
    FullListSorted(s, g, lower);
    assert forall x :: Keep(f, lower)(x) == Keep(g, lower)(x);
    assert multiset(asc) == multiset(desc);
    ReverseSorted(asc, f, lower);
    OrderIsWeak(g, lower);
    StrictOnList(s, g, lower);
    SortedUnique(Order(g, lower), desc, Reverse(asc));
  }

  lemma ReverseSorted(asc: seq<Resource>, f: Filters, lower: string -> string)
    requires f.direction == "asc" && Sorted(Order(f, lower), asc)
    ensures Sorted(Order(f.(direction := "desc"), lower), Reverse(asc))
  {
    hide Before, Reverse;
    var back, g := Reverse(asc), f.(direction := "desc");
    forall i, j | 0 <= i < j < |back|
      ensures !Order(g, lower)(back[j], back[i])
    {
      var a, b := asc[|asc| - 1 - j], asc[|asc| - 1 - i];
      assert !Order(f, lower)(b, a);
      BeforeReversed(a, b, f, lower);
    }
  }

  lemma BeforeReversed(a: Resource, b: Resource, f: Filters, lower: string -> string)
    requires f.direction == "asc"
    ensures Before(a, b, f.(direction := "desc"), lower) <==> Before(b, a, f, lower)
  {
    hide Less;
  }

  // ----- pages -----

  datatype Facets = Facets(clusters: seq<string>, namespaces: seq<string>, kinds: seq<string>, statuses: seq<string>)
  datatype Page = Page(items: seq<Resource>, total: nat, filtered: nat, limit: nat, nextCursor: string)

  function PageStart(n: nat, q: Query): nat { if q.offset > n then n else q.offset }
  function PageEnd(n: nat, q: Query): nat {
    if q.limit > 0 && PageStart(n, q) + q.limit < n then PageStart(n, q) + q.limit else n
  }

  function PageOf(full: seq<Resource>, total: nat, q: Query, signature: string): Page
    requires IsSignature(signature)
  {
    var n := |full|;
    var end := PageEnd(n, q);
    Page(full[PageStart(n, q)..end], total, n, q.limit, if end < n then Cursor(end, signature) else "")
  }

  /** A request for a page at an offset: no cursor, or the cursor that was emitted for it. */
  ghost predicate RequestsAt(request: Request, offset: nat, digest: string -> string)
    requires Digests(digest)
  {
    if request.cursor == "" then offset == 0
    else request.cursor == Cursor(offset, SignatureOf(Trimmed(request.filters), digest))
  }

  predicate GoodLimit(limit: string) {
    var n := Decimal.Atoi(TrimSpace(limit));
    TrimSpace(limit) != "" && n.Some? && 1 <= n.value <= MaxPageSize
  }

  function LimitOf(limit: string): (n: nat)
    requires GoodLimit(limit)
    ensures 1 <= n <= MaxPageSize
  {
    Decimal.Atoi(TrimSpace(limit)).value
  }

  /** Such a request is understood as just that. */
  lemma RequestUnderstood(request: Request, offset: nat, digest: string -> string)
    requires Digests(digest) && RequestsAt(request, offset, digest) && offset < 100_000_000_000
    requires FiltersAccepted(request.filters) && GoodLimit(request.limit)
    ensures ParseQuery(request, digest) == Ok(Query(Trimmed(request.filters), LimitOf(request.limit), offset))
  {
    hide Trimmed, FilterError, ParseCursor, SignedText, Cursor, Decimal.Atoi, IsSignature;
    if request.cursor != "" {
      var signature := SignatureOf(Trimmed(request.filters), digest);
      ParseCursorOf(offset, signature, signature);
    }
  }

  /** Accepted filters that share their signed text accept each other's cursors. */
  lemma CursorsAreShared(f: Filters, g: Filters, limit: string, offset: nat, digest: string -> string)
    requires Digests(digest) && SignedText(f) == SignedText(g) && offset < 100_000_000_000
    requires Trimmed(g) == g && FiltersAccepted(g) && GoodLimit(limit)
    ensures ParseQuery(Request(g, limit, Cursor(offset, SignatureOf(f, digest))), digest) == Ok(Query(g, LimitOf(limit), offset))
  {
    hide Trimmed, FilterError, ParseQuery, Cursor, SignedText, GoodLimit;
    assert SignatureOf(f, digest) == SignatureOf(g, digest) by { SameSignature(f, g, digest); }
    var request := Request(g, limit, Cursor(offset, SignatureOf(f, digest)));
    CursorIsText(offset, SignatureOf(f, digest));
    RequestUnderstood(request, offset, digest);
  }

  lemma SameSignature(f: Filters, g: Filters, digest: string -> string)
    requires Digests(digest) && SignedText(f) == SignedText(g)
    ensures SignatureOf(f, digest) == SignatureOf(g, digest)
  {
    hide SignedText, IsSignature;
  }

  lemma CursorIsText(offset: nat, signature: string)
    requires IsSignature(signature)
    ensures Cursor(offset, signature) != ""
  {
    hide Cursor;
    CursorFits(offset, signature);
  }

  /** Two requests that both pass every check and share all their cursors: the NUL byte stands at the end of one
      query, or at the start of the other's cluster. */
  lemma NulBreaksTheSignature(digest: string -> string, limit: string, offset: nat)
    requires Digests(digest) && GoodLimit(limit) && offset < 100_000_000_000
    ensures var f, g := Filters("a\0", "b", "", "", "", "", "asc"), Filters("a", "\0b", "", "", "", "", "asc");
            && f != g && SignatureOf(f, digest) == SignatureOf(g, digest)
            && ParseQuery(Request(f, limit, Cursor(offset, SignatureOf(g, digest))), digest) == Ok(Query(f, LimitOf(limit), offset))
            && ParseQuery(Request(g, limit, Cursor(offset, SignatureOf(f, digest))), digest) == Ok(Query(g, LimitOf(limit), offset))
  {
    hide ParseQuery, SignedText, Cursor, GoodLimit, LimitOf, Digests, SignatureOf;
    var f, g := Filters("a\0", "b", "", "", "", "", "asc"), Filters("a", "\0b", "", "", "", "", "asc");
    NulFiltersAccepted();
    NulFiltersShare();
    SameSignature(f, g, digest);
    CursorsAreShared(f, g, limit, offset, digest);
    CursorsAreShared(g, f, limit, offset, digest);
  }

  lemma NulFiltersAccepted()
    ensures var f, g := Filters("a\0", "b", "", "", "", "", "asc"), Filters("a", "\0b", "", "", "", "", "asc");
            Trimmed(f) == f && FiltersAccepted(f) && Trimmed(g) == g && FiltersAccepted(g)
  {
    hide TrimSpace;
    TrimNothing("a\0");
    TrimNothing("b");
    TrimNothing("");
    TrimNothing("asc");
    TrimNothing("a");
    TrimNothing("\0b");
  }

  lemma NulFiltersShare()
    ensures SignedText(Filters("a\0", "b", "", "", "", "", "asc")) == SignedText(Filters("a", "\0b", "", "", "", "", "asc"))
  {
    hide Names.Join;
    var f := Filters("a\0", "b", "", "", "", "", "asc");
    MovedBorder(Fields(f), 0, "a", "\0b", '\0');
    assert Fields(f)[0 := "a"][1 := "\0b"] == Fields(Filters("a", "\0b", "", "", "", "", "asc"));
  }

  /** A client that follows the cursors, giving a limit of its own to each page: what it has gathered, and
      whether it saw the end. */
  function Walk(resources: seq<Resource>, request: Request, limits: seq<string>, lower: string -> string, digest: string -> string): Option<(seq<Resource>, bool)>
    requires Digests(digest)
    decreases |limits|
  {
    hide Digests, Trimmed, FilterError, SignedText, ParseQuery, ParseCursor, Cursor, FullList;
    if limits == [] then Some(([], false))
    else
      var q := ParseQuery(request.(limit := limits[0]), digest);
      if q.Error? then None
      else
        var page := PageOf(FullList(resources, q.value.filters, lower), |resources|, q.value, SignatureOf(q.value.filters, digest));
        if page.nextCursor == "" then Some((page.items, true))
        else
          var rest := Walk(resources, request.(cursor := page.nextCursor), limits[1..], lower, digest);
          if rest.None? then None else Some((page.items + rest.value.0, rest.value.1))
  }

  predicate GoodLimits(limits: seq<string>) { forall k :: 0 <= k < |limits| ==> GoodLimit(limits[k]) }
  predicate FiltersAccepted(f: Filters) { FilterError(Trimmed(f)).None? }

  /** The list a request is about. */
  function ListFor(resources: seq<Resource>, request: Request, lower: string -> string): seq<Resource> {
    FullList(resources, Trimmed(request.filters), lower)
  }

  lemma ListForIsShort(resources: seq<Resource>, request: Request, lower: string -> string)
    ensures |ListFor(resources, request, lower)| <= |resources|
  {
    hide Trimmed;
  }

  /** What a walk from an offset is to yield. */
  ghost function Part(full: seq<Resource>, offset: nat, limits: seq<string>): Option<(seq<Resource>, bool)>
    requires GoodLimits(limits) && offset <= |full|
  {
    Some((full[offset..Min(offset + Sum(limits), |full|)], limits != [] && offset + Sum(limits) >= |full|))
  }

  function Sum(limits: seq<string>): nat
    requires GoodLimits(limits)
  {
    hide GoodLimit, LimitOf;
    if limits == [] then 0 else LimitOf(limits[0]) + Sum(limits[1..])
  }

  function Min(a: nat, b: nat): nat { if a < b then a else b }

  lemma {:induction false} WalkFrom(resources: seq<Resource>, request: Request, offset: nat, limits: seq<string>, lower: string -> string, digest: string -> string)
    requires Digests(digest) && RequestsAt(request, offset, digest)
    requires FiltersAccepted(request.filters) && GoodLimits(limits)
    requires offset <= |ListFor(resources, request, lower)| < 100_000_000_000
    ensures Walk(resources, request, limits, lower, digest) == Part(ListFor(resources, request, lower), offset, limits)
    decreases |limits|
  {
    hide Trimmed, FiltersAccepted, ParseQuery, ParseCursor, Cursor, SignatureOf, FullList, GoodLimit, LimitOf, Digests;
    if limits != [] {
      var f := Trimmed(request.filters);
      var full := FullList(resources, f, lower);
      var signature := SignatureOf(f, digest);
      var first := request.(limit := limits[0]);
      RequestUnderstood(first, offset, digest);
      var q := Query(f, LimitOf(limits[0]), offset);
      var end := PageEnd(|full|, q);
      if end < |full| {
        var next := request.(cursor := Cursor(end, signature));
        ParseCursorOf(end, signature, signature);
        WalkFrom(resources, next, end, limits[1..], lower, digest);
        assert Min(end + Sum(limits[1..]), |full|) == Min(offset + Sum(limits), |full|);
        SlicesJoin(full, offset, end, Min(offset + Sum(limits), |full|));
      }
    } else {
      assert ListFor(resources, request, lower)[offset..offset] == [];
    }
  }

  lemma SlicesJoin<T>(s: seq<T>, a: nat, b: nat, c: nat)
    requires a <= b <= c <= |s|
    ensures s[a..b] + s[b..c] == s[a..c]
  {
  }

  /** Walking from the start, with any limits from 1 to 200, yields the whole list in order with no gap and no
      repeat, and sees its end exactly when the limits add up to its length. */
  lemma WalkIsTheList(resources: seq<Resource>, request: Request, limits: seq<string>, lower: string -> string, digest: string -> string)
    requires Digests(digest) && request.cursor == ""
    requires FiltersAccepted(request.filters) && GoodLimits(limits)
    requires |resources| < 100_000_000_000
    ensures Walk(resources, request, limits, lower, digest) == Part(ListFor(resources, request, lower), 0, limits)
  {
    hide FiltersAccepted, GoodLimits, ListFor, Walk, Part;
    ListForIsShort(resources, request, lower);
    WalkFrom(resources, request, 0, limits, lower, digest);
  }

  // ----- facets -----

  ghost predicate AreFacets(f: Facets, resources: seq<Resource>) {
    && IsSortedSet(f.clusters, set r | r in resources :: r.clusterId)
    && IsSortedSet(f.namespaces, set r | r in resources && r.namespace != "" :: r.namespace)
    && IsSortedSet(f.kinds, set r | r in resources :: r.kind)
    && IsSortedSet(f.statuses, set r | r in resources :: r.status)
  }

  function OnlyFilter(f: Filters, cluster: string, namespace: string, kind: string, status: string): Filters {
    Filters("", cluster, namespace, kind, status, f.sort, f.direction)
  }

  /** Choosing a value offered by a facet never gives an empty table, and gives only resources that have it. */
  lemma FacetsSelect(facets: Facets, resources: seq<Resource>, f: Filters, v: string, lower: string -> string)
    requires AreFacets(facets, resources) && v != "" && v != "all" && lower("") == ""
    ensures var clusters, kinds, statuses, namespaces :=
              FullList(resources, OnlyFilter(f, v, "", "", ""), lower), FullList(resources, OnlyFilter(f, "", "", v, ""), lower),
              FullList(resources, OnlyFilter(f, "", "", "", v), lower), FullList(resources, OnlyFilter(f, "", v, "", ""), lower);
            && (v in facets.clusters <==> clusters != []) && (forall r :: r in clusters ==> r.clusterId == v)
            && (v in facets.kinds <==> kinds != []) && (forall r :: r in kinds ==> r.kind == v)
            && (v in facets.statuses <==> statuses != []) && (forall r :: r in statuses ==> r.status == v)
            && (v in facets.namespaces ==> namespaces != [])
            && (forall r :: r in namespaces ==> r.namespace == v || (r.kind == "Namespace" && r.name == v))
  {
    hide FullList, Ascending, MatchesText, Matches;
    OnlyFilterList(resources, f, v, "", "", "", lower);
    OnlyFilterList(resources, f, "", "", v, "", lower);
    OnlyFilterList(resources, f, "", "", "", v, lower);
    OnlyFilterList(resources, f, "", v, "", "", lower);
  }

  lemma OnlyFilterList(resources: seq<Resource>, f: Filters, cluster: string, namespace: string, kind: string, status: string, lower: string -> string)
    requires lower("") == ""
    ensures var full := FullList(resources, OnlyFilter(f, cluster, namespace, kind, status), lower);
            && (forall r :: r in full <==>
                 && r in resources && Selects(cluster, r.clusterId) && Selects(kind, r.kind) && Selects(status, r.status)
                 && (Selects(namespace, r.namespace) || (r.kind == "Namespace" && r.name == namespace)))
            && (full != [] ==> full[0] in full)
            && (forall r :: r in full ==> full != [])
  {
    hide FullList, MatchesText;
    assert TrimSpace("") == "";
    var g := OnlyFilter(f, cluster, namespace, kind, status);
    FullListElements(resources, g, lower);
    forall r
      ensures MatchesText(r, lower(TrimSpace(g.query)), lower)
    {
      EmptyTextMatches(r, lower);
    }
  }

  lemma EmptyTextMatches(r: Resource, lower: string -> string)
    ensures MatchesText(r, "", lower)
  {
  }

  lemma FullListElements(resources: seq<Resource>, f: Filters, lower: string -> string)
    ensures forall r :: r in FullList(resources, f, lower) <==> r in resources && Matches(r, f, lower)
  {
    hide Matches;
    var filtered, full := Filter(Keep(f, lower), resources), FullList(resources, f, lower);
    assert multiset(full) == multiset(filtered);
    assert forall r :: r in full <==> r in multiset(full);
    assert forall r :: r in filtered <==> r in multiset(filtered);
  }

  // ----- what the table shows -----

  ghost predicate Holds(value: string, text: string) { exists before, after :: value == before + text + after }

  /** The text stands in a column, or in a label or a summary entry written as its key, a blank and its value. */
  ghost predicate Mentions(r: Resource, text: string, lower: string -> string) {
    || Holds(lower(r.name), text) || Holds(lower(r.kind), text) || Holds(lower(r.namespace), text) || Holds(lower(r.clusterId), text)
    || Holds(lower(r.status), text)
    || (exists key :: key in r.labels && Holds(lower(key + " " + r.labels[key]), text))
    || (exists key :: key in r.summary && Holds(lower(key + " " + r.summary[key]), text))
  }

  lemma HoldsIs(value: string, text: string)
    ensures Contains(value, text) <==> Holds(value, text)
  {
    if i: nat :| i + |text| <= |value| && OccursAt(value, text, i) {
      assert value == value[..i] + text + value[i + |text|..];
    }
    if before, after :| value == before + text + after {
      assert OccursAt(value, text, |before|);
    }
  }

  lemma MentionsIs(r: Resource, text: string, lower: string -> string)
    ensures MatchesText(r, text, lower) <==> text == "" || Mentions(r, text, lower)
  {
    hide Contains, Holds;
    forall value: string
      ensures Contains(value, text) <==> Holds(value, text)
    {
      HoldsIs(value, text);
    }
  }

  /** The table shows the resources whose columns are those chosen, where a namespace is shown under its own name too, and
      which mention the query. */
  lemma ShownAre(resources: seq<Resource>, f: Filters, lower: string -> string, r: Resource)
    ensures r in FullList(resources, f, lower) <==>
              && r in resources
              && f.cluster in {"", "all", r.clusterId} && f.kind in {"", "all", r.kind} && f.status in {"", "all", r.status}
              && (f.namespace in {"", "all", r.namespace} || (r.kind == "Namespace" && f.namespace == r.name))
              && (lower(TrimSpace(f.query)) == "" || Mentions(r, lower(TrimSpace(f.query)), lower))
  {
    hide FullList, MatchesText, Mentions, TrimSpace;
    FullListElements(resources, f, lower);
    MentionsIs(r, lower(TrimSpace(f.query)), lower);
  }

  /** The column that a sort field names. */
  predicate Column(field: string, r: Resource, v: string) {
    || (field == "name" && v == r.name) || (field == "kind" && v == r.kind) || (field == "namespace" && v == r.namespace)
    || (field == "status" && v == r.status) || (field == "cluster" && v == r.clusterId)
  }

  /** A sorted table ascends by its column in lower case, and by id where the columns agree, or descends by both. */
  lemma ShownInOrder(resources: seq<Resource>, f: Filters, lower: string -> string, i: nat, j: nat, left: string, right: string)
    requires i < j < |FullList(resources, f, lower)|
    requires Column(f.sort, FullList(resources, f, lower)[i], left) && Column(f.sort, FullList(resources, f, lower)[j], right)
    ensures var full, a, b := FullList(resources, f, lower), lower(left), lower(right);
            && (f.direction == "asc" ==> Less(a, b) || (a == b && (Less(full[i].id, full[j].id) || full[i].id == full[j].id)))
            && (f.direction == "desc" ==> Less(b, a) || (a == b && (Less(full[j].id, full[i].id) || full[i].id == full[j].id)))
  {
    var full := FullList(resources, f, lower);
    hide FullList, Less, StrictWeakOrder;
    FullListSorted(resources, f, lower);
    assert !Before(full[j], full[i], f, lower);
    LessTotal(lower(left), lower(right));
    LessTotal(full[i].id, full[j].id);
  }

  /** Without a sort field the table keeps the order of the resources. */
  lemma UnsortedKeepsOrder(s: seq<Resource>, r: Resource, f: Filters, lower: string -> string)
    requires f.sort == ""
    ensures FullList(s + [r], f, lower) == FullList(s, f, lower) + FullList([r], f, lower)
  {
    hide Matches;
    FilterAppend(Keep(f, lower), s, r);
    assert [r][1..] == [];
  }

  // ----- what a request asks for -----

  /** Filters longer than they may be, after trimming. */
  predicate TooLong(f: Filters) {
    || |TrimSpace(f.query)| > 160 || |TrimSpace(f.cluster)| > 120 || |TrimSpace(f.namespace)| > 120 || |TrimSpace(f.kind)| > 120
    || |TrimSpace(f.status)| > 120
  }

  predicate KnownSort(f: Filters) { TrimSpace(f.sort) in {"", "name", "kind", "namespace", "status", "cluster"} }
  predicate KnownDirection(f: Filters) { TrimSpace(f.direction) in {"", "asc", "desc"} }

  /** A limit is a number from 1 to 200. */
  predicate Limits(limit: string, n: nat) { Decimal.Atoi(TrimSpace(limit)) == Some(n) && 1 <= n <= 200 }

  /** A cursor, once decoded, is an offset and the signature of the filters. */
  predicate Decodes(cursor: string, offset: string, signature: string) {
    Base64.Decode(cursor).Some? && '.' !in offset && '.' !in signature && Base64.Decode(cursor).value == offset + "." + signature
  }

  /** An offset is a number from 0 on. */
  predicate OffsetIs(result: Result<nat>, text: string) {
    if Decimal.Atoi(text).Some? && Decimal.Atoi(text).value >= 0 then result == Ok(Decimal.Atoi(text).value) else result == Error(InvalidCursor)
  }

  predicate PageAt(result: Result<Query>, f: Filters, limit: nat, text: string) {
    if Decimal.Atoi(text).Some? && Decimal.Atoi(text).value >= 0 then result == Ok(Query(f, limit, Decimal.Atoi(text).value))
    else result == Error(InvalidCursor)
  }

  /** What is refused, in the order of the checks, and what any other request asks for. */
  lemma RequestMeans(request: Request, digest: string -> string)
    requires Digests(digest)
    ensures var f, result, cursor := request.filters, ParseQuery(request, digest), TrimSpace(request.cursor);
            if TooLong(f) then result == Error(FilterTooLong)
            else if !KnownSort(f) then result == Error(InvalidSort)
            else if !KnownDirection(f) then result == Error(InvalidDirection)
            else if TrimSpace(request.limit) == "" then
              if request.cursor != "" then result == Error(CursorRequiresLimit) else result == Ok(Query(Trimmed(f), 0, 0))
            else if !exists n :: Limits(request.limit, n) then result == Error(InvalidLimit)
            else if cursor == "" then exists n :: Limits(request.limit, n) && result == Ok(Query(Trimmed(f), n, 0))
            else if |cursor| > 32 then result == Error(CursorTooLong)
            else if Base64.Decode(cursor).None? then result == Error(InvalidCursor)
            else if !exists offset :: Decodes(cursor, offset, SignatureOf(Trimmed(f), digest)) then result == Error(CursorMismatch)
            else exists n, text :: Limits(request.limit, n) && Decodes(cursor, text, SignatureOf(Trimmed(f), digest)) && PageAt(result, Trimmed(f), n, text)
  {
    hide TrimSpace, Decimal.Atoi, Base64.Decode, Decodes, SignedText, IsSignature, ParseCursor;
    var limit := Decimal.Atoi(TrimSpace(request.limit));
    assert forall n :: Limits(request.limit, n) <==> limit == Some(n) && 1 <= n <= 200;
    if TrimSpace(request.limit) != "" && limit.Some? && 1 <= limit.value <= 200 {
      assert Limits(request.limit, limit.value);
      CursorMeans(TrimSpace(request.cursor), SignatureOf(Trimmed(request.filters), digest));
    }
  }

  /** Filters keep their trimmed text, and the direction is ascending unless one is given. */
  lemma TrimmedMeans(f: Filters)
    ensures var t := Trimmed(f);
            && t.query == TrimSpace(f.query) && t.cluster == TrimSpace(f.cluster) && t.namespace == TrimSpace(f.namespace)
            && t.kind == TrimSpace(f.kind) && t.status == TrimSpace(f.status) && t.sort == TrimSpace(f.sort)
            && (TrimSpace(f.direction) == "" ==> t.direction == "asc") && (TrimSpace(f.direction) != "" ==> t.direction == TrimSpace(f.direction))
  {
  }

  lemma CursorMeans(cursor: string, signature: string)
    requires IsSignature(signature)
    ensures var result := ParseCursor(cursor, signature);
            if |cursor| > 32 then result == Error(CursorTooLong)
            else if Base64.Decode(cursor).None? then result == Error(InvalidCursor)
            else if !exists offset :: Decodes(cursor, offset, signature) then result == Error(CursorMismatch)
            else exists text :: Decodes(cursor, text, signature) && OffsetIs(result, text)
  {
    hide Decimal.Atoi, Base64.Decode, Names.Split, Names.Join;
    if |cursor| <= 32 && Base64.Decode(cursor).Some? {
      var text := Base64.Decode(cursor).value;
      var parts := Names.Split(text, '.');
      TwoParts(text, signature);
      if |parts| == 2 && parts[1] == signature {
        assert parts == [parts[0], signature];
        assert Decodes(cursor, parts[0], signature);
      }
    }
  }

  lemma TwoParts(text: string, signature: string)
    requires IsSignature(signature)
    ensures var parts := Names.Split(text, '.');
            forall offset :: '.' !in offset && '.' !in signature && text == offset + "." + signature <==> parts == [offset, signature]
  {
    hide Names.Join, Names.Split;
    forall offset: string
      ensures '.' !in offset && '.' !in signature && text == offset + "." + signature <==> Names.Split(text, '.') == [offset, signature]
    {
      TwoPartsOf(text, offset, signature);
    }
  }

  lemma TwoPartsOf(text: string, offset: string, signature: string)
    ensures '.' !in offset && '.' !in signature && text == offset + "." + signature <==> Names.Split(text, '.') == [offset, signature]
  {
    hide Names.Split, Names.Join;
    JoinTwo(offset, signature);
    var parts := Names.Split(text, '.');
    if parts == [offset, signature] {
      assert '.' !in parts[0] && '.' !in parts[1];
    }
    if '.' !in offset && '.' !in signature {
      Names.SplitIsTheOnlySplit([offset, signature], '.');
    }
  }

  lemma JoinTwo(offset: string, signature: string)
    ensures Names.Join([offset, signature], '.') == offset + "." + signature
  {
    hide Names.Join;
    var parts := [offset, signature];
    JoinOnce(parts, '.');
    OnePart(parts[1..], '.');
    assert offset + ['.'] + signature == offset + "." + signature;
  }

  // ----- the listing as it runs -----

  lemma {:induction false} FilterAppend(keep: Resource -> bool, s: seq<Resource>, x: Resource)
    ensures Filter(keep, s + [x]) == Filter(keep, s) + if keep(x) then [x] else []
  {
    if s == [] {
      assert s + [x] == [x];
    } else {
      assert (s + [x])[1..] == s[1..] + [x];
      FilterAppend(keep, s[1..], x);
    }
  }

  method ListFacets(resources: seq<Resource>) returns (facets: Facets)
    ensures AreFacets(facets, resources)
  {
    var clusters: set<string>, namespaces: set<string>, kinds: set<string>, statuses: set<string> := {}, {}, {}, {};
    for i := 0 to |resources|
      invariant clusters == set r | r in resources[..i] :: r.clusterId
      invariant namespaces == set r | r in resources[..i] && r.namespace != "" :: r.namespace
      invariant kinds == set r | r in resources[..i] :: r.kind
      invariant statuses == set r | r in resources[..i] :: r.status
    {
      var resource := resources[i];
      assert resources[..i + 1] == resources[..i] + [resource];
      clusters := clusters + {resource.clusterId};
      if resource.namespace != "" {
        namespaces := namespaces + {resource.namespace};
      }
      kinds := kinds + {resource.kind};
      statuses := statuses + {resource.status};
    }
    assert resources[..|resources|] == resources;
    var c := SortedStringSet(clusters);
    var n := SortedStringSet(namespaces);
    var k := SortedStringSet(kinds);
    var s := SortedStringSet(statuses);
    facets := Facets(c, n, k, s);
  }

  /** One page and the facets, as `resourceListFromResources` computes them. */
  method ListResources(resources: seq<Resource>, query: Query, lower: string -> string, digest: string -> string)
    returns (page: Page, facets: Facets)
    requires Digests(digest)
    ensures page == PageOf(FullList(resources, query.filters, lower), |resources|, query, SignatureOf(query.filters, digest))
    ensures page.total == |resources| && page.filtered == |FullList(resources, query.filters, lower)| && page.limit == query.limit
    ensures AreFacets(facets, resources)
  {
    hide Matches, Digests, SignatureOf, AreFacets, Cursor, StableSort;
    var filtered: seq<Resource> := [];
    for i := 0 to |resources|
      invariant filtered == Filter(Keep(query.filters, lower), resources[..i])
    {
      assert resources[..i + 1] == resources[..i] + [resources[i]];
      FilterAppend(Keep(query.filters, lower), resources[..i], resources[i]);
      if Matches(resources[i], query.filters, lower) {
        filtered := filtered + [resources[i]];
      }
    }
    assert resources[..|resources|] == resources;
    if query.filters.sort != "" {
      filtered := StableSort(Order(query.filters, lower), filtered);
    }
    var start := query.offset;
    if start > |filtered| {
      start := |filtered|;
    }
    var end := |filtered|;
    if query.limit > 0 && start + query.limit < end {
      end := start + query.limit;
    }
    var nextCursor := "";
    if end < |filtered| {
      nextCursor := Cursor(end, SignatureOf(query.filters, digest));
    }
    page := Page(filtered[start..end], |resources|, |filtered|, query.limit, nextCursor);
    facets := ListFacets(resources);
  }
}
