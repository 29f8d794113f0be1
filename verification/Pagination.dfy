/** Collecting a Kubernetes list page by page through continue tokens, all or nothing, against any server. */
module Pagination {
  import opened Text

  const MaxTokenBytes := 4096
  const MaxJsonBytes := 16 * 1024 * 1024

  datatype ListError =
    | InvalidRequest | Incomplete | TokenLoop | TokenInvalid | PageLimit | ItemLimit | TotalBytesLimit
    | TooLarge | InvalidResponse | ReadFailed | Unavailable | StatusError

  datatype Limits = Limits(pageSize: int, maxPages: int, maxItems: int, maxPageBytes: int, maxTotalBytes: int)

  datatype Page<+T> = Page(items: seq<T>, continue_: string, bytes: nat)

  /** What one request brings: a page, a missing or forbidden resource, or a failure of any other kind. */
  datatype Response<+T> = Body(page: Page<T>) | Absent | Broken(error: ListError)

  /** A server answers the n-th request, which carries a token; it may answer differently every time. */
  type Server<!T> = (nat, string) -> Response<T>

  datatype Fetched<+T> = Found(page: Page<T>) | NotFound | Failed(error: ListError)

  /** `getJSONStatusBounded`. */
  function Fetch<T>(response: Response<T>, optional: bool, maxBytes: int): Fetched<T> {
    if maxBytes > MaxJsonBytes then Failed(InvalidRequest)
    else match response
      case Broken(e) => Failed(e)
      case Absent => if optional then NotFound else Failed(StatusError)
      case Body(page) => if page.bytes > maxBytes then Failed(TooLarge) else Found(page)
  }

  predicate ValidLimits(l: Limits) {
    l.pageSize >= 1 && l.maxPages >= 1 && l.maxItems >= 1 && l.maxPageBytes >= 1 && l.maxTotalBytes >= 1
  }

  // ----- chains of pages -----

  function Token<T>(pages: seq<Page<T>>, i: nat): string
    requires i <= |pages|
  {
    if i == 0 then "" else pages[i - 1].continue_
  }

  /** Request i, with the token of the page before, brings page i. */
  predicate Brings<T(==)>(server: Server<T>, optional: bool, l: Limits, token: string, i: nat, page: Page<T>) {
    Fetch(server(i, token), optional || i > 0, l.maxPageBytes) == Found(page)
  }

  predicate BringsAt<T(==)>(server: Server<T>, optional: bool, l: Limits, pages: seq<Page<T>>, i: nat)
    requires i < |pages|
  {
    Brings(server, optional, l, Token(pages, i), i, pages[i])
  }

  /** The pages a client gets by following tokens, as far as it goes: none before the last ends the list. */
  ghost predicate Follows<T>(server: Server<T>, optional: bool, l: Limits, pages: seq<Page<T>>) {
    && (forall i: nat {:trigger BringsAt(server, optional, l, pages, i)} :: i < |pages| ==> BringsAt(server, optional, l, pages, i))
    && (forall i :: 0 <= i < |pages| - 1 ==> pages[i].continue_ != "")
  }

  /** A finite list: the last page carries no token. */
  ghost predicate Chain<T>(server: Server<T>, optional: bool, l: Limits, pages: seq<Page<T>>) {
    Follows(server, optional, l, pages) && pages != [] && pages[|pages| - 1].continue_ == ""
  }

  function AllItems<T>(pages: seq<Page<T>>): seq<T> {
    if pages == [] then [] else AllItems(pages[..|pages| - 1]) + pages[|pages| - 1].items
  }

  function TotalBytes<T>(pages: seq<Page<T>>): nat {
    if pages == [] then 0 else TotalBytes(pages[..|pages| - 1]) + pages[|pages| - 1].bytes
  }

  /** Items and bytes of one page after another: those of the first pages, then those of the rest. */
  lemma {:induction false} PagesInOrder<T>(a: seq<Page<T>>, b: seq<Page<T>>, page: Page<T>)
    ensures AllItems([page]) == page.items && TotalBytes([page]) == page.bytes
    ensures AllItems(a + b) == AllItems(a) + AllItems(b) && TotalBytes(a + b) == TotalBytes(a) + TotalBytes(b)
    decreases |b|
  {
    assert [page][..0] == [];
    assert AllItems([page][..0]) == [];
    if b == [] {
      assert a + b == a;
    } else {
      var n := |b| - 1;
      PagesInOrder(a, b[..n], page);
      assert (a + b)[..|a| + n] == a + b[..n];
    }
  }

  ghost predicate DistinctTokens<T>(pages: seq<Page<T>>, n: nat)
    requires n <= |pages|
  {
    && (forall i :: 0 <= i < n ==> |pages[i].continue_| <= 4096)
    && (forall i, j :: 0 <= i < j < n ==> pages[i].continue_ != pages[j].continue_)
  }

  ghost predicate WithinLimits<T>(l: Limits, pages: seq<Page<T>>) {
    |pages| <= l.maxPages && TotalBytes(pages) <= l.maxTotalBytes && |AllItems(pages)| <= l.maxItems
  }

  /** The lists the client accepts. */
  ghost predicate Acceptable<T>(server: Server<T>, optional: bool, l: Limits, pages: seq<Page<T>>) {
    Chain(server, optional, l, pages) && WithinLimits(l, pages) && DistinctTokens(pages, |pages| - 1)
  }

  /** Two clients following the same server see the same pages. */
  lemma {:induction false} FollowsAgree<T>(server: Server<T>, optional: bool, l: Limits, a: seq<Page<T>>, b: seq<Page<T>>, n: nat)
    requires Follows(server, optional, l, a) && Follows(server, optional, l, b) && n <= |a| && n <= |b|
    ensures a[..n] == b[..n]
  {
    hide Fetch;
    if n > 0 {
      FollowsAgree(server, optional, l, a, b, n - 1);
      assert n > 1 ==> a[n - 2] == a[..n - 1][n - 2] && b[n - 2] == b[..n - 1][n - 2];
      assert BringsAt(server, optional, l, a, n - 1) && BringsAt(server, optional, l, b, n - 1);
      assert a[..n] == a[..n - 1] + [a[n - 1]] && b[..n] == b[..n - 1] + [b[n - 1]];
    }
  }

  lemma {:induction false} SumsGrow<T>(pages: seq<Page<T>>, i: nat)
    requires i <= |pages|
    ensures TotalBytes(pages[..i]) <= TotalBytes(pages) && |AllItems(pages[..i])| <= |AllItems(pages)|
    decreases |pages|
  {
    if i < |pages| {
      SumsGrow(pages[..|pages| - 1], i);
      assert pages[..|pages| - 1][..i] == pages[..i];
    } else {
      assert pages[..i] == pages;
    }
  }

  /** The list of a server, if it is finite, extends whatever a client has followed so far. */
  lemma ChainExtends<T>(server: Server<T>, optional: bool, l: Limits, seen: seq<Page<T>>, chain: seq<Page<T>>)
    requires Follows(server, optional, l, seen) && Chain(server, optional, l, chain)
    ensures |seen| <= |chain| && chain[..|seen|] == seen
    ensures TotalBytes(seen) <= TotalBytes(chain) && |AllItems(seen)| <= |AllItems(chain)|
    ensures seen != [] && seen[|seen| - 1].continue_ == "" ==> chain == seen
  {
    var n := if |seen| <= |chain| then |seen| else |chain|;
    FollowsAgree(server, optional, l, seen, chain, n);
    assert n > 0 ==> seen[n - 1] == seen[..n][n - 1] == chain[..n][n - 1];
    assert |seen| <= |chain|;
    assert seen[..n] == seen;
    SumsGrow(chain, |seen|);
    assert |seen| == |chain| ==> chain[..n] == chain;
  }

  /** What stops a client: the next request brings no page, a limit or the page count is passed, or a token is
      too long or comes back. */
  ghost predicate Blocked<T>(server: Server<T>, optional: bool, l: Limits, seen: seq<Page<T>>) {
    && Follows(server, optional, l, seen)
    && (|| TotalBytes(seen) > l.maxTotalBytes || |AllItems(seen)| > l.maxItems
        || ((seen != [] ==> seen[|seen| - 1].continue_ != "") &&
            (|| !Fetch(server(|seen|, Token(seen, |seen|)), optional || |seen| > 0, l.maxPageBytes).Found?
             || |seen| >= l.maxPages || !DistinctTokens(seen, |seen|))))
  }

  lemma BlockedIsFinal<T>(server: Server<T>, optional: bool, l: Limits, seen: seq<Page<T>>)
    requires Blocked(server, optional, l, seen)
    ensures forall pages :: !Acceptable(server, optional, l, pages)
  {
    forall pages | Chain(server, optional, l, pages)
      ensures !Acceptable(server, optional, l, pages)
    {
      ChainExtends(server, optional, l, seen, pages);
      if TotalBytes(seen) <= l.maxTotalBytes && |AllItems(seen)| <= l.maxItems {
        assert forall i :: 0 <= i < |seen| ==> pages[i] == pages[..|seen|][i] == seen[i];
        assert |seen| < |pages|;
        assert Token(pages, |seen|) == Token(seen, |seen|);
        assert BringsAt(server, optional, l, pages, |seen|);
      }
    }
  }

  /** A client has met the same token twice. */
  ghost predicate SawTwice<T>(server: Server<T>, optional: bool, l: Limits, pages: seq<Page<T>>) {
    Follows(server, optional, l, pages) && exists i, j :: 0 <= i < j < |pages| && pages[i].continue_ == pages[j].continue_ != ""
  }

  // ----- where a client stops -----

  /** A client that has followed these pages has met no limit and goes on. */
  ghost predicate GoesOn<T>(server: Server<T>, optional: bool, l: Limits, seen: seq<Page<T>>) {
    && Follows(server, optional, l, seen) && (forall i :: 0 <= i < |seen| ==> seen[i].continue_ != "")
    && WithinLimits(l, seen) && DistinctTokens(seen, |seen|)
  }

  /** After these pages it stops without a list: None is the one case that is no error, a missing optional list. */
  ghost predicate Stops<T>(server: Server<T>, optional: bool, l: Limits, seen: seq<Page<T>>, outcome: Option<ListError>) {
    && GoesOn(server, optional, l, seen)
    && if |seen| == l.maxPages then outcome == Some(PageLimit) else AnswerStops(optional, l, seen, server(|seen|, Token(seen, |seen|)), outcome)
  }

  ghost predicate AnswerStops<T>(optional: bool, l: Limits, seen: seq<Page<T>>, response: Response<T>, outcome: Option<ListError>) {
    if l.maxPageBytes > 16_777_216 then outcome == Some(InvalidRequest)
    else match response
      case Broken(e) => outcome == Some(e)
      case Absent => outcome == if seen != [] then Some(Incomplete) else if optional then None else Some(StatusError)
      case Body(page) => PageStops(l, seen, page, outcome)
  }

  ghost predicate PageStops<T>(l: Limits, seen: seq<Page<T>>, page: Page<T>, outcome: Option<ListError>) {
    if page.bytes > l.maxPageBytes then outcome == Some(TooLarge)
    else if TotalBytes(seen) + page.bytes > l.maxTotalBytes then outcome == Some(TotalBytesLimit)
    else if |AllItems(seen)| + |page.items| > l.maxItems then outcome == Some(ItemLimit)
    else if |page.continue_| > 4096 then outcome == Some(TokenInvalid)
    else page.continue_ != "" && (exists i :: 0 <= i < |seen| && seen[i].continue_ == page.continue_) && outcome == Some(TokenLoop)
  }

  /** A page that the client can add to those it goes on from stops nothing. */
  lemma AddedStopsNothing<T>(server: Server<T>, optional: bool, l: Limits, pages: seq<Page<T>>, n: nat, outcome: Option<ListError>)
    requires n < |pages| && Follows(server, optional, l, pages) && WithinLimits(l, pages) && DistinctTokens(pages, |pages| - 1)
    requires n + 1 < |pages| ==> DistinctTokens(pages, n + 1)
    requires n + 1 == |pages| ==> pages[n].continue_ == "" || DistinctTokens(pages, |pages|)
    ensures !Stops(server, optional, l, pages[..n], outcome)
  {
    var seen := pages[..n];
    assert Token(seen, n) == Token(pages, n);
    assert BringsAt(server, optional, l, pages, n);
    assert pages[..n + 1][..n] == seen;
    SumsGrow(pages, n + 1);
  }

  /** A client stops at one place and for one reason, and then the server has no acceptable list for it. */
  lemma StopIsUnique<T>(server: Server<T>, optional: bool, l: Limits, a: seq<Page<T>>, outcome: Option<ListError>, b: seq<Page<T>>, outcome': Option<ListError>)
    requires Stops(server, optional, l, a, outcome)
    ensures Stops(server, optional, l, b, outcome') ==> a == b && outcome == outcome'
    ensures !Acceptable(server, optional, l, b)
  {
    hide Stops, Follows, WithinLimits, DistinctTokens;
    StopsFollows(server, optional, l, a, outcome);
    if Stops(server, optional, l, b, outcome') {
      StopsFollows(server, optional, l, b, outcome');
      if |a| < |b| {
        FollowsAgree(server, optional, l, a, b, |a|);
        FewerTokens(b, |b|, |a| + 1);
        FewerTokens(b, |b|, |b| - 1);
        assert b[..|a|] == a;
        AddedStopsNothing(server, optional, l, b, |a|, outcome);
      } else if |b| < |a| {
        FollowsAgree(server, optional, l, b, a, |b|);
        FewerTokens(a, |a|, |b| + 1);
        FewerTokens(a, |a|, |a| - 1);
        assert a[..|b|] == b;
        AddedStopsNothing(server, optional, l, a, |b|, outcome');
      } else {
        FollowsAgree(server, optional, l, a, b, |a|);
        assert a == a[..|a|] && b == b[..|b|];
        SameStop(server, optional, l, a, outcome, outcome');
      }
    }
    if Acceptable(server, optional, l, b) {
      ChainExtends(server, optional, l, a, b);
      StopsBeforeEnd(server, optional, l, a, outcome, b);
      if |a| + 1 < |b| {
        FewerTokens(b, |b| - 1, |a| + 1);
      }
      AddedStopsNothing(server, optional, l, b, |a|, outcome);
    }
  }

  lemma StopsFollows<T>(server: Server<T>, optional: bool, l: Limits, seen: seq<Page<T>>, outcome: Option<ListError>)
    requires Stops(server, optional, l, seen, outcome)
    ensures Follows(server, optional, l, seen) && WithinLimits(l, seen) && DistinctTokens(seen, |seen|)
  {
  }

  lemma FewerTokens<T>(pages: seq<Page<T>>, m: nat, n: nat)
    requires n <= m <= |pages| && DistinctTokens(pages, m)
    ensures DistinctTokens(pages, n)
  {
  }

  lemma StopsBeforeEnd<T>(server: Server<T>, optional: bool, l: Limits, seen: seq<Page<T>>, outcome: Option<ListError>, chain: seq<Page<T>>)
    requires Stops(server, optional, l, seen, outcome) && Chain(server, optional, l, chain) && |seen| <= |chain| && chain[..|seen|] == seen
    ensures |seen| < |chain|
  {
    assert |seen| > 0 ==> chain[|seen| - 1] == seen[|seen| - 1];
  }

  lemma SameStop<T>(server: Server<T>, optional: bool, l: Limits, seen: seq<Page<T>>, outcome: Option<ListError>, outcome': Option<ListError>)
    requires Stops(server, optional, l, seen, outcome) && Stops(server, optional, l, seen, outcome')
    ensures outcome == outcome'
  {
  }

  // ----- the loop -----

  /** The client's state after some pages. */
  ghost predicate Collecting<T>(server: Server<T>, optional: bool, l: Limits, pages: seq<Page<T>>, items: seq<T>, totalBytes: nat, nextToken: string, seenTokens: set<string>) {
    && Follows(server, optional, l, pages)
    && (forall i :: 0 <= i < |pages| ==> pages[i].continue_ != "")
    && items == AllItems(pages) && totalBytes == TotalBytes(pages) && nextToken == Token(pages, |pages|)
    && totalBytes <= l.maxTotalBytes && |items| <= l.maxItems
    && DistinctTokens(pages, |pages|)
    && (forall t :: t in seenTokens <==> exists i :: 0 <= i < |pages| && pages[i].continue_ == t)
  }

  /** `getKubeListJSONStatusWithLimits`. It succeeds exactly when the server's pages form an acceptable list, and
      then returns all items in order; in every other case the output list is empty. */
  method GetList<T>(server: Server<T>, validPath: bool, optional: bool, l: Limits) returns (found: bool, err: Option<ListError>, out: seq<T>)
    ensures !found ==> out == []
    ensures found ==> err == None
    ensures found <==> ValidLimits(l) && validPath && exists pages :: Acceptable(server, optional, l, pages)
    ensures forall pages :: Acceptable(server, optional, l, pages) && found ==> out == AllItems(pages)
    ensures !found && err == None <==> ValidLimits(l) && validPath && Fetch(server(0, ""), optional, l.maxPageBytes) == NotFound
    ensures !ValidLimits(l) || !validPath ==> err == Some(InvalidRequest)
    ensures ValidLimits(l) && validPath && !found ==> exists seen :: Stops(server, optional, l, seen, err)
    ensures err == Some(TokenLoop) && (forall n, t :: server(n, t) != Broken(TokenLoop)) ==> exists pages :: SawTwice(server, optional, l, pages)
  {
    hide Collecting, Acceptable, Blocked, SawTwice, AllItems, Token, Stops, PageStops;
    if !ValidLimits(l) {
      return false, Some(InvalidRequest), [];
    }
    if !validPath {
      return false, Some(InvalidRequest), [];
    }
    var items: seq<T>, seenTokens: set<string> := [], {};
    var nextToken := "";
    var totalBytes: nat := 0;
    ghost var pages: seq<Page<T>> := [];
    CollectingStart(server, optional, l);
    for pageIndex := 0 to l.maxPages
      invariant |pages| == pageIndex && Collecting(server, optional, l, pages, items, totalBytes, nextToken, seenTokens)
      invariant pageIndex == 0 ==> nextToken == ""
      invariant pageIndex > 0 ==> Fetch(server(0, ""), optional, l.maxPageBytes).Found?
    {
      CollectingFacts(server, optional, l, pages, items, totalBytes, nextToken, seenTokens);
      match Fetch(server(pageIndex, nextToken), optional || pageIndex > 0, l.maxPageBytes) {
        case Failed(e) =>
          StopsHere(server, optional, l, pages, items, totalBytes, nextToken, seenTokens);
          BlockedIsFinal(server, optional, l, pages);
          return false, Some(e), [];
        case NotFound =>
          StopsHere(server, optional, l, pages, items, totalBytes, nextToken, seenTokens);
          BlockedIsFinal(server, optional, l, pages);
          return false, if pageIndex == 0 then None else Some(Incomplete), [];
        case Found(page) =>
          StopsAtPage(server, optional, l, pages, items, totalBytes, nextToken, seenTokens, page);
          CollectingStep(server, optional, l, pages, items, totalBytes, nextToken, seenTokens, page);
          pages := pages + [page];
          totalBytes := totalBytes + page.bytes;
          if totalBytes > l.maxTotalBytes {
            BlockedIsFinal(server, optional, l, pages);
            return false, Some(TotalBytesLimit), [];
          }
          if |items| + |page.items| > l.maxItems {
            BlockedIsFinal(server, optional, l, pages);
            return false, Some(ItemLimit), [];
          }
          items := items + page.items;
          if page.continue_ == "" {
            AcceptableIsUnique(server, optional, l, pages);
            return true, None, items;
          }
          if |page.continue_| > MaxTokenBytes {
            BlockedIsFinal(server, optional, l, pages);
            return false, Some(TokenInvalid), [];
          }
          if page.continue_ in seenTokens {
            BlockedIsFinal(server, optional, l, pages);
            return false, Some(TokenLoop), [];
          }
          seenTokens := seenTokens + {page.continue_};
          nextToken := page.continue_;
      }
    }
    CollectingFacts(server, optional, l, pages, items, totalBytes, nextToken, seenTokens);
    StopsHere(server, optional, l, pages, items, totalBytes, nextToken, seenTokens);
    BlockedIsFinal(server, optional, l, pages);
    return false, Some(PageLimit), [];
  }

  lemma AcceptableIsUnique<T>(server: Server<T>, optional: bool, l: Limits, pages: seq<Page<T>>)
    requires Acceptable(server, optional, l, pages)
    ensures forall other :: Acceptable(server, optional, l, other) ==> other == pages
  {
    forall other | Acceptable(server, optional, l, other)
      ensures other == pages
    {
      ChainExtends(server, optional, l, pages, other);
    }
  }

  lemma CollectingStart<T>(server: Server<T>, optional: bool, l: Limits)
    requires ValidLimits(l)
    ensures Collecting(server, optional, l, [], [], 0, "", {})
  {}

  lemma CollectingFacts<T>(server: Server<T>, optional: bool, l: Limits, pages: seq<Page<T>>, items: seq<T>, totalBytes: nat, nextToken: string, seenTokens: set<string>)
    requires Collecting(server, optional, l, pages, items, totalBytes, nextToken, seenTokens)
    ensures nextToken == Token(pages, |pages|)
    ensures !Fetch(server(|pages|, nextToken), optional || |pages| > 0, l.maxPageBytes).Found? || |pages| >= l.maxPages ==> Blocked(server, optional, l, pages)
  {}

  lemma StopsHere<T>(server: Server<T>, optional: bool, l: Limits, pages: seq<Page<T>>, items: seq<T>, totalBytes: nat, nextToken: string, seenTokens: set<string>)
    requires Collecting(server, optional, l, pages, items, totalBytes, nextToken, seenTokens) && |pages| <= l.maxPages
    ensures |pages| == l.maxPages ==> Stops(server, optional, l, pages, Some(PageLimit))
    ensures var fetched := Fetch(server(|pages|, nextToken), optional || |pages| > 0, l.maxPageBytes);
            |pages| < l.maxPages ==>
              && (fetched.Failed? ==> Stops(server, optional, l, pages, Some(fetched.error)))
              && (fetched.NotFound? ==> Stops(server, optional, l, pages, if pages == [] then None else Some(Incomplete)))
  {
    hide Follows, TotalBytes, AllItems, DistinctTokens;
  }

  lemma StopsAtPage<T>(server: Server<T>, optional: bool, l: Limits, pages: seq<Page<T>>, items: seq<T>, totalBytes: nat, nextToken: string, seenTokens: set<string>, page: Page<T>)
    requires Collecting(server, optional, l, pages, items, totalBytes, nextToken, seenTokens) && |pages| < l.maxPages
    requires Fetch(server(|pages|, nextToken), optional || |pages| > 0, l.maxPageBytes) == Found(page)
    ensures if totalBytes + page.bytes > l.maxTotalBytes then Stops(server, optional, l, pages, Some(TotalBytesLimit))
            else if |items| + |page.items| > l.maxItems then Stops(server, optional, l, pages, Some(ItemLimit))
            else if |page.continue_| > MaxTokenBytes then Stops(server, optional, l, pages, Some(TokenInvalid))
            else page.continue_ != "" && page.continue_ in seenTokens ==> Stops(server, optional, l, pages, Some(TokenLoop))
  {
    hide Follows, TotalBytes, AllItems, DistinctTokens;
  }

  /** One more page: it can end the list, block it, or be added. */
  lemma CollectingStep<T>(server: Server<T>, optional: bool, l: Limits, pages: seq<Page<T>>, items: seq<T>, totalBytes: nat, nextToken: string, seenTokens: set<string>, page: Page<T>)
    requires Collecting(server, optional, l, pages, items, totalBytes, nextToken, seenTokens) && |pages| < l.maxPages
    requires Fetch(server(|pages|, nextToken), optional || |pages| > 0, l.maxPageBytes) == Found(page)
    ensures var after := pages + [page];
            var over := totalBytes + page.bytes > l.maxTotalBytes || |items| + |page.items| > l.maxItems;
            && (over ==> Blocked(server, optional, l, after))
            && (!over && page.continue_ == "" ==> Acceptable(server, optional, l, after) && AllItems(after) == items + page.items)
            && (page.continue_ != "" && (|page.continue_| > MaxTokenBytes || page.continue_ in seenTokens) ==> Blocked(server, optional, l, after))
            && (page.continue_ != "" && page.continue_ in seenTokens ==> SawTwice(server, optional, l, after))
            && (!over && page.continue_ != "" && |page.continue_| <= MaxTokenBytes && page.continue_ !in seenTokens ==>
                  Collecting(server, optional, l, after, items + page.items, totalBytes + page.bytes, page.continue_, seenTokens + {page.continue_}))
  {
    hide Fetch, Follows;
    var after := pages + [page];
    var n := |pages|;
    NextFollows(server, optional, l, pages, page);
    assert after[..n] == pages && after[n] == page;
    if page.continue_ in seenTokens {
      var i :| 0 <= i < n && pages[i].continue_ == page.continue_;
      assert after[i].continue_ == after[n].continue_;
    } else {
      assert |page.continue_| <= MaxTokenBytes ==> DistinctTokens(after, |after|);
    }
    assert DistinctTokens(after, n);
  }

  lemma NextFollows<T>(server: Server<T>, optional: bool, l: Limits, pages: seq<Page<T>>, page: Page<T>)
    requires Follows(server, optional, l, pages) && forall i :: 0 <= i < |pages| ==> pages[i].continue_ != ""
    requires Fetch(server(|pages|, Token(pages, |pages|)), optional || |pages| > 0, l.maxPageBytes) == Found(page)
    ensures Follows(server, optional, l, pages + [page])
  {
    hide Fetch;
    var after := pages + [page];
    forall i: nat | i < |after|
      ensures BringsAt(server, optional, l, after, i)
    {
      if i < |pages| {
        assert BringsAt(server, optional, l, pages, i);
      }
    }
  }

  // ----- servers that map tokens to pages -----

  ghost predicate Stateless<T>(server: Server<T>) {
    forall n: nat, m: nat, token :: server(n, token) == server(m, token)
  }

  /** The pages after a token depend on the token only: suffixes after equal tokens agree. */
  lemma {:induction false} SuffixesAgree<T>(server: Server<T>, optional: bool, l: Limits, pages: seq<Page<T>>, i: nat, j: nat, k: nat)
    requires Stateless(server) && Chain(server, optional, l, pages)
    requires 0 < i < j && j + k <= |pages| && pages[i - 1].continue_ == pages[j - 1].continue_
    ensures k > 0 ==> pages[i + k - 1] == pages[j + k - 1]
  {
    if k > 0 {
      SuffixesAgree(server, optional, l, pages, i, j, k - 1);
      assert Token(pages, i + k - 1) == Token(pages, j + k - 1);
      assert BringsAt(server, optional, l, pages, i + k - 1) && BringsAt(server, optional, l, pages, j + k - 1);
    }
  }

  /** On such a server a finite list never repeats a token, so the loop check rejects only endless ones. */
  lemma FiniteListsDoNotRepeat<T>(server: Server<T>, optional: bool, l: Limits, pages: seq<Page<T>>)
    requires Stateless(server) && Chain(server, optional, l, pages)
    ensures forall i, j :: 0 <= i < j < |pages| - 1 ==> pages[i].continue_ != pages[j].continue_
  {
    forall i, j | 0 <= i < j < |pages| - 1
      ensures pages[i].continue_ != pages[j].continue_
    {
      if pages[i].continue_ == pages[j].continue_ {
        SuffixesAgree(server, optional, l, pages, i + 1, j + 1, |pages| - j - 1);
      }
    }
  }

  /** So the client agrees with the naive chase: it accepts exactly the finite lists within the limits whose
      tokens are short enough. */
  lemma StatelessAcceptance<T>(server: Server<T>, optional: bool, l: Limits, pages: seq<Page<T>>)
    requires Stateless(server)
    ensures Acceptable(server, optional, l, pages) <==>
              && Chain(server, optional, l, pages) && WithinLimits(l, pages)
              && forall i :: 0 <= i < |pages| - 1 ==> |pages[i].continue_| <= 4096
  {
    if Chain(server, optional, l, pages) {
      FiniteListsDoNotRepeat(server, optional, l, pages);
    }
  }

  /** And a token seen twice means that the list never ends. */
  lemma RepeatMeansEndless<T>(server: Server<T>, optional: bool, l: Limits, seen: seq<Page<T>>)
    requires Stateless(server) && SawTwice(server, optional, l, seen)
    ensures forall pages :: !Chain(server, optional, l, pages)
  {
    forall pages | Chain(server, optional, l, pages)
      ensures false
    {
      var i, j :| 0 <= i < j < |seen| && seen[i].continue_ == seen[j].continue_ != "";
      ChainExtends(server, optional, l, seen, pages);
      assert pages[..|seen|][i] == seen[i] && pages[..|seen|][j] == seen[j];
      FiniteListsDoNotRepeat(server, optional, l, pages);
    }
  }
}
