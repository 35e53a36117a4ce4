/** The web2 client's data hooks: the cursor its infinite queries follow
    (`getNextPageParam`, `initialPageParam`), when a query may run, and the
    cache key and request of each query. */
module Web2Hooks {
  import opened Wrappers
  import opened Text
  import opened Uri
  import opened Web2Api

  /** The page counters of a paged response: `page` and `total_pages`. */
  datatype PageInfo = PageInfo(page: int, totalPages: int)

  const INITIAL_PAGE_PARAM := 1

  /** `getNextPageParam`: the next page while the last one fetched is not the
      last page, else none. */
  function NextPageParam(last: PageInfo): Option<int>
  {
    if last.page < last.totalPages then Some(last.page + 1) else None
  }

  /** There is a next page exactly while `page < total_pages`, and it is the
      following page, never past the last; a server with no pages, or the last
      page reached, ends the query. */
  lemma {:induction false} NextPageParamIff(last: PageInfo)
    ensures NextPageParam(last).Some? <==> last.page < last.totalPages
    ensures NextPageParam(last).Some? ==>
      NextPageParam(last).value == last.page + 1 && NextPageParam(last).value <= last.totalPages
    ensures last.totalPages == 0 && last.page >= 0 ==> NextPageParam(last).None?
    ensures last.page == last.totalPages ==> NextPageParam(last).None?
  {
  }

  /** The pages an infinite query fetches when it keeps following
      `getNextPageParam` from `page` and the server's page count stays put. */
  function PagesFrom(page: int, totalPages: int): seq<int>
    decreases totalPages - page
  {
    match NextPageParam(PageInfo(page, totalPages))
    case None => [page]
    case Some(next) => [page] + PagesFrom(next, totalPages)
  }

  lemma {:induction false} PagesFromRun(page: int, totalPages: int)
    requires page <= totalPages
    ensures PagesFrom(page, totalPages) == seq(totalPages - page + 1, i => page + i)
    decreases totalPages - page
  {
    if page < totalPages {
      PagesFromRun(page + 1, totalPages);
    }
  }

  /** The pages an infinite query fetches once the server reports
      `totalPages`, starting at its first page. */
  function PagesFetched(q: InfiniteQuery, totalPages: int): seq<int>
  {
    PagesFrom(q.initialPageParam, totalPages)
  }

  /** One element of a query key. */
  datatype KeyPart = Name(name: string) | Number(n: int)

  /** The options of an infinite query: cache key, first page, whether it may
      run, and the request sent for a page. */
  datatype InfiniteQuery = InfiniteQuery(key: seq<KeyPart>, initialPageParam: int, enabled: bool, request: int -> string)

  /** The options of a plain query. */
  datatype Query = Query(key: seq<KeyPart>, enabled: bool, request: string)

  /** `!!query.trim()`. */
  predicate SearchEnabled(query: string) {
    Strip(query, JavaScript) != ""
  }

  /** `useInfiniteTimeline(size = 10)`. */
  function UseInfiniteTimeline(size: Option<int>): InfiniteQuery
  {
    var s := Arg(size, 10);
    InfiniteQuery([Name("timeline"), Number(s)], INITIAL_PAGE_PARAM, true, page => TimelinePath(Some(page), Some(s)))
  }

  /** `useInfiniteItems(size = 20)`. */
  function UseInfiniteItems(size: Option<int>): InfiniteQuery
  {
    var s := Arg(size, 20);
    InfiniteQuery([Name("items"), Number(s)], INITIAL_PAGE_PARAM, true, page => ItemsPath(Some(page), Some(s)))
  }

  /** `useInfiniteSearch(query, size = 20)`: no sort is passed, so the request
      takes `api.search`'s default. */
  function UseInfiniteSearch(query: string, size: Option<int>): InfiniteQuery
  {
    var s := Arg(size, 20);
    InfiniteQuery([Name("search"), Name(query), Number(s)], INITIAL_PAGE_PARAM, SearchEnabled(query),
                  page => SearchPath(query, Some(page), Some(s), None))
  }

  /** `useHealth()`. */
  function UseHealth(): Query { Query([Name("health")], true, HEALTH_PATH) }

  /** `useLucky()`: runs only when refetched by hand. */
  function UseLucky(): Query { Query([Name("lucky")], false, LUCKY_PATH) }

  /** `useTimeline(page = 1, size = 10)`. */
  function UseTimeline(page: Option<int>, size: Option<int>): Query
  {
    var p, s := Arg(page, 1), Arg(size, 10);
    Query([Name("timeline"), Number(p), Number(s)], true, TimelinePath(Some(p), Some(s)))
  }

  /** `useItems(page = 1, size = 20)`. */
  function UseItems(page: Option<int>, size: Option<int>): Query
  {
    var p, s := Arg(page, 1), Arg(size, 20);
    Query([Name("items"), Number(p), Number(s)], true, ItemsPath(Some(p), Some(s)))
  }

  /** `useSearch(query, page = 1, size = 20)`. */
  function UseSearch(query: string, page: Option<int>, size: Option<int>): Query
  {
    var p, s := Arg(page, 1), Arg(size, 20);
    Query([Name("search"), Name(query), Number(p), Number(s)], SearchEnabled(query), SearchPath(query, Some(p), Some(s), None))
  }

  /** Each infinite hook (timeline, items, search) starts at page 1 and, following
      `getNextPageParam`, fetches pages 1, 2, ..., `total_pages` in order, each
      once with none skipped; with no pages at all it fetches page 1 only. */
  lemma {:induction false} PagesVisited(query: string, size: Option<int>, totalPages: int)
    ensures totalPages >= 1 ==> PagesFetched(UseInfiniteTimeline(size), totalPages) == seq(totalPages, i => i + 1)
    ensures totalPages >= 1 ==> PagesFetched(UseInfiniteItems(size), totalPages) == seq(totalPages, i => i + 1)
    ensures totalPages >= 1 ==> PagesFetched(UseInfiniteSearch(query, size), totalPages) == seq(totalPages, i => i + 1)
    ensures totalPages < 1 ==> PagesFetched(UseInfiniteTimeline(size), totalPages) == [1]
    ensures totalPages < 1 ==> PagesFetched(UseInfiniteItems(size), totalPages) == [1]
    ensures totalPages < 1 ==> PagesFetched(UseInfiniteSearch(query, size), totalPages) == [1]
  {
    if totalPages >= 1 {
      PagesFromRun(1, totalPages);
    }
  }

  lemma {:induction false} One()
    ensures IntToString(1) == "1"
  {
  }

  /** The infinite timeline's first request asks for page 1 at the chosen size. */
  lemma {:induction false} InfiniteTimelineFirstRequest(size: Option<int>)
    ensures ParseUrl(UseInfiniteTimeline(size).request(1)) ==
      ("/api/v1/timeline", [("page", "1"), ("size", IntToString(Arg(size, 10)))])
  {
    var s := Arg(size, 10);
    assert UseInfiniteTimeline(size).request(1) == TimelinePath(Some(1), Some(s));
    TimelineParams(Some(1), Some(s));
    One();
  }

  /** The infinite item list's first request asks for page 1 at the chosen size. */
  lemma {:induction false} InfiniteItemsFirstRequest(size: Option<int>)
    ensures ParseUrl(UseInfiniteItems(size).request(1)) ==
      ("/api/v1/items", [("page", "1"), ("size", IntToString(Arg(size, 20)))])
  {
    var s := Arg(size, 20);
    assert UseInfiniteItems(size).request(1) == ItemsPath(Some(1), Some(s));
    ItemsParams(Some(1), Some(s));
    One();
  }

  /** A search runs exactly when its query holds something besides whitespace. */
  lemma {:induction false} SearchEnabledIff(query: string, page: Option<int>, size: Option<int>)
    ensures UseInfiniteSearch(query, size).enabled <==> !AllSpace(query, JavaScript)
    ensures UseSearch(query, page, size).enabled <==> !AllSpace(query, JavaScript)
  {
    StripEmpty(query, JavaScript);
  }

  lemma {:induction false} SearchRequestPath(query: string, size: Option<int>, page: int)
    ensures UseInfiniteSearch(query, size).request(page) == SearchPath(query, Some(page), Some(Arg(size, 20)), None)
    ensures '&' !in Arg(None, "date")
  {
  }

  /** The request an infinite search sends for a page carries the query (decoding
      back to it), that page, the size, and the default sort, `date`. */
  lemma {:induction false} InfiniteSearchRequest(query: string, size: Option<int>, page: int)
    ensures ParseUrl(UseInfiniteSearch(query, size).request(page)) ==
      ("/api/v1/search", [("q", EncodeURIComponent(query)), ("page", IntToString(page)),
                          ("size", IntToString(Arg(size, 20))), ("sort", "date")])
    ensures DecodeURIComponent(EncodeURIComponent(query)) == Some(query)
  {
    var s := Arg(size, 20);
    var url := SearchPath(query, Some(page), Some(s), None);
    assert UseInfiniteSearch(query, size).request(page) == url by {
      SearchRequestPath(query, size, page);
    }
    assert ParseUrl(url) == ("/api/v1/search", [("q", EncodeURIComponent(query)), ("page", IntToString(page)),
                                                ("size", IntToString(s)), ("sort", "date")]) by {
      SearchRequestPath(query, size, page);
      SearchParams(query, Some(page), Some(s), None);
    }
    EncodeDecode(query);
  }

  /** The search cache key is the query and the size alone: two searches with
      the same key send the same request for every page. */
  lemma {:induction false} SearchKeyDeterminesRequest(q1: string, s1: Option<int>, q2: string, s2: Option<int>)
    requires UseInfiniteSearch(q1, s1).key == UseInfiniteSearch(q2, s2).key
    ensures q1 == q2 && Arg(s1, 20) == Arg(s2, 20)
    ensures forall page :: UseInfiniteSearch(q1, s1).request(page) == UseInfiniteSearch(q2, s2).request(page)
  {
    var k1, k2 := UseInfiniteSearch(q1, s1).key, UseInfiniteSearch(q2, s2).key;
    assert k1[1] == Name(q1) && k2[1] == Name(q2);
    assert k1[2] == Number(Arg(s1, 20)) && k2[2] == Number(Arg(s2, 20));
  }

  /** Infinite and single-page queries of the same data never share a cache key. */
  lemma {:induction false} KeysDistinct(size1: Option<int>, page: Option<int>, size2: Option<int>, query: string)
    ensures UseInfiniteTimeline(size1).key != UseTimeline(page, size2).key
    ensures UseInfiniteItems(size1).key != UseItems(page, size2).key
    ensures UseInfiniteSearch(query, size1).key != UseSearch(query, page, size2).key
  {
    assert |UseInfiniteTimeline(size1).key| != |UseTimeline(page, size2).key|;
    assert |UseInfiniteItems(size1).key| != |UseItems(page, size2).key|;
    assert |UseInfiniteSearch(query, size1).key| != |UseSearch(query, page, size2).key|;
  }

  /** The lucky query never runs on its own and health runs at once; each asks
      for its own endpoint with no query parameters, under its own cache key. The
      timeline and item lists run at once too. */
  lemma {:induction false} OnlyLuckyIsManual(page: Option<int>, size: Option<int>)
    ensures !UseLucky().enabled && ParseUrl(UseLucky().request) == ("/api/v1/lucky", [])
    ensures UseHealth().enabled && ParseUrl(UseHealth().request) == ("/api/v1/health", [])
    ensures UseLucky().key != UseHealth().key
    ensures UseTimeline(page, size).enabled && UseItems(page, size).enabled
    ensures UseInfiniteTimeline(size).enabled && UseInfiniteItems(size).enabled
  {
    assert '?' !in LUCKY_PATH && '?' !in HEALTH_PATH;
    ParseUrlPlain(LUCKY_PATH);
    ParseUrlPlain(HEALTH_PATH);
    assert UseLucky().key[0].name[0] != UseHealth().key[0].name[0];
  }
}
