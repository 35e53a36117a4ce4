/** The web2 client's API layer: the base URL, `fetchApi`'s mapping of a
    response to a value or an `ApiError`, and the endpoint paths with their
    default arguments. `fetch` itself is a parameter. */
module Web2Api {
  import opened Wrappers
  import opened Text
  import opened Uri

  const DEFAULT_API_BASE_URL := "http://localhost:8000"

  /** `process.env.NEXT_PUBLIC_API_URL || 'http://localhost:8000'`: an unset or
      empty variable falls back to the local server. */
  function ApiBaseUrl(env: Option<string>): (base: string)
    ensures base != ""
    ensures env.Some? && env.value != "" ==> base == env.value
    ensures env.None? || env.value == "" ==> base == DEFAULT_API_BASE_URL
  {
    if env.Some? && env.value != "" then env.value else DEFAULT_API_BASE_URL
  }

  /** The error `fetchApi` throws. */
  datatype ApiError = ApiError(status: int, message: string)

  /** What `fetch` resolves to; `body` is what `response.json()` yields. */
  datatype Response<T> = Response(ok: bool, status: int, statusText: string, body: T)

  const ERROR_PREFIX := "API Error: "

  /** `fetchApi(endpoint)` against `base`, with `fetch` as a parameter. */
  function FetchApi<T>(base: string, endpoint: string, fetch: string -> Response<T>): Result<T, ApiError>
  {
    var response := fetch(base + endpoint);
    if !response.ok then Err(ApiError(response.status, ERROR_PREFIX + response.statusText))
    else Ok(response.body)
  }

  /** The request goes to base + endpoint; an OK response yields its body, any
      other an `ApiError` with the response's status whose message is the
      prefix followed by the status text, which can be read back from it. */
  lemma {:induction false} FetchApiOutcome<T>(base: string, endpoint: string, fetch: string -> Response<T>)
    ensures var response := fetch(base + endpoint);
      var r := FetchApi(base, endpoint, fetch);
      (r.Ok? <==> response.ok) &&
      (r.Ok? ==> r.value == response.body) &&
      (r.Err? ==>
         (r.error.status == response.status &&
          r.error.message[..|ERROR_PREFIX|] == ERROR_PREFIX &&
          r.error.message[|ERROR_PREFIX|..] == response.statusText))
  {
  }

  /** A JavaScript default parameter: an omitted argument takes the default. */
  function Arg<T>(a: Option<T>, default: T): T
  {
    if a.Some? then a.value else default
  }

  const HEALTH_PATH := "/api/v1/health"
  const LUCKY_PATH := "/api/v1/lucky"

  /** `api.timeline(page = 1, size = 10)`. */
  function TimelinePath(page: Option<int>, size: Option<int>): string
  {
    "/api/v1/timeline?page=" + IntToString(Arg(page, 1)) + "&size=" + IntToString(Arg(size, 10))
  }

  /** `api.items(page = 1, size = 20)`. */
  function ItemsPath(page: Option<int>, size: Option<int>): string
  {
    "/api/v1/items?page=" + IntToString(Arg(page, 1)) + "&size=" + IntToString(Arg(size, 20))
  }

  /** `api.search(query, page = 1, size = 20, sort = 'date')`. */
  function SearchPath(query: string, page: Option<int>, size: Option<int>, sort: Option<string>): string
  {
    "/api/v1/search?q=" + EncodeURIComponent(query) + "&page=" + IntToString(Arg(page, 1)) +
    "&size=" + IntToString(Arg(size, 20)) + "&sort=" + Arg(sort, "date")
  }

  /** `api.sources(page = 1, size = 20)`. */
  function SourcesPath(page: Option<int>, size: Option<int>): string
  {
    "/api/v1/sources?page=" + IntToString(Arg(page, 1)) + "&size=" + IntToString(Arg(size, 20))
  }

  /** `api.searchSources(query, page = 1, size = 20, sort = 'date')`. */
  function SearchSourcesPath(query: string, page: Option<int>, size: Option<int>, sort: Option<string>): string
  {
    "/api/v1/sources/search?q=" + EncodeURIComponent(query) + "&page=" + IntToString(Arg(page, 1)) +
    "&size=" + IntToString(Arg(size, 20)) + "&sort=" + Arg(sort, "date")
  }

  /** `api.sourceItems(sourceName, page = 1, size = 20)`: always sorted by time. */
  function SourceItemsPath(sourceName: string, page: Option<int>, size: Option<int>): string
  {
    "/api/v1/sources/" + EncodeURIComponent(sourceName) + "/items?page=" + IntToString(Arg(page, 1)) +
    "&size=" + IntToString(Arg(size, 20)) + "&sort=time"
  }

  /** A numeral holds no `&`, so it cannot end its query field early. */
  lemma {:induction false} NumeralSafe(n: int)
    ensures '&' !in IntToString(n) && '=' !in IntToString(n)
  {
    var s := IntToString(n);
    if n < 0 {
      assert s == "-" + NatToString(-n);
      assert forall i :: 1 <= i < |s| ==> s[i] == NatToString(-n)[i - 1];
    }
  }

  /** The first parameter follows the path as `?key=value`. */
  lemma {:induction false} OneField(path: string, k: string, v: string)
    ensures Url(path, [(k, v)]) == (path + "?" + k + "=") + v
  {
  }

  /** One more parameter adds `&key=value` at the end. */
  lemma {:induction false} AddField(path: string, params: seq<(string, string)>, k: string, v: string)
    requires params != []
    ensures Url(path, params + [(k, v)]) == Url(path, params) + ("&" + k + "=") + v
  {
    var fields := seq(|params|, i requires 0 <= i < |params| => Field(params[i]));
    var more := params + [(k, v)];
    var moreFields := seq(|more|, i requires 0 <= i < |more| => Field(more[i]));
    assert moreFields == fields + [k + "=" + v] by {
      assert forall i :: 0 <= i < |params| ==> moreFields[i] == fields[i];
    }
    JoinSnoc(fields, k + "=" + v, "&");
    AppendField(path + "?", QueryString(params), k, v);
  }

  lemma {:induction false} AppendField(pre: string, q: string, k: string, v: string)
    ensures pre + (q + "&" + (k + "=" + v)) == pre + q + ("&" + k + "=") + v
  {
  }

  lemma {:induction false} JoinSnoc(parts: seq<string>, p: string, sep: string)
    requires parts != []
    ensures Join(parts + [p], sep) == Join(parts, sep) + sep + p
  {
    if |parts| == 1 {
      assert (parts + [p])[1..] == [p];
    } else {
      JoinSnoc(parts[1..], p, sep);
      assert (parts + [p])[1..] == parts[1..] + [p];
    }
  }

  /** A two-field URL laid out as `pre v1 sep2 v2` parses back to its path and fields. */
  lemma {:induction false} TwoFieldUrl(path: string, pre: string, sep2: string,
                                       k1: string, v1: string, k2: string, v2: string)
    requires pre == path + "?" + k1 + "=" && sep2 == "&" + k2 + "="
    requires '?' !in path && SafeParam((k1, v1)) && SafeParam((k2, v2))
    ensures ParseUrl(pre + v1 + sep2 + v2) == (path, [(k1, v1), (k2, v2)])
  {
    OneField(path, k1, v1);
    AddField(path, [(k1, v1)], k2, v2);
    assert [(k1, v1)] + [(k2, v2)] == [(k1, v1), (k2, v2)];
    UrlRoundTrip(path, [(k1, v1), (k2, v2)]);
  }

  /** A four-field URL laid out as `pre v1 sep2 v2 sep3 v3 sep4 v4` parses back
      to its path and fields. */
  lemma {:induction false} FourFieldUrl(path: string, pre: string, sep2: string, sep3: string, sep4: string,
                                        k1: string, v1: string, k2: string, v2: string,
                                        k3: string, v3: string, k4: string, v4: string)
    requires pre == path + "?" + k1 + "=" && sep2 == "&" + k2 + "="
    requires sep3 == "&" + k3 + "=" && sep4 == "&" + k4 + "="
    requires '?' !in path && SafeParam((k1, v1)) && SafeParam((k2, v2))
    requires SafeParam((k3, v3)) && SafeParam((k4, v4))
    ensures ParseUrl(pre + v1 + sep2 + v2 + sep3 + v3 + sep4 + v4) ==
      (path, [(k1, v1), (k2, v2), (k3, v3), (k4, v4)])
  {
    var f1, f2, f3 := [(k1, v1)], [(k1, v1), (k2, v2)], [(k1, v1), (k2, v2), (k3, v3)];
    OneField(path, k1, v1);
    AddField(path, f1, k2, v2);
    assert f1 + [(k2, v2)] == f2;
    AddField(path, f2, k3, v3);
    assert f2 + [(k3, v3)] == f3;
    AddField(path, f3, k4, v4);
    assert f3 + [(k4, v4)] == [(k1, v1), (k2, v2), (k3, v3), (k4, v4)];
    UrlRoundTrip(path, [(k1, v1), (k2, v2), (k3, v3), (k4, v4)]);
  }

  /** The timeline request carries page and size, 1 and 10 when omitted. */
  lemma {:induction false} TimelineParams(page: Option<int>, size: Option<int>)
    ensures ParseUrl(TimelinePath(page, size)) ==
      ("/api/v1/timeline", [("page", IntToString(Arg(page, 1))), ("size", IntToString(Arg(size, 10)))])
  {
    var p, s := IntToString(Arg(page, 1)), IntToString(Arg(size, 10));
    NumeralSafe(Arg(page, 1));
    NumeralSafe(Arg(size, 10));
    assert "/api/v1/timeline?page=" == "/api/v1/timeline" + "?" + "page" + "=";
    assert "&size=" == "&" + "size" + "=";
    TwoFieldUrl("/api/v1/timeline", "/api/v1/timeline?page=", "&size=", "page", p, "size", s);
  }

  /** The items request carries page and size, 1 and 20 when omitted. */
  lemma {:induction false} ItemsParams(page: Option<int>, size: Option<int>)
    ensures ParseUrl(ItemsPath(page, size)) ==
      ("/api/v1/items", [("page", IntToString(Arg(page, 1))), ("size", IntToString(Arg(size, 20)))])
  {
    var p, s := IntToString(Arg(page, 1)), IntToString(Arg(size, 20));
    NumeralSafe(Arg(page, 1));
    NumeralSafe(Arg(size, 20));
    assert "/api/v1/items?page=" == "/api/v1/items" + "?" + "page" + "=";
    assert "&size=" == "&" + "size" + "=";
    TwoFieldUrl("/api/v1/items", "/api/v1/items?page=", "&size=", "page", p, "size", s);
  }

  /** The sources request carries page and size, 1 and 20 when omitted. */
  lemma {:induction false} SourcesParams(page: Option<int>, size: Option<int>)
    ensures ParseUrl(SourcesPath(page, size)) ==
      ("/api/v1/sources", [("page", IntToString(Arg(page, 1))), ("size", IntToString(Arg(size, 20)))])
  {
    var p, s := IntToString(Arg(page, 1)), IntToString(Arg(size, 20));
    NumeralSafe(Arg(page, 1));
    NumeralSafe(Arg(size, 20));
    assert "/api/v1/sources?page=" == "/api/v1/sources" + "?" + "page" + "=";
    assert "&size=" == "&" + "size" + "=";
    TwoFieldUrl("/api/v1/sources", "/api/v1/sources?page=", "&size=", "page", p, "size", s);
  }

  /** The separators of the search templates, split into `&`, key and `=`. */
  lemma {:induction false} SearchLiterals(path: string, pre: string)
    requires pre == path + "?q="
    ensures pre == path + "?" + "q" + "="
    ensures "&page=" == "&" + "page" + "=" && "&size=" == "&" + "size" + "=" && "&sort=" == "&" + "sort" + "="
  {
    assert "?q=" == "?" + "q" + "=";
  }

  /** Whatever the query text, the search request has exactly the fields q,
      page, size and sort (sort `date` when omitted), and q decodes back to the
      query; the sort value is sent unencoded, so it must not hold `&`. */
  lemma {:induction false} SearchParams(query: string, page: Option<int>, size: Option<int>, sort: Option<string>)
    requires '&' !in Arg(sort, "date")
    ensures ParseUrl(SearchPath(query, page, size, sort)) ==
      ("/api/v1/search", [("q", EncodeURIComponent(query)), ("page", IntToString(Arg(page, 1))),
                  ("size", IntToString(Arg(size, 20))), ("sort", Arg(sort, "date"))])
    ensures DecodeURIComponent(EncodeURIComponent(query)) == Some(query)
  {
    var q, p, s := EncodeURIComponent(query), IntToString(Arg(page, 1)), IntToString(Arg(size, 20));
    EncodedSafe(query);
    EncodeDecode(query);
    NumeralSafe(Arg(page, 1));
    NumeralSafe(Arg(size, 20));
    SearchLiterals("/api/v1/search", "/api/v1/search?q=");
    FourFieldUrl("/api/v1/search", "/api/v1/search?q=", "&page=", "&size=", "&sort=", "q", q, "page", p, "size", s, "sort", Arg(sort, "date"));
  }

  /** The source search request has the same fields as the item search. */
  lemma {:induction false} SearchSourcesParams(query: string, page: Option<int>, size: Option<int>, sort: Option<string>)
    requires '&' !in Arg(sort, "date")
    ensures ParseUrl(SearchSourcesPath(query, page, size, sort)) ==
      ("/api/v1/sources/search", [("q", EncodeURIComponent(query)), ("page", IntToString(Arg(page, 1))),
                  ("size", IntToString(Arg(size, 20))), ("sort", Arg(sort, "date"))])
    ensures DecodeURIComponent(EncodeURIComponent(query)) == Some(query)
  {
    var q, p, s := EncodeURIComponent(query), IntToString(Arg(page, 1)), IntToString(Arg(size, 20));
    EncodedSafe(query);
    EncodeDecode(query);
    NumeralSafe(Arg(page, 1));
    NumeralSafe(Arg(size, 20));
    SearchLiterals("/api/v1/sources/search", "/api/v1/sources/search?q=");
    FourFieldUrl("/api/v1/sources/search", "/api/v1/sources/search?q=", "&page=", "&size=", "&sort=", "q", q, "page", p, "size", s, "sort", Arg(sort, "date"));
  }

  /** The source items URL in the layout of `Url`. */
  lemma {:induction false} SourceItemsUrl(segment: string, p: string, s: string)
    ensures "/api/v1/sources/" + segment + "/items?page=" + p + "&size=" + s + "&sort=time" ==
      Url("/api/v1/sources/" + segment + "/items", [("page", p), ("size", s), ("sort", "time")])
  {
    var path := "/api/v1/sources/" + segment + "/items";
    var pre := "/api/v1/sources/" + segment;
    assert "/items?page=" == "/items" + ("?" + "page" + "=");
    assert pre + "/items?page=" == path + "?" + "page" + "=";
    assert "&size=" == "&" + "size" + "=";
    assert "&sort=time" == ("&" + "sort" + "=") + "time";
    OneField(path, "page", p);
    AddField(path, [("page", p)], "size", s);
    assert [("page", p)] + [("size", s)] == [("page", p), ("size", s)];
    AddField(path, [("page", p), ("size", s)], "sort", "time");
    assert [("page", p), ("size", s)] + [("sort", "time")] == [("page", p), ("size", s), ("sort", "time")];
  }

  /** A leading piece that ends in its only `/` splits off as one segment. */
  lemma {:induction false} ApiSegments()
    ensures Split("/api", '/') == ["", "api"]
  {
    assert "" + ['/'] + "api" == "/api";
    SplitSnoc("", '/', "api");
  }

  lemma {:induction false} ApiV1Segments()
    ensures Split("/api/v1", '/') == ["", "api", "v1"]
  {
    assert "/api" + ['/'] + "v1" == "/api/v1";
    SplitSnoc("/api", '/', "v1");
    ApiSegments();
  }

  /** The fixed segments before the source's name. */
  lemma {:induction false} PrefixSegments()
    ensures Split("/api/v1/sources", '/') == ["", "api", "v1", "sources"]
  {
    assert "/api/v1" + ['/'] + "sources" == "/api/v1/sources";
    SplitSnoc("/api/v1", '/', "sources");
    ApiV1Segments();
  }

  /** A segment without `/` stays one segment of the source items path. */
  lemma {:induction false} SourceItemsSegments(segment: string)
    requires '/' !in segment
    ensures Split("/api/v1/sources/" + segment + "/items", '/') == ["", "api", "v1", "sources", segment, "items"]
  {
    var pre := "/api/v1/sources";
    assert "/api/v1/sources/" == pre + ['/'];
    assert "/items" == ['/'] + "items";
    assert "/api/v1/sources/" + segment + "/items" == pre + ['/'] + segment + ['/'] + "items";
    SplitSnoc(pre + ['/'] + segment, '/', "items");
    SplitSnoc(pre, '/', segment);
    PrefixSegments();
  }

  /** The source's name is one path segment, whatever it holds, and decodes
      back to the name; the request always asks for `sort=time`. */
  lemma {:induction false} SourceItemsParams(sourceName: string, page: Option<int>, size: Option<int>)
    ensures var (path, params) := ParseUrl(SourceItemsPath(sourceName, page, size));
      var segment := EncodeURIComponent(sourceName);
      path == "/api/v1/sources/" + segment + "/items" &&
      Split(path, '/') == ["", "api", "v1", "sources", segment, "items"] &&
      DecodeURIComponent(segment) == Some(sourceName) &&
      params == [("page", IntToString(Arg(page, 1))), ("size", IntToString(Arg(size, 20))), ("sort", "time")]
  {
    var segment := EncodeURIComponent(sourceName);
    var path := "/api/v1/sources/" + segment + "/items";
    var p, s := IntToString(Arg(page, 1)), IntToString(Arg(size, 20));
    EncodedSafe(sourceName);
    EncodeDecode(sourceName);
    NumeralSafe(Arg(page, 1));
    NumeralSafe(Arg(size, 20));
    assert '?' !in path;
    SourceItemsUrl(segment, p, s);
    UrlRoundTrip(path, [("page", p), ("size", s), ("sort", "time")]);
    SourceItemsSegments(segment);
  }
}
