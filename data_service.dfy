/** The backend's in-memory data service: it flattens the crawled snapshot into
    items, buckets them by day into a newest-first timeline, and serves pages of
    the timeline, of the items and of fuzzy-search results.

    Dates are day numbers; `parse` stands for `datetime.fromisoformat` on the
    date part of a timestamp (None where it raises), and `score` for the
    fuzzywuzzy scorer. */
module DataServiceModel {
  import opened Wrappers
  import opened Ordering
  import opened Grouping
  import opened Text

  datatype JSONItem = JSONItem(name: string, source: string, description: string, time: string)
  datatype JSONList = JSONList(name: string, description: string, source: string, items: seq<JSONItem>)
  datatype JSONData = JSONData(lists: seq<JSONList>)

  datatype AppItem = AppItem(
    name: string, description: string, source: string,
    listName: string, listSource: string, time: int)

  /** One day of the timeline. */
  type AppDayData = Bucket<AppItem>

  function TimeOf(x: AppItem): int { x.time }

  /** The item built from one raw item of list `l`, when its date part parses. */
  function ToAppItem(l: JSONList, it: JSONItem, parse: string -> Option<int>): (r: Option<AppItem>)
    ensures r.Some? <==> parse(DatePart(it.time)).Some?
    ensures r.Some? ==> r.value == AppItem(it.name, it.description, it.source, l.name, l.source,
                                           parse(DatePart(it.time)).value)
  {
    match parse(DatePart(it.time))
    case None => None
    case Some(t) => Some(AppItem(it.name, it.description, it.source, l.name, l.source, t))
  }

  /** The items built from the first raw items `its` of list `l`, in order. */
  function ListItems(l: JSONList, its: seq<JSONItem>, parse: string -> Option<int>): (r: seq<AppItem>)
    ensures |r| <= |its|
  {
    if its == [] then []
    else
      var last := ToAppItem(l, its[|its| - 1], parse);
      ListItems(l, its[..|its| - 1], parse) + (if last.Some? then [last.value] else [])
  }

  /** The items of all lists, list by list and item by item. */
  function ProcessedItems(lists: seq<JSONList>, parse: string -> Option<int>): seq<AppItem>
  {
    if lists == [] then []
    else ProcessedItems(lists[..|lists| - 1], parse) + ListItems(lists[|lists| - 1], lists[|lists| - 1].items, parse)
  }

  /** One more raw item of a list adds its converted item, if any. */
  lemma {:induction false} ListItemsStep(l: JSONList, j: int, parse: string -> Option<int>)
    requires 0 <= j < |l.items|
    ensures var c := ToAppItem(l, l.items[j], parse);
      ListItems(l, l.items[..j + 1], parse) == ListItems(l, l.items[..j], parse) + (if c.Some? then [c.value] else [])
  {
    assert l.items[..j + 1][..j] == l.items[..j];
  }

  /** One more list adds all its converted items. */
  lemma {:induction false} ProcessedItemsStep(lists: seq<JSONList>, i: int, parse: string -> Option<int>)
    requires 0 <= i < |lists|
    ensures ProcessedItems(lists[..i + 1], parse) ==
      ProcessedItems(lists[..i], parse) + ListItems(lists[i], lists[i].items, parse)
  {
    assert lists[..i + 1][..i] == lists[..i];
    assert lists[i].items[..|lists[i].items|] == lists[i].items;
  }

  function TotalItems(lists: seq<JSONList>): nat
  {
    if lists == [] then 0 else TotalItems(lists[..|lists| - 1]) + |lists[|lists| - 1].items|
  }

  /** Every item built from list `l` is an item of `l` tagged with `l`'s name and
      source, timed by the parsed date part of its timestamp. */
  lemma {:induction false} ListItemsOrigin(l: JSONList, its: seq<JSONItem>, parse: string -> Option<int>, x: AppItem)
    requires x in ListItems(l, its, parse)
    ensures exists it :: (it in its && parse(DatePart(it.time)) == Some(x.time) &&
      x == AppItem(it.name, it.description, it.source, l.name, l.source, x.time))
  {
    var last := its[|its| - 1];
    if x in ListItems(l, its[..|its| - 1], parse) {
      ListItemsOrigin(l, its[..|its| - 1], parse, x);
      var it :| it in its[..|its| - 1] && parse(DatePart(it.time)) == Some(x.time) &&
        x == AppItem(it.name, it.description, it.source, l.name, l.source, x.time);
      assert it in its;
    } else {
      assert x == ToAppItem(l, last, parse).value;
    }
  }

  /** `_process_data`: each item comes from an item of some list, carries that
      list's name and source, and its time is the parsed date part; the item count
      never exceeds the number of raw items. */
  lemma {:induction false} ProcessedItemsOrigin(lists: seq<JSONList>, parse: string -> Option<int>)
    ensures |ProcessedItems(lists, parse)| <= TotalItems(lists)
    ensures forall x :: x in ProcessedItems(lists, parse) ==>
      exists l, it :: l in lists && it in l.items && parse(DatePart(it.time)) == Some(x.time) &&
        x == AppItem(it.name, it.description, it.source, l.name, l.source, x.time)
  {
    if lists != [] {
      var init := lists[..|lists| - 1];
      var l := lists[|lists| - 1];
      ProcessedItemsOrigin(init, parse);
      forall x | x in ProcessedItems(lists, parse)
        ensures exists l, it :: (l in lists && it in l.items && parse(DatePart(it.time)) == Some(x.time) &&
          x == AppItem(it.name, it.description, it.source, l.name, l.source, x.time))
      {
        if x in ProcessedItems(init, parse) {
          var l', it :| l' in init && it in l'.items && parse(DatePart(it.time)) == Some(x.time) &&
            x == AppItem(it.name, it.description, it.source, l'.name, l'.source, x.time);
          assert l' in lists;
        } else {
          ListItemsOrigin(l, l.items, parse, x);
        }
      }
    }
  }

  lemma {:induction false} ListItemsAllParse(l: JSONList, its: seq<JSONItem>, parse: string -> Option<int>)
    requires forall it :: it in its ==> parse(DatePart(it.time)).Some?
    ensures |ListItems(l, its, parse)| == |its|
  {
    if its != [] {
      assert its[|its| - 1] in its;
      ListItemsAllParse(l, its[..|its| - 1], parse);
    }
  }

  /** Where every timestamp parses, no item is skipped. */
  lemma {:induction false} ProcessedItemsAllParse(lists: seq<JSONList>, parse: string -> Option<int>)
    requires forall l, it :: l in lists && it in l.items ==> parse(DatePart(it.time)).Some?
    ensures |ProcessedItems(lists, parse)| == TotalItems(lists)
  {
    if lists != [] {
      assert lists[|lists| - 1] in lists;
      ProcessedItemsAllParse(lists[..|lists| - 1], parse);
      ListItemsAllParse(lists[|lists| - 1], lists[|lists| - 1].items, parse);
    }
  }

  /** The runs of the items sorted by time: `groupby(sorted(items, key=time))`. */
  function DayRuns(items: seq<AppItem>): seq<seq<AppItem>>
  {
    GroupRuns(SortBy(items, TimeOf, Before), TimeOf)
  }

  /** The timeline `_build_timeline` computes from `items`. */
  function Timeline(items: seq<AppItem>): seq<AppDayData>
  {
    if items == [] then [] else SortBy(BucketsOf(DayRuns(items), TimeOf), DateOf, After)
  }

  /** The timeline is the day-bucketing of the items: buckets are non-empty,
      carry their items' date, keep input order, have strictly decreasing dates,
      and partition the items. */
  lemma {:induction false} TimelineIsBucketing(items: seq<AppItem>)
    ensures IsBucketing(items, Timeline(items), TimeOf)
  {
    if items != [] {
      var runs := DayRuns(items);
      IntOrdersStrictTotal();
      SortedRuns(items, TimeOf, Before);
      forall i, j | 0 <= i < j < |runs| ensures TimeOf(runs[i][0]) != TimeOf(runs[j][0]) {
        assert Before(TimeOf(runs[i][0]), TimeOf(runs[j][0]));
      }
      SortedBucketing(items, runs, TimeOf);
    }
  }

  /** The timeline is empty exactly when there are no items. */
  lemma {:induction false} TimelineEmpty(items: seq<AppItem>)
    ensures Timeline(items) == [] <==> items == []
  {
    if items != [] {
      TimelineIsBucketing(items);
      assert items[0] in items;
    }
  }

  /** Python's `s[(page - 1) * size : page * size]` for `page >= 1`. */
  function PageSlice<T>(s: seq<T>, page: int, size: int): (r: seq<T>)
    requires page >= 1 && size >= 1
    ensures |r| <= size
    ensures |r| == if (page - 1) * size >= |s| then 0 else Min(size, |s| - (page - 1) * size)
    ensures forall k :: 0 <= k < |r| ==> 0 <= (page - 1) * size + k < |s| && r[k] == s[(page - 1) * size + k]
  {
    var start := (page - 1) * size;
    MulLe(0, page - 1, size);
    if start >= |s| then [] else s[start..Min(start + size, |s|)]
  }

  lemma {:induction false} MulLe(a: int, b: int, c: int)
    requires a <= b && c >= 0
    ensures a * c <= b * c
  {
    assert b * c - a * c == (b - a) * c;
  }

  /** `(n + size - 1) // size`. */
  function TotalPages(n: nat, size: int): (t: nat)
    requires size >= 1
    ensures n == 0 ==> t == 0
    ensures n > 0 ==> (t - 1) * size < n <= t * size
  {
    (n + size - 1) / size
  }

  /** A page past the last is empty; every page up to the last is not. */
  lemma {:induction false} PageBeyondTotal<T>(s: seq<T>, page: int, size: int)
    requires page >= 1 && size >= 1
    ensures PageSlice(s, page, size) == [] <==> page > TotalPages(|s|, size)
  {
    var t := TotalPages(|s|, size);
    var start := (page - 1) * size;
    var r := PageSlice(s, page, size);
    if page > t {
      MulLe(t, page - 1, size);
      assert |s| <= t * size;
      assert start >= |s|;
      assert |r| == 0;
    } else {
      assert |s| > 0;
      MulLe(page - 1, t - 1, size);
      assert start < |s|;
      assert |r| == Min(size, |s| - start);
    }
  }

  /** The element at index `k` is on page `k / size + 1`, at position `k % size`. */
  lemma {:induction false} PagesCover<T>(s: seq<T>, size: int, k: int)
    requires size >= 1 && 0 <= k < |s|
    ensures var p := k / size + 1;
      1 <= p <= TotalPages(|s|, size) && k % size < |PageSlice(s, p, size)| && PageSlice(s, p, size)[k % size] == s[k]
  {
    var p := k / size + 1;
    assert (p - 1) * size + k % size == k;
    PageBeyondTotal(s, p, size);
  }

  /** Items newest first: `sorted(items, key=time, reverse=True)`, stable. */
  function NewestFirst(items: seq<AppItem>): (r: seq<AppItem>)
    ensures |r| == |items| && multiset(r) == multiset(items)
  {
    SortBy(items, TimeOf, After)
  }

  lemma {:induction false} NewestFirstOrdered(items: seq<AppItem>)
    ensures forall i, j :: 0 <= i < j < |NewestFirst(items)| ==> NewestFirst(items)[i].time >= NewestFirst(items)[j].time
  {
    IntOrdersStrictTotal();
    SortBySorted(items, TimeOf, After);
  }

  /** A search hit: its score and the item. */
  datatype Match = Match(score: real, item: AppItem)

  /** Sort key `(-score, -time)`: higher score first, then newer first. */
  function RankKey(m: Match): (real, int) { (m.score, m.item.time) }

  predicate RankLt(a: (real, int), b: (real, int)) {
    a.0 > b.0 || (a.0 == b.0 && a.1 > b.1)
  }

  lemma {:induction false} RankLtStrictTotal()
    ensures StrictTotal(RankLt)
  {
  }

  /** The hits among the first items: those scoring above 60, in item order. */
  function Matches(items: seq<AppItem>, q: string, score: (string, AppItem) -> real): (r: seq<Match>)
    ensures forall m :: m in r <==> m.item in items && m.score == score(q, m.item) && m.score > 60.0 as real
  {
    if items == [] then []
    else
      var x := items[|items| - 1];
      Matches(items[..|items| - 1], q, score) + (if score(q, x) > 60.0 then [Match(score(q, x), x)] else [])
  }

  function Items(ms: seq<Match>): (r: seq<AppItem>)
    ensures |r| == |ms| && forall i :: 0 <= i < |ms| ==> r[i] == ms[i].item
  {
    seq(|ms|, i requires 0 <= i < |ms| => ms[i].item)
  }

  /** The search results before paging. */
  function Ranked(items: seq<AppItem>, q: string, score: (string, AppItem) -> real): seq<AppItem>
  {
    Items(SortBy(Matches(items, q, score), RankKey, RankLt))
  }

  /** Search keeps exactly the items scoring above 60. */
  lemma {:induction false} RankedMembers(items: seq<AppItem>, q: string, score: (string, AppItem) -> real)
    ensures forall x :: x in Ranked(items, q, score) <==> x in items && score(q, x) > 60.0
  {
    var ms := Matches(items, q, score);
    var ts := SortBy(ms, RankKey, RankLt);
    var r := Ranked(items, q, score);
    forall x ensures x in r <==> x in items && score(q, x) > 60.0 {
      if x in r {
        var i :| 0 <= i < |r| && r[i] == x;
        assert ts[i] in multiset(ms);
      }
      if x in items && score(q, x) > 60.0 {
        var m := Match(score(q, x), x);
        assert m in multiset(ts);
        var i :| 0 <= i < |ts| && ts[i] == m;
        assert r[i] == x;
      }
    }
  }

  /** Search results are ordered by score descending and then by time descending. */
  lemma {:induction false} RankedOrder(items: seq<AppItem>, q: string, score: (string, AppItem) -> real)
    ensures forall i, j :: 0 <= i < j < |Ranked(items, q, score)| ==>
      var a := Ranked(items, q, score)[i];
      var b := Ranked(items, q, score)[j];
      score(q, a) > score(q, b) || (score(q, a) == score(q, b) && a.time >= b.time)
  {
    var ms := Matches(items, q, score);
    var ts := SortBy(ms, RankKey, RankLt);
    var r := Ranked(items, q, score);
    RankLtStrictTotal();
    SortBySorted(ms, RankKey, RankLt);
    forall i, j | 0 <= i < j < |r|
      ensures score(q, r[i]) > score(q, r[j]) || (score(q, r[i]) == score(q, r[j]) && r[i].time >= r[j].time)
    {
      assert ts[i] in multiset(ms) && ts[j] in multiset(ms);
      assert !RankLt(RankKey(ts[j]), RankKey(ts[i]));
    }
  }

  /** A page of a newest-first sequence is newest first. */
  lemma {:induction false} PageOrdered(s: seq<AppItem>, page: int, size: int)
    requires page >= 1 && size >= 1
    requires forall i, j :: 0 <= i < j < |s| ==> s[i].time >= s[j].time
    ensures forall i, j :: 0 <= i < j < |PageSlice(s, page, size)| ==>
      PageSlice(s, page, size)[i].time >= PageSlice(s, page, size)[j].time
  {
    var r := PageSlice(s, page, size);
    forall i, j | 0 <= i < j < |r| ensures r[i].time >= r[j].time {
      assert r[i] == s[(page - 1) * size + i] && r[j] == s[(page - 1) * size + j];
    }
  }

  /** A fuzzywuzzy ratio: an integer from 0 to 100. */
  type Ratio = r: int | 0 <= r <= 100

  function MaxReal(a: real, b: real): real { if a >= b then a else b }

  /** The score `search_items` computes: the best of the four weighted partial
      ratios of the query against the lower-cased name, description, list name
      and source. */
  function MaxWeightedScore(ratio: (string, string) -> Ratio, q: string, x: AppItem): (s: real)
    ensures 0.0 <= s <= 40.0
    ensures s == 40.0 <==> ratio(q, Lower(x.name)) == 100
  {
    MaxReal(MaxReal(ratio(q, Lower(x.name)) as real * 0.4, ratio(q, Lower(x.description)) as real * 0.3),
            MaxReal(ratio(q, Lower(x.listName)) as real * 0.2, ratio(q, Lower(x.source)) as real * 0.1))
  }

  function AsWrittenScore(ratio: (string, string) -> Ratio): (string, AppItem) -> real {
    (q: string, x: AppItem) => MaxWeightedScore(ratio, q, x)
  }

  /** No item ever clears the threshold of 60 under the score as written. */
  lemma {:induction false} AsWrittenNoMatches(items: seq<AppItem>, q: string, ratio: (string, string) -> Ratio)
    ensures Matches(items, q, AsWrittenScore(ratio)) == []
    decreases |items|
  {
    if items != [] {
      var x := items[|items| - 1];
      AsWrittenNoMatches(items[..|items| - 1], q, ratio);
      assert AsWrittenScore(ratio)(q, x) == MaxWeightedScore(ratio, q, x);
    }
  }

  /** Hence every search with a non-blank query yields an empty page and zero
      pages, even for an item whose every field equals the query. */
  lemma {:induction false} AsWrittenSearchEmpty(items: seq<AppItem>, q: string, ratio: (string, string) -> Ratio,
                                                page: int, size: int)
    requires page >= 1 && size >= 1
    ensures PageSlice(Ranked(items, q, AsWrittenScore(ratio)), page, size) == []
    ensures TotalPages(|Ranked(items, q, AsWrittenScore(ratio))|, size) == 0
  {
    AsWrittenNoMatches(items, q, ratio);
    assert Ranked(items, q, AsWrittenScore(ratio)) == [];
  }

  /** The weighted sum of the four partial ratios: the weights add up to one,
      so the score is on the same 0 to 100 scale as the threshold. */
  function WeightedSumScore(ratio: (string, string) -> Ratio, q: string, x: AppItem): (s: real)
    ensures 0.0 <= s <= 100.0
  {
    ratio(q, Lower(x.name)) as real * 0.4 + ratio(q, Lower(x.description)) as real * 0.3 +
    ratio(q, Lower(x.listName)) as real * 0.2 + ratio(q, Lower(x.source)) as real * 0.1
  }

  function CorrectedScore(ratio: (string, string) -> Ratio): (string, AppItem) -> real {
    (q: string, x: AppItem) => WeightedSumScore(ratio, q, x)
  }

  /** Under the corrected score an item is found exactly when its weighted
      ratios add up to more than 60; in particular an item whose four fields
      each match the query with a ratio above 60 is found. */
  lemma {:induction false} CorrectedSearchFinds(items: seq<AppItem>, q: string, ratio: (string, string) -> Ratio)
    ensures forall x :: x in Ranked(items, q, CorrectedScore(ratio)) <==>
      x in items && WeightedSumScore(ratio, q, x) > 60.0
    ensures forall x ::
      (x in items && ratio(q, Lower(x.name)) > 60 && ratio(q, Lower(x.description)) > 60 &&
       ratio(q, Lower(x.listName)) > 60 && ratio(q, Lower(x.source)) > 60) ==>
      x in Ranked(items, q, CorrectedScore(ratio))
  {
    RankedMembers(items, q, CorrectedScore(ratio));
    forall x | x in items
      ensures CorrectedScore(ratio)(q, x) == WeightedSumScore(ratio, q, x)
    {
    }
  }

  /** The loops of `_process_data`: every raw item of every list, in order,
      converted when its date part parses and skipped otherwise. */
  method ConvertLists(lists: seq<JSONList>, parse: string -> Option<int>) returns (acc: seq<AppItem>)
    ensures acc == ProcessedItems(lists, parse)
  {
    acc := [];
    var i := 0;
    while i < |lists|
      invariant 0 <= i <= |lists|
      invariant acc == ProcessedItems(lists[..i], parse)
    {
      var l := lists[i];
      var j := 0;
      while j < |l.items|
        invariant 0 <= j <= |l.items|
        invariant acc == ProcessedItems(lists[..i], parse) + ListItems(l, l.items[..j], parse)
      {
        var it := l.items[j];
        ListItemsStep(l, j, parse);
        match parse(DatePart(it.time)) {
          case None =>
          case Some(t) =>
            acc := acc + [AppItem(it.name, it.description, it.source, l.name, l.source, t)];
        }
        j := j + 1;
      }
      assert l.items[..j] == l.items;
      ProcessedItemsStep(lists, i, parse);
      i := i + 1;
    }
    assert lists[..i] == lists;
  }

  class DataService {
    var rawData: Option<JSONData>
    var items: seq<AppItem>
    var timeline: seq<AppDayData>

    /** The timeline is always the one built from the items. */
    ghost predicate Valid()
      reads this
    {
      timeline == Timeline(items)
    }

    constructor()
      ensures rawData == None && items == [] && timeline == []
      ensures Valid()
    {
      rawData := None;
      items := [];
      timeline := [];
    }

    /** `_process_data`: flatten the loaded lists into items and rebuild the timeline. */
    method ProcessData(parse: string -> Option<int>)
      modifies this
      ensures rawData == old(rawData)
      ensures old(rawData).None? ==> items == old(items) && timeline == old(timeline)
      ensures old(rawData).Some? ==> items == ProcessedItems(old(rawData).value.lists, parse) && Valid()
    {
      if rawData.None? {
        return;
      }
      items := ConvertLists(rawData.value.lists, parse);
      BuildTimeline();
    }

    /** `_build_timeline`: sort by time, group equal times, newest day first. */
    method BuildTimeline()
      modifies this
      ensures rawData == old(rawData) && items == old(items)
      ensures timeline == Timeline(items) && Valid()
      ensures IsBucketing(items, timeline, TimeOf)
      ensures timeline == [] <==> items == []
    {
      TimelineIsBucketing(items);
      TimelineEmpty(items);
      if items == [] {
        timeline := [];
        return;
      }
      var runs := DayRuns(items);
      var grouped: seq<AppDayData> := [];
      var i := 0;
      while i < |runs|
        invariant 0 <= i <= |runs|
        invariant grouped == BucketsOf(runs[..i], TimeOf)
        invariant items == old(items) && rawData == old(rawData)
      {
        BucketsOfSnoc(runs, TimeOf, i);
        grouped := grouped + [Bucket(runs[i], runs[i][0].time)];
        i := i + 1;
      }
      assert runs[..i] == runs;
      assert grouped == BucketsOf(runs, TimeOf);
      timeline := SortBy(grouped, DateOf, After);
    }

    /** `get_timeline_page`: one page of days and the number of pages. */
    function GetTimelinePage(page: int, size: int): (r: (seq<AppDayData>, nat))
      reads this
      requires page >= 1 && size >= 1
      ensures r.0 == PageSlice(timeline, page, size)
      ensures |r.0| == if (page - 1) * size >= |timeline| then 0 else Min(size, |timeline| - (page - 1) * size)
      ensures forall k :: 0 <= k < |r.0| ==>
        0 <= (page - 1) * size + k < |timeline| && r.0[k] == timeline[(page - 1) * size + k]
      ensures r.0 == [] <==> page > r.1
      ensures r.1 == TotalPages(|timeline|, size)
    {
      PageBeyondTotal(timeline, page, size);
      (PageSlice(timeline, page, size), TotalPages(|timeline|, size))
    }

    /** `get_items_page`: one page of the items, newest first. */
    function GetItemsPage(page: int, size: int): (r: (seq<AppItem>, nat))
      reads this
      requires page >= 1 && size >= 1
      ensures |r.0| <= size
      ensures r.0 == PageSlice(NewestFirst(items), page, size)
      ensures forall i, j :: 0 <= i < j < |r.0| ==> r.0[i].time >= r.0[j].time
      ensures r.0 == [] <==> page > r.1
      ensures r.1 == TotalPages(|items|, size)
    {
      var sorted := NewestFirst(items);
      NewestFirstOrdered(items);
      PageOrdered(sorted, page, size);
      PageBeyondTotal(sorted, page, size);
      (PageSlice(sorted, page, size), TotalPages(|sorted|, size))
    }

    /** `search_items`: a blank query pages all items; otherwise the hits for the
        stripped, lower-cased query are ranked and paged. */
    method SearchItems(query: string, page: int, size: int, score: (string, AppItem) -> real)
      returns (r: (seq<AppItem>, nat))
      requires page >= 1 && size >= 1
      ensures Strip(query, Python) == [] ==> r == GetItemsPage(page, size)
      ensures Strip(query, Python) != [] ==>
        r == (PageSlice(Ranked(items, Lower(Strip(query, Python)), score), page, size),
              TotalPages(|Ranked(items, Lower(Strip(query, Python)), score)|, size))
    {
      if Strip(query, Python) == [] {
        return GetItemsPage(page, size);
      }
      var q := Lower(Strip(query, Python));
      var matches: seq<Match> := [];
      var i := 0;
      while i < |items|
        invariant 0 <= i <= |items|
        invariant matches == Matches(items[..i], q, score)
      {
        var s := score(q, items[i]);
        assert items[..i + 1][..i] == items[..i];
        if s > 60.0 {
          matches := matches + [Match(s, items[i])];
        }
        i := i + 1;
      }
      assert items[..i] == items;
      var filtered := Items(SortBy(matches, RankKey, RankLt));
      return (PageSlice(filtered, page, size), TotalPages(|filtered|, size));
    }

    /** `is_data_loaded`: a snapshot holding at least one item; in a consistent
        service that is a snapshot with a non-empty timeline. */
    function IsDataLoaded(): (b: bool)
      reads this
      ensures b <==> rawData.Some? && items != []
      ensures Valid() ==> (b <==> rawData.Some? && timeline != [])
    {
      TimelineEmpty(items);
      rawData.Some? && |items| > 0
    }
  }
}
