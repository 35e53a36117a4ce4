/** The legacy web client's data shaping: the snapshot's lists are flattened
    into items tagged with their list, and the items are bucketed by day with
    lodash `groupBy` and ordered newest-first with `orderBy`.

    `date` stands for `new Date(...)` on the date part of a timestamp, as a day
    number; `fuse` stands for the Fuse.js search over the items. */
module WebData {
  import opened Wrappers
  import opened Ordering
  import opened Grouping
  import opened Text
  import opened DataServiceModel

  /** The item `collectItems` builds from raw item `it` of list `l`. */
  function CollectItem(l: JSONList, it: JSONItem, date: string -> int): AppItem {
    AppItem(it.name, it.description, it.source, l.name, l.source, date(DatePart(it.time)))
  }

  /** The items built from the raw items `its` of list `l`, in order. */
  function CollectList(l: JSONList, its: seq<JSONItem>, date: string -> int): (r: seq<AppItem>)
    ensures |r| == |its|
  {
    if its == [] then []
    else CollectList(l, its[..|its| - 1], date) + [CollectItem(l, its[|its| - 1], date)]
  }

  /** `collectItems`: every list's items, list by list, in order. */
  function CollectItems(lists: seq<JSONList>, date: string -> int): seq<AppItem>
  {
    if lists == [] then []
    else CollectItems(lists[..|lists| - 1], date) + CollectList(lists[|lists| - 1], lists[|lists| - 1].items, date)
  }

  lemma {:induction false} CollectListAt(l: JSONList, its: seq<JSONItem>, date: string -> int)
    ensures forall k :: 0 <= k < |its| ==> CollectList(l, its, date)[k] == CollectItem(l, its[k], date)
  {
    if its != [] {
      CollectListAt(l, its[..|its| - 1], date);
    }
  }

  /** `x` is what raw item `it` of list `l` becomes: its name, description and
      source, its list's name and source, and the date of the part of its
      timestamp before the first "T". */
  ghost predicate TaggedFrom(x: AppItem, l: JSONList, it: JSONItem, date: string -> int) {
    x.name == it.name && x.description == it.description && x.source == it.source &&
    x.listName == l.name && x.listSource == l.source &&
    x.time == date(DatePart(it.time)) && 'T' !in DatePart(it.time)
  }

  /** The k-th raw item of the i-th list became the item of `all` at position k
      after the items of the lists before it. */
  ghost predicate PlacedAt(all: seq<AppItem>, lists: seq<JSONList>, i: int, k: int, date: string -> int) {
    && 0 <= i < |lists| && 0 <= k < |lists[i].items|
    && TotalItems(lists[..i]) + k < |all|
    && TaggedFrom(all[TotalItems(lists[..i]) + k], lists[i], lists[i].items[k], date)
  }

  /** The items of the first i lists are at most those of all lists, less the i-th's. */
  lemma {:induction false} TotalItemsPrefix(lists: seq<JSONList>, i: int)
    requires 0 <= i < |lists|
    ensures TotalItems(lists[..i]) + |lists[i].items| <= TotalItems(lists)
    decreases |lists|
  {
    var init := lists[..|lists| - 1];
    if i < |lists| - 1 {
      assert lists[..i] == init[..i] && lists[i] == init[i];
      TotalItemsPrefix(init, i);
    } else {
      assert lists[..i] == init;
    }
  }

  /** An item placed by the lists before the last stays in place once the last
      list's items are appended. */
  lemma {:induction false} PlacedBeforeLast(lists: seq<JSONList>, date: string -> int, i: int, k: int)
    requires lists != [] && 0 <= i < |lists| - 1 && 0 <= k < |lists[i].items|
    requires PlacedAt(CollectItems(lists[..|lists| - 1], date), lists[..|lists| - 1], i, k, date)
    ensures PlacedAt(CollectItems(lists, date), lists, i, k, date)
  {
    var init := lists[..|lists| - 1];
    var l := lists[|lists| - 1];
    var all := CollectItems(lists, date);
    assert all == CollectItems(init, date) + CollectList(l, l.items, date);
    assert lists[..i] == init[..i];
    assert lists[i] == init[i];
    var p := TotalItems(init[..i]) + k;
    assert all[p] == CollectItems(init, date)[p];
  }

  /** The last list's raw items come right after the items of the lists before it. */
  lemma {:induction false} PlacedInLast(lists: seq<JSONList>, date: string -> int, k: int)
    requires lists != [] && 0 <= k < |lists[|lists| - 1].items|
    requires |CollectItems(lists[..|lists| - 1], date)| == TotalItems(lists[..|lists| - 1])
    ensures PlacedAt(CollectItems(lists, date), lists, |lists| - 1, k, date)
  {
    var init := lists[..|lists| - 1];
    var l := lists[|lists| - 1];
    var all := CollectItems(lists, date);
    assert all == CollectItems(init, date) + CollectList(l, l.items, date);
    CollectListAt(l, l.items, date);
    var p := TotalItems(init) + k;
    assert all[p] == CollectList(l, l.items, date)[k] == CollectItem(l, l.items[k], date);
  }

  /** `collectItems` keeps every raw item, list by list and in order: one item
      per raw item, and the k-th raw item of the i-th list becomes the item at
      position k after the items of the lists before it. */
  lemma {:induction false} CollectItemsShape(lists: seq<JSONList>, date: string -> int)
    ensures |CollectItems(lists, date)| == TotalItems(lists)
    ensures forall i, k :: 0 <= i < |lists| && 0 <= k < |lists[i].items| ==>
      PlacedAt(CollectItems(lists, date), lists, i, k, date)
  {
    if lists != [] {
      var init := lists[..|lists| - 1];
      CollectItemsShape(init, date);
      forall i, k | 0 <= i < |lists| && 0 <= k < |lists[i].items|
        ensures PlacedAt(CollectItems(lists, date), lists, i, k, date)
      {
        if i < |init| {
          PlacedBeforeLast(lists, date, i, k);
        } else {
          PlacedInLast(lists, date, k);
        }
      }
    }
  }

  /** lodash `groupBy` on the day, `Object.values`, one bucket per group dated
      by its first item, then `orderBy` date descending. */
  function Bucketize(items: seq<AppItem>): seq<AppDayData>
  {
    GroupFirstFilters(items, TimeOf);
    SortBy(BucketsOf(GroupFirst(items, TimeOf), TimeOf), DateOf, After)
  }

  /** `convertData`: no data gives an empty timeline. */
  function ConvertData(json: Option<JSONData>, date: string -> int): seq<AppDayData>
  {
    match json
    case None => []
    case Some(j) => Bucketize(CollectItems(j.lists, date))
  }

  /** The lodash groups form a grouping of the items by day with distinct days. */
  lemma {:induction false} GroupFirstIsGrouping(items: seq<AppItem>)
    ensures IsGrouping(items, GroupFirst(items, TimeOf), TimeOf)
    ensures forall i, j :: 0 <= i < j < |GroupFirst(items, TimeOf)| ==>
      TimeOf(GroupFirst(items, TimeOf)[i][0]) != TimeOf(GroupFirst(items, TimeOf)[j][0])
  {
    var gs := GroupFirst(items, TimeOf);
    GroupFirstFilters(items, TimeOf);
    GroupFirstDistinct(items, TimeOf);
    forall x | x in items ensures exists i :: 0 <= i < |gs| && gs[i] != [] && TimeOf(gs[i][0]) == TimeOf(x) {
      GroupFirstCovers(items, TimeOf, x);
    }
  }

  /** The bucketing is the day-bucketing of the items: every bucket is non-empty,
      dated by its first item, exactly that day's items in input order; dates
      strictly decrease; every item's day has a bucket. */
  lemma {:induction false} BucketizeIsBucketing(items: seq<AppItem>)
    ensures IsBucketing(items, Bucketize(items), TimeOf)
  {
    GroupFirstIsGrouping(items);
    SortedBucketing(items, GroupFirst(items, TimeOf), TimeOf);
  }

  /** `convertData` of no data is the empty timeline; of a snapshot, the
      day-bucketing of its collected items, whose buckets hold every item once. */
  lemma {:induction false} ConvertDataBuckets(json: Option<JSONData>, date: string -> int)
    ensures json.None? ==> ConvertData(json, date) == []
    ensures json.Some? ==> IsBucketing(CollectItems(json.value.lists, date), ConvertData(json, date), TimeOf)
    ensures json.Some? ==> multiset(AllItems(ConvertData(json, date))) == multiset(CollectItems(json.value.lists, date))
  {
    if json.Some? {
      var items := CollectItems(json.value.lists, date);
      BucketizeIsBucketing(items);
      BucketsPermuteItems(items, ConvertData(json, date), TimeOf);
    }
  }

  /** Built from the same raw items, the client's items agree with the backend's
      when the backend's date parser succeeds with the client's day. */
  lemma {:induction false} CollectListAgrees(l: JSONList, its: seq<JSONItem>, date: string -> int, parse: string -> Option<int>)
    requires forall d :: parse(d) == Some(date(d))
    ensures CollectList(l, its, date) == ListItems(l, its, parse)
  {
    if its != [] {
      CollectListAgrees(l, its[..|its| - 1], date, parse);
    }
  }

  lemma {:induction false} CollectItemsAgree(lists: seq<JSONList>, date: string -> int, parse: string -> Option<int>)
    requires forall d :: parse(d) == Some(date(d))
    ensures CollectItems(lists, date) == ProcessedItems(lists, parse)
  {
    if lists != [] {
      CollectItemsAgree(lists[..|lists| - 1], date, parse);
      CollectListAgrees(lists[|lists| - 1], lists[|lists| - 1].items, date, parse);
    }
  }

  /** The legacy client's timeline is the backend's timeline: lodash's
      first-appearance grouping and the backend's sort-then-groupby produce the
      same buckets once both are ordered newest-first. */
  lemma {:induction false} ConvertDataAgreesWithBackend(json: JSONData, date: string -> int, parse: string -> Option<int>)
    requires forall d :: parse(d) == Some(date(d))
    ensures ConvertData(Some(json), date) == Timeline(ProcessedItems(json.lists, parse))
  {
    var items := ProcessedItems(json.lists, parse);
    CollectItemsAgree(json.lists, date, parse);
    BucketizeIsBucketing(items);
    TimelineIsBucketing(items);
    BucketingUnique(items, ConvertData(Some(json), date), Timeline(items), TimeOf);
  }

  /** `useData`'s timeline: nothing while the data is missing, `convertData`
      for a blank search term, otherwise the same bucketing over the search hits. */
  function UseData(data: Option<JSONData>, searchTerm: string, date: string -> int,
                   fuse: (seq<AppItem>, string) -> seq<AppItem>): seq<AppDayData>
  {
    match data
    case None => []
    case Some(j) =>
      var items := CollectItems(j.lists, date);
      if Strip(searchTerm, JavaScript) == [] then ConvertData(data, date)
      else Bucketize(fuse(items, searchTerm))
  }

  /** A blank or all-whitespace search term shows the whole data set's timeline;
      any other term shows the day-bucketing of the search hits. */
  lemma {:induction false} UseDataBranches(data: Option<JSONData>, searchTerm: string, date: string -> int,
                        fuse: (seq<AppItem>, string) -> seq<AppItem>)
    ensures data.None? ==> UseData(data, searchTerm, date, fuse) == []
    ensures data.Some? && AllSpace(searchTerm, JavaScript) ==> UseData(data, searchTerm, date, fuse) == ConvertData(data, date)
    ensures data.Some? && !AllSpace(searchTerm, JavaScript) ==>
      IsBucketing(fuse(CollectItems(data.value.lists, date), searchTerm), UseData(data, searchTerm, date, fuse), TimeOf)
  {
    StripEmpty(searchTerm, JavaScript);
    if data.Some? && !AllSpace(searchTerm, JavaScript) {
      BucketizeIsBucketing(fuse(CollectItems(data.value.lists, date), searchTerm));
    }
  }

  /** The unit test's snapshot: one list whose three items carry the times
      `t1`, `t2` and `t3`. */
  function SampleData(t1: string, t2: string, t3: string): JSONData {
    JSONData([JSONList("LIST1", "", "", [
      JSONItem("ITEM1", "http://item1.com", "", t1),
      JSONItem("ITEM2", "http://item2.com", "", t2),
      JSONItem("ITEM3", "http://item3.com", "", t3)])])
  }

  /** The timestamps of the unit test and the days they fall on. */
  ghost predicate SampleTimes(t1: string, t2: string, t3: string, d1: string, d2: string) {
    t1 == "2019-12-23T13:55:40" && t2 == "2020-01-01T00:00:00" && t3 == "2020-01-01T03:00:00" &&
    d1 == "2019-12-23" && d2 == "2020-01-01"
  }

  lemma {:induction false} SampleDayParts(t1: string, t2: string, t3: string, d1: string, d2: string)
    requires SampleTimes(t1, t2, t3, d1, d2)
    ensures DatePart(t1) == d1 && DatePart(t2) == d2 && DatePart(t3) == d2
  {
    DatePartAt(t1, 10);
    DatePartAt(t2, 10);
    DatePartAt(t3, 10);
  }

  /** The sample's items, in order, fall on days `d1`, `d2` and `d2`. */
  lemma {:induction false} SampleDays(t1: string, t2: string, t3: string, d1: string, d2: string, date: string -> int)
    requires SampleTimes(t1, t2, t3, d1, d2)
    ensures var items := CollectItems(SampleData(t1, t2, t3).lists, date);
      |items| == 3 && items[0].time == date(d1) && items[1].time == date(d2) && items[2].time == date(d2)
  {
    var json := SampleData(t1, t2, t3);
    var l := json.lists[0];
    assert json.lists[..0] == [];
    assert CollectItems(json.lists, date) == CollectList(l, l.items, date);
    CollectListAt(l, l.items, date);
    SampleDayParts(t1, t2, t3, d1, d2);
  }

  /** Items falling on exactly two days `a < b` are bucketed into two days, `b` first. */
  lemma {:induction false} TwoDays(items: seq<AppItem>, tl: seq<AppDayData>, x: AppItem, y: AppItem, a: int, b: int)
    requires IsBucketing(items, tl, TimeOf) && a < b
    requires forall z :: z in items ==> z.time == a || z.time == b
    requires x in items && x.time == a && y in items && y.time == b
    ensures |tl| == 2 && tl[0].date == b && tl[1].date == a
  {
    forall i | 0 <= i < |tl| ensures tl[i].date == a || tl[i].date == b {
      KeyFilterMember(items, TimeOf, tl[i].date, tl[i].items[0]);
    }
    assert a in Dates(tl) && b in Dates(tl);
    var i1 :| 0 <= i1 < |tl| && tl[i1].date == a;
    var i2 :| 0 <= i2 < |tl| && tl[i2].date == b;
  }

  /** Three items on days `a`, `b`, `b` with `a < b` make two days, `b` first. */
  lemma {:induction false} ThreeItemsTwoDays(items: seq<AppItem>, a: int, b: int)
    requires |items| == 3 && items[0].time == a && items[1].time == b && items[2].time == b && a < b
    ensures var tl := Bucketize(items); |tl| == 2 && tl[0].date == b && tl[1].date == a
  {
    forall z | z in items ensures z.time == a || z.time == b {
      var k :| 0 <= k < |items| && items[k] == z;
      assert k == 0 || k == 1 || k == 2;
    }
    BucketizeIsBucketing(items);
    TwoDays(items, Bucketize(items), items[0], items[1], a, b);
  }

  /** The sample gives two days, the later one first. */
  lemma {:induction false} SampleTimeline(t1: string, t2: string, t3: string, d1: string, d2: string, date: string -> int)
    requires SampleTimes(t1, t2, t3, d1, d2)
    requires date(d1) < date(d2)
    ensures var tl := ConvertData(Some(SampleData(t1, t2, t3)), date);
      |tl| == 2 && tl[0].date == date(d2) && tl[1].date == date(d1)
  {
    SampleDays(t1, t2, t3, d1, d2, date);
    ThreeItemsTwoDays(CollectItems(SampleData(t1, t2, t3).lists, date), date(d1), date(d2));
  }
}
