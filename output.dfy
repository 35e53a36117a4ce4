/** Shaping crawled items into a snapshot, as `generate_json_str` of the
    crawler package does: the items are sorted in place by list name, each run
    of equal list names becomes one list, its items sorted by entry name, and
    every item's time is rendered by `isoformat`, which is a parameter here. */
module CrawlOutput {
  import opened Ordering
  import opened Grouping
  import opened Serialize
  import opened Records

  function ListNameOf(x: AwesomeItem): string { x.list.name }
  function ItemNameOf(x: AwesomeItem): string { x.item.name }

  /** The snapshot record of one crawled item. */
  function ToOutputItem(x: AwesomeItem, iso: int -> string): OutputItem {
    OutputItem(x.item.name, x.item.source, x.item.description, iso(x.time))
  }

  function ToOutputItems(xs: seq<AwesomeItem>, iso: int -> string): (r: seq<OutputItem>)
    ensures |r| == |xs|
  {
    seq(|xs|, i requires 0 <= i < |xs| => ToOutputItem(xs[i], iso))
  }

  /** The list one group of equal list names becomes: the metadata of the
      group's first item's list, and the group's items sorted by entry name. */
  function ListOf(group: seq<AwesomeItem>, iso: int -> string): OutputList
    requires group != []
  {
    var l := group[0].list;
    OutputList(l.name, l.source, l.description, ToOutputItems(SortBy(group, ItemNameOf, StrLt), iso))
  }

  function ListsOf(gs: seq<seq<AwesomeItem>>, iso: int -> string): (r: seq<OutputList>)
    requires forall i :: 0 <= i < |gs| ==> gs[i] != []
    ensures |r| == |gs|
  {
    seq(|gs|, i requires 0 <= i < |gs| => ListOf(gs[i], iso))
  }

  /** The lists `generate_json_str` builds from items already sorted by list name. */
  function OutputLists(sorted: seq<AwesomeItem>, iso: int -> string): seq<OutputList>
  {
    ListsOf(GroupRuns(sorted, ListNameOf), iso)
  }

  /** `awesomeItems.sort(key=list name)`: a stable in-place sort. */
  method SortByListName(items: array<AwesomeItem>)
    modifies items
    ensures items[..] == SortBy(old(items[..]), ListNameOf, StrLt)
  {
    var sorted := SortBy(items[..], ListNameOf, StrLt);
    forall i | 0 <= i < items.Length {
      items[i] := sorted[i];
    }
  }

  /** The loop of `generate_json_str` over `groupby(items, list name)`: one list
      per group, in group order. */
  method BuildLists(groups: seq<seq<AwesomeItem>>, iso: int -> string) returns (lists: seq<OutputList>)
    requires forall i :: 0 <= i < |groups| ==> groups[i] != []
    ensures lists == ListsOf(groups, iso)
  {
    lists := [];
    var k := 0;
    while k < |groups|
      invariant 0 <= k <= |groups|
      invariant |lists| == k && forall j :: 0 <= j < k ==> lists[j] == ListOf(groups[j], iso)
    {
      lists := lists + [ListOf(groups[k], iso)];
      k := k + 1;
    }
  }

  /** `generate_json_str` up to the serialisation of its result. */
  method GenerateOutput(items: array<AwesomeItem>, iso: int -> string) returns (out: Output)
    modifies items
    ensures items[..] == SortBy(old(items[..]), ListNameOf, StrLt)
    ensures out == Output(OutputLists(items[..], iso))
  {
    SortByListName(items);
    var lists := BuildLists(GroupRuns(items[..], ListNameOf), iso);
    out := Output(lists);
  }

  /** The groups of the input sorted by list name: ascending list names, each
      group exactly the input's items of that list, every list present. */
  lemma {:induction false} GroupsByList(s: seq<AwesomeItem>)
    ensures var gs := GroupRuns(SortBy(s, ListNameOf, StrLt), ListNameOf);
      KeysIncrease(gs, ListNameOf, StrLt) && IsGrouping(s, gs, ListNameOf)
  {
    StrLtStrictTotal();
    SortedRuns(s, ListNameOf, StrLt);
  }

  /** The k-th output list is built from the input's items of its own list name. */
  lemma {:induction false} ListAt(s: seq<AwesomeItem>, iso: int -> string, r: seq<OutputList>, i: int)
    requires r == OutputLists(SortBy(s, ListNameOf, StrLt), iso) && 0 <= i < |r|
    ensures KeyFilter(s, ListNameOf, r[i].name) != []
    ensures r[i] == ListOf(KeyFilter(s, ListNameOf, r[i].name), iso)
  {
    var gs := GroupRuns(SortBy(s, ListNameOf, StrLt), ListNameOf);
    GroupsByList(s);
    assert r[i] == ListOf(gs[i], iso);
  }

  /** Every output list is the input's items of that list name, in input order,
      sorted stably by entry name and converted; its name, source and
      description are those of the first such item's list. */
  lemma {:induction false} OutputListsContents(s: seq<AwesomeItem>, iso: int -> string, r: seq<OutputList>)
    requires r == OutputLists(SortBy(s, ListNameOf, StrLt), iso)
    ensures forall i :: 0 <= i < |r| ==>
      var g := KeyFilter(s, ListNameOf, r[i].name);
      g != [] &&
      r[i].source == g[0].list.source && r[i].description == g[0].list.description &&
      r[i].items == ToOutputItems(SortBy(g, ItemNameOf, StrLt), iso)
  {
    forall i | 0 <= i < |r| ensures
      var g := KeyFilter(s, ListNameOf, r[i].name);
      g != [] &&
      r[i].source == g[0].list.source && r[i].description == g[0].list.description &&
      r[i].items == ToOutputItems(SortBy(g, ItemNameOf, StrLt), iso)
    {
      ListAt(s, iso, r, i);
    }
  }

  /** Lists come out in strictly ascending list-name order, so no two share a name. */
  lemma {:induction false} OutputListsAscending(s: seq<AwesomeItem>, iso: int -> string, r: seq<OutputList>)
    requires r == OutputLists(SortBy(s, ListNameOf, StrLt), iso)
    ensures forall i, j :: 0 <= i < j < |r| ==> StrLt(r[i].name, r[j].name)
  {
    var gs := GroupRuns(SortBy(s, ListNameOf, StrLt), ListNameOf);
    GroupsByList(s);
    assert forall i :: 0 <= i < |r| ==> r[i] == ListOf(gs[i], iso);
  }

  /** Some crawled item belongs to a list named `name`. */
  ghost predicate ListNamed(s: seq<AwesomeItem>, name: string) {
    exists x :: x in s && ListNameOf(x) == name
  }

  /** Some output list is named `name`. */
  ghost predicate HasList(r: seq<OutputList>, name: string) {
    exists i :: 0 <= i < |r| && r[i].name == name
  }

  /** One output list per distinct list name of the input: every output list's
      name is some item's list name, and every item's list name has an output list. */
  lemma {:induction false} OutputListsCover(s: seq<AwesomeItem>, iso: int -> string, r: seq<OutputList>)
    requires r == OutputLists(SortBy(s, ListNameOf, StrLt), iso)
    ensures forall i :: 0 <= i < |r| ==> ListNamed(s, r[i].name)
    ensures forall x :: x in s ==> HasList(r, ListNameOf(x))
  {
    forall i | 0 <= i < |r| ensures ListNamed(s, r[i].name) {
      ListAt(s, iso, r, i);
      var g := KeyFilter(s, ListNameOf, r[i].name);
      KeyFilterMember(s, ListNameOf, r[i].name, g[0]);
    }
    var gs := GroupRuns(SortBy(s, ListNameOf, StrLt), ListNameOf);
    GroupsByList(s);
    forall x | x in s ensures HasList(r, ListNameOf(x)) {
      var i :| 0 <= i < |gs| && gs[i] != [] && ListNameOf(gs[i][0]) == ListNameOf(x);
      assert r[i] == ListOf(gs[i], iso);
    }
  }

  /** The items of every output list are in ascending entry-name order. */
  lemma {:induction false} OutputItemsSorted(s: seq<AwesomeItem>, iso: int -> string, r: seq<OutputList>)
    requires r == OutputLists(SortBy(s, ListNameOf, StrLt), iso)
    ensures forall i :: 0 <= i < |r| ==> SortedBy(r[i].items, ItemName, StrLt)
  {
    StrLtStrictTotal();
    forall i | 0 <= i < |r| ensures SortedBy(r[i].items, ItemName, StrLt) {
      ListAt(s, iso, r, i);
      var t := SortBy(KeyFilter(s, ListNameOf, r[i].name), ItemNameOf, StrLt);
      SortBySorted(KeyFilter(s, ListNameOf, r[i].name), ItemNameOf, StrLt);
      assert forall j :: 0 <= j < |t| ==> ItemName(r[i].items[j]) == ItemNameOf(t[j]);
    }
  }

  /** The total number of items of a sequence of lists. */
  function ItemCount(ls: seq<OutputList>): nat
  {
    if ls == [] then 0 else |ls[0].items| + ItemCount(ls[1..])
  }

  lemma {:induction false} ItemCountOfGroups(gs: seq<seq<AwesomeItem>>, iso: int -> string)
    requires forall i :: 0 <= i < |gs| ==> gs[i] != []
    ensures ItemCount(ListsOf(gs, iso)) == |Flatten(gs)|
  {
    if gs != [] {
      ItemCountOfGroups(gs[1..], iso);
      assert ListsOf(gs, iso)[1..] == ListsOf(gs[1..], iso);
    }
  }

  /** The output holds as many items as were crawled. */
  lemma {:induction false} OutputItemCount(s: seq<AwesomeItem>, iso: int -> string)
    ensures ItemCount(OutputLists(SortBy(s, ListNameOf, StrLt), iso)) == |s|
  {
    ItemCountOfGroups(GroupRuns(SortBy(s, ListNameOf, StrLt), ListNameOf), iso);
  }

  /** No crawled item leads to no lists. */
  lemma {:induction false} OutputListsEmpty(iso: int -> string)
    ensures OutputLists(SortBy([], ListNameOf, StrLt), iso) == []
  {
  }
}
