/** The crawler's snapshot merge: a fresh crawl is merged into the previous
    snapshot. Every old list keeps its items and gains the items of the
    same-named new list whose names it does not have yet; new lists whose name
    is not in the result yet are appended whole.

    The source reassigns `old_list.items` on the deserialised old snapshot; that
    snapshot is a private copy, so the merge is modelled on values. */
module Delta {
  import opened Wrappers
  import opened Serialize

  /** `find_list` on lists. */
  function FindList(xs: seq<OutputList>, name: string): (r: Option<OutputList>)
    ensures r.None? <==> forall i :: 0 <= i < |xs| ==> xs[i].name != name
    ensures r.Some? ==> r.value.name == name && r.value in xs
  {
    FindByName(xs, ListName, name)
  }

  /** `find_list` on items. */
  function FindItem(xs: seq<OutputItem>, name: string): (r: Option<OutputItem>)
    ensures r.None? <==> forall i :: 0 <= i < |xs| ==> xs[i].name != name
    ensures r.Some? ==> r.value.name == name && r.value in xs
  {
    FindByName(xs, ItemName, name)
  }

  /** `f`: the names of the old items that also occur among the new items. */
  function MatchedNames(olds: seq<OutputItem>, news: seq<OutputItem>): seq<string>
  {
    if olds == [] then []
    else
      var found := FindItem(news, olds[|olds| - 1].name);
      MatchedNames(olds[..|olds| - 1], news) + (if found.Some? then [found.value.name] else [])
  }

  lemma {:induction false} MatchedNamesMember(olds: seq<OutputItem>, news: seq<OutputItem>, n: string)
    ensures n in MatchedNames(olds, news) <==> n in Names(olds, ItemName) && FindItem(news, n).Some?
  {
    if olds != [] {
      var init := olds[..|olds| - 1];
      MatchedNamesMember(init, news, n);
      assert Names(olds, ItemName) == Names(init, ItemName) + [olds[|olds| - 1].name];
    }
  }

  /** `[item for item in items if item.name not in f]`. */
  function Fresh(items: seq<OutputItem>, f: seq<string>): (r: seq<OutputItem>)
    ensures forall x :: x in r <==> x in items && x.name !in f
  {
    if items == [] then []
    else
      var init := Fresh(items[..|items| - 1], f);
      var last := items[|items| - 1];
      assert items == items[..|items| - 1] + [last];
      init + (if last.name !in f then [last] else [])
  }

  lemma {:induction false} FreshCongruent(items: seq<OutputItem>, f1: seq<string>, f2: seq<string>)
    requires forall x :: x in items ==> (x.name in f1 <==> x.name in f2)
    ensures Fresh(items, f1) == Fresh(items, f2)
  {
    if items != [] {
      assert items[|items| - 1] in items;
      FreshCongruent(items[..|items| - 1], f1, f2);
    }
  }

  /** The items `delta` appends to an old list: those of the new list whose
      name matches no old item, in new order. */
  lemma {:induction false} AppendedAreNewNames(olds: seq<OutputItem>, news: seq<OutputItem>)
    ensures Fresh(news, MatchedNames(olds, news)) == Fresh(news, Names(olds, ItemName))
  {
    forall x | x in news ensures x.name in MatchedNames(olds, news) <==> x.name in Names(olds, ItemName) {
      MatchedNamesMember(olds, news, x.name);
    }
    FreshCongruent(news, MatchedNames(olds, news), Names(olds, ItemName));
  }

  /** One old list after the merge. */
  function MergeOld(o: OutputList, news: seq<OutputList>): OutputList
  {
    match FindList(news, o.name)
    case None => o
    case Some(nl) => o.(items := o.items + Fresh(nl.items, MatchedNames(o.items, nl.items)))
  }

  /** The first loop's result: every old list, merged. */
  function MergedOld(olds: seq<OutputList>, news: seq<OutputList>): (r: seq<OutputList>)
    ensures |r| == |olds| && forall i :: 0 <= i < |olds| ==> r[i] == MergeOld(olds[i], news)
  {
    seq(|olds|, i requires 0 <= i < |olds| => MergeOld(olds[i], news))
  }

  /** The second loop's result: each new list whose name is not present yet is appended. */
  function AddNew(acc: seq<OutputList>, news: seq<OutputList>): (r: seq<OutputList>)
    ensures |r| >= |acc| && r[..|acc|] == acc
  {
    if news == [] then acc
    else
      var a := AddNew(acc, news[..|news| - 1]);
      var nl := news[|news| - 1];
      if FindList(a, nl.name).None? then a + [nl] else a
  }

  /** What `delta` returns for deserialised `new` and `old` snapshots. */
  function DeltaOf(latest: Output, prev: Output): Output
  {
    Output(AddNew(MergedOld(prev.lists, latest.lists), latest.lists))
  }

  /** The inner loop of `delta`: the names of the old items found among the new items. */
  method MatchedNamesOf(olds: seq<OutputItem>, news: seq<OutputItem>) returns (f: seq<string>)
    ensures f == MatchedNames(olds, news)
  {
    f := [];
    var j := 0;
    while j < |olds|
      invariant 0 <= j <= |olds|
      invariant f == MatchedNames(olds[..j], news)
    {
      assert olds[..j + 1][..j] == olds[..j];
      var newItem := FindItem(news, olds[j].name);
      if newItem.Some? {
        f := f + [newItem.value.name];
      }
      j := j + 1;
    }
    assert olds[..j] == olds;
  }

  /** The first loop of `delta`: each old list gains the unmatched items of its
      same-named new list. */
  method MergeOldLists(olds: seq<OutputList>, news: seq<OutputList>) returns (lists: seq<OutputList>)
    ensures lists == MergedOld(olds, news)
  {
    lists := [];
    var i := 0;
    while i < |olds|
      invariant 0 <= i <= |olds|
      invariant lists == MergedOld(olds[..i], news)
    {
      var oldList := olds[i];
      var newList := FindList(news, oldList.name);
      var toAppend: seq<OutputItem> := [];
      if newList.Some? {
        var f := MatchedNamesOf(oldList.items, newList.value.items);
        toAppend := Fresh(newList.value.items, f);
      }
      assert oldList.(items := oldList.items + toAppend) == MergeOld(oldList, news) by {
        if newList.None? {
          assert oldList.items + toAppend == oldList.items;
        }
      }
      assert MergedOld(olds[..i + 1], news) == MergedOld(olds[..i], news) + [MergeOld(oldList, news)];
      lists := lists + [oldList.(items := oldList.items + toAppend)];
      i := i + 1;
    }
    assert olds[..i] == olds;
  }

  /** The second loop of `delta`: each new list whose name is not present yet is appended. */
  method AddNewLists(acc: seq<OutputList>, news: seq<OutputList>) returns (lists: seq<OutputList>)
    ensures lists == AddNew(acc, news)
  {
    lists := acc;
    var k := 0;
    while k < |news|
      invariant 0 <= k <= |news|
      invariant lists == AddNew(acc, news[..k])
    {
      assert news[..k + 1][..k] == news[..k];
      var oldList := FindList(lists, news[k].name);
      if oldList.None? {
        lists := lists + [news[k]];
      }
      k := k + 1;
    }
    assert news[..k] == news;
  }

  /** `delta`, with the old snapshot given. */
  method Delta(latest: Output, prev: Output) returns (r: Output)
    ensures r == DeltaOf(latest, prev)
  {
    var lists := MergeOldLists(prev.lists, latest.lists);
    lists := AddNewLists(lists, latest.lists);
    r := Output(lists);
  }

  // ----- The lists appended by the second loop, defined independently -----

  /** `news[i]` is the first new list of its name and that name is not in `acc`. */
  ghost predicate FirstFresh(acc: seq<OutputList>, news: seq<OutputList>, i: int)
    requires 0 <= i < |news|
  {
    news[i].name !in Names(acc, ListName) && forall j :: 0 <= j < i ==> news[j].name != news[i].name
  }

  /** The new lists that are the first of their name and whose name is not in `acc`, in new order. */
  ghost function FreshLists(acc: seq<OutputList>, news: seq<OutputList>): seq<OutputList>
  {
    if news == [] then []
    else FreshLists(acc, news[..|news| - 1]) + (if FirstFresh(acc, news, |news| - 1) then [news[|news| - 1]] else [])
  }

  lemma {:induction false} FreshListsNames(acc: seq<OutputList>, news: seq<OutputList>, n: string)
    ensures n in Names(FreshLists(acc, news), ListName) <==>
      n !in Names(acc, ListName) && n in Names(news, ListName)
  {
    if news != [] {
      var init := news[..|news| - 1];
      var last := news[|news| - 1];
      FreshListsNames(acc, init, n);
      assert Names(news, ListName) == Names(init, ListName) + [last.name];
      var fl := FreshLists(acc, init);
      if FirstFresh(acc, news, |news| - 1) {
        assert Names(FreshLists(acc, news), ListName) == Names(fl, ListName) + [last.name];
      } else {
        assert FreshLists(acc, news) == fl;
        if n == last.name && n !in Names(acc, ListName) {
          var j :| 0 <= j < |news| - 1 && news[j].name == last.name;
          assert init[j].name == n;
        }
      }
    }
  }

  lemma {:induction false} FindListNone(xs: seq<OutputList>, n: string)
    ensures FindList(xs, n).None? <==> n !in Names(xs, ListName)
  {
    InNames(xs, ListName, n);
  }

  /** The last new list is appended exactly when it is the first of its name
      and its name is not in `acc`. */
  lemma {:induction false} FirstFreshLast(acc: seq<OutputList>, news: seq<OutputList>)
    requires news != []
    ensures var init := news[..|news| - 1];
      FirstFresh(acc, news, |news| - 1) <==>
        news[|news| - 1].name !in Names(acc, ListName) && news[|news| - 1].name !in Names(init, ListName)
  {
    var init := news[..|news| - 1];
    InNames(init, ListName, news[|news| - 1].name);
  }

  /** The second loop appends exactly the fresh lists, in new order. */
  lemma {:induction false} AddNewAppendsFresh(acc: seq<OutputList>, news: seq<OutputList>)
    ensures AddNew(acc, news) == acc + FreshLists(acc, news)
  {
    if news != [] {
      var init := news[..|news| - 1];
      var last := news[|news| - 1];
      AddNewAppendsFresh(acc, init);
      var fl := FreshLists(acc, init);
      var a := acc + fl;
      FreshListsNames(acc, init, last.name);
      NamesAppend(acc, fl, ListName);
      FindListNone(a, last.name);
      FirstFreshLast(acc, news);
      assert FindList(a, last.name).None? <==> FirstFresh(acc, news, |news| - 1);
    }
  }

  lemma {:induction false} FreshListsEmpty(acc: seq<OutputList>, news: seq<OutputList>)
    requires forall i :: 0 <= i < |news| ==> news[i].name in Names(acc, ListName)
    ensures FreshLists(acc, news) == []
  {
    if FreshLists(acc, news) != [] {
      var l := FreshLists(acc, news)[0];
      assert Names(FreshLists(acc, news), ListName)[0] == l.name;
      FreshListsNames(acc, news, l.name);
    }
  }

  // ----- Properties of the merge -----

  /** The output starts with every old list, in old order, with the same name,
      source and description, and its original items as a prefix; the items
      added are exactly the same-named new list's items whose names no old item
      has, in new order; an old list with no same-named new list is unchanged. */
  lemma {:induction false} MergeKeepsOld(latest: Output, prev: Output)
    ensures |DeltaOf(latest, prev).lists| >= |prev.lists|
    ensures forall i :: 0 <= i < |prev.lists| ==>
      var o := prev.lists[i];
      var m := DeltaOf(latest, prev).lists[i];
      m.name == o.name && m.source == o.source && m.description == o.description &&
      (FindList(latest.lists, o.name).None? ==> m == o) &&
      (FindList(latest.lists, o.name).Some? ==>
         m.items == o.items + Fresh(FindList(latest.lists, o.name).value.items, Names(o.items, ItemName)))
  {
    var ms := MergedOld(prev.lists, latest.lists);
    AddNewAppendsFresh(ms, latest.lists);
    forall i | 0 <= i < |prev.lists| ensures
      var o := prev.lists[i];
      var m := DeltaOf(latest, prev).lists[i];
      m.name == o.name && m.source == o.source && m.description == o.description &&
      (FindList(latest.lists, o.name).None? ==> m == o) &&
      (FindList(latest.lists, o.name).Some? ==>
         m.items == o.items + Fresh(FindList(latest.lists, o.name).value.items, Names(o.items, ItemName)))
    {
      var o := prev.lists[i];
      assert DeltaOf(latest, prev).lists[i] == ms[i];
      if FindList(latest.lists, o.name).Some? {
        AppendedAreNewNames(o.items, FindList(latest.lists, o.name).value.items);
      }
    }
  }

  /** No item appended to an old list shares a name with an old item of that list. */
  lemma {:induction false} AppendedNamesAreNew(o: OutputList, news: seq<OutputItem>)
    ensures forall x :: x in Fresh(news, Names(o.items, ItemName)) ==>
      x in news && forall y :: y in o.items ==> y.name != x.name
  {
    forall x, y | x in Fresh(news, Names(o.items, ItemName)) && y in o.items ensures y.name != x.name {
      var k :| 0 <= k < |o.items| && o.items[k] == y;
      assert Names(o.items, ItemName)[k] == y.name;
    }
  }

  /** After the old lists come the new lists whose name is not among the old
      lists' names, each the first of its name, in new order. */
  lemma {:induction false} MergeAppendsNewLists(latest: Output, prev: Output)
    ensures |DeltaOf(latest, prev).lists| >= |prev.lists|
    ensures DeltaOf(latest, prev).lists[|prev.lists|..] == FreshLists(prev.lists, latest.lists)
  {
    var ms := MergedOld(prev.lists, latest.lists);
    AddNewAppendsFresh(ms, latest.lists);
    assert Names(ms, ListName) == Names(prev.lists, ListName);
    FreshListsSameNames(ms, prev.lists, latest.lists);
    assert DeltaOf(latest, prev).lists == ms + FreshLists(ms, latest.lists);
  }

  lemma {:induction false} FreshListsSameNames(a: seq<OutputList>, b: seq<OutputList>, news: seq<OutputList>)
    requires Names(a, ListName) == Names(b, ListName)
    ensures FreshLists(a, news) == FreshLists(b, news)
  {
    if news != [] {
      FreshListsSameNames(a, b, news[..|news| - 1]);
    }
  }

  /** Every new list name absent from the old lists gets a list in the output. */
  lemma {:induction false} NewListNamesCovered(latest: Output, prev: Output, n: string)
    requires n in Names(latest.lists, ListName) && n !in Names(prev.lists, ListName)
    ensures |DeltaOf(latest, prev).lists| >= |prev.lists|
    ensures n in Names(DeltaOf(latest, prev).lists[|prev.lists|..], ListName)
  {
    MergeAppendsNewLists(latest, prev);
    FreshListsNames(prev.lists, latest.lists, n);
  }

  // ----- Idempotence -----

  lemma {:induction false} FreshOfCovered(items: seq<OutputItem>, f: seq<string>)
    requires forall x :: x in items ==> x.name in f
    ensures Fresh(items, f) == []
  {
    if Fresh(items, f) != [] {
      assert Fresh(items, f)[0] in Fresh(items, f);
    }
  }

  /** After a merge, every item name of the new list is among the merged list's names. */
  lemma {:induction false} MergedCoversNew(o: OutputList, nl: OutputList)
    ensures var m := o.items + Fresh(nl.items, Names(o.items, ItemName));
      forall x :: x in nl.items ==> x.name in Names(m, ItemName)
  {
    var m := o.items + Fresh(nl.items, Names(o.items, ItemName));
    NamesAppend(o.items, Fresh(nl.items, Names(o.items, ItemName)), ItemName);
    forall x | x in nl.items ensures x.name in Names(m, ItemName) {
      if x.name !in Names(o.items, ItemName) {
        var f := Fresh(nl.items, Names(o.items, ItemName));
        assert x in f;
        InNames(f, ItemName, x.name);
      }
    }
  }

  /** An already merged list is left alone by a second merge with the same data. */
  lemma {:induction false} MergeOldTwice(o: OutputList, news: seq<OutputList>)
    ensures MergeOld(MergeOld(o, news), news) == MergeOld(o, news)
  {
    var m := MergeOld(o, news);
    var found := FindList(news, o.name);
    if found.Some? {
      var nl := found.value;
      AppendedAreNewNames(o.items, nl.items);
      assert m.items == o.items + Fresh(nl.items, Names(o.items, ItemName));
      AppendedAreNewNames(m.items, nl.items);
      MergedCoversNew(o, nl);
      FreshOfCovered(nl.items, Names(m.items, ItemName));
      assert m.items + [] == m.items;
    }
  }

  /** A list appended by the second loop is left alone by a second merge. */
  lemma {:induction false} MergeOldFresh(news: seq<OutputList>, i: int)
    requires 0 <= i < |news| && forall j :: 0 <= j < i ==> news[j].name != news[i].name
    ensures MergeOld(news[i], news) == news[i]
  {
    var l := news[i];
    assert FindList(news, l.name) == Some(l) by {
      FindByNameFirst(news, ListName, i);
    }
    assert Fresh(l.items, MatchedNames(l.items, l.items)) == [] by {
      AppendedAreNewNames(l.items, l.items);
      forall x | x in l.items ensures x.name in Names(l.items, ItemName) {
        InNames(l.items, ItemName, x.name);
      }
      FreshOfCovered(l.items, Names(l.items, ItemName));
    }
    assert l.items + [] == l.items;
  }

  lemma {:induction false} FreshListsAreFirst(acc: seq<OutputList>, news: seq<OutputList>, l: OutputList)
    requires l in FreshLists(acc, news)
    ensures exists i :: 0 <= i < |news| && news[i] == l && forall j :: 0 <= j < i ==> news[j].name != news[i].name
  {
    var init := news[..|news| - 1];
    if l in FreshLists(acc, init) {
      FreshListsAreFirst(acc, init, l);
      var i :| 0 <= i < |init| && init[i] == l && forall j :: 0 <= j < i ==> init[j].name != init[i].name;
      assert news[i] == l;
      assert forall j :: 0 <= j < i ==> news[j] == init[j];
    } else {
      assert FirstFresh(acc, news, |news| - 1) && l == news[|news| - 1];
    }
  }

  /** Every list of a merge result is left alone by a second merge with the same data. */
  lemma {:induction false} DeltaListsStable(latest: Output, prev: Output)
    ensures forall i :: 0 <= i < |DeltaOf(latest, prev).lists| ==>
      MergeOld(DeltaOf(latest, prev).lists[i], latest.lists) == DeltaOf(latest, prev).lists[i]
  {
    var news := latest.lists;
    var ms := MergedOld(prev.lists, news);
    var fl := FreshLists(ms, news);
    var m := DeltaOf(latest, prev).lists;
    AddNewAppendsFresh(ms, news);
    assert m == ms + fl;
    forall i | 0 <= i < |m| ensures MergeOld(m[i], news) == m[i] {
      if i < |ms| {
        MergeOldTwice(prev.lists[i], news);
      } else {
        assert m[i] in fl;
        FreshListsAreFirst(ms, news, m[i]);
        var k :| 0 <= k < |news| && news[k] == m[i] && forall j :: 0 <= j < k ==> news[j].name != news[k].name;
        MergeOldFresh(news, k);
      }
    }
  }

  /** Every new list's name is among the names of a merge result. */
  lemma {:induction false} DeltaCoversNewNames(latest: Output, prev: Output)
    ensures forall i :: 0 <= i < |latest.lists| ==> latest.lists[i].name in Names(DeltaOf(latest, prev).lists, ListName)
  {
    var news := latest.lists;
    var ms := MergedOld(prev.lists, news);
    var fl := FreshLists(ms, news);
    var m := DeltaOf(latest, prev).lists;
    AddNewAppendsFresh(ms, news);
    NamesAppend(ms, fl, ListName);
    forall i | 0 <= i < |news| ensures news[i].name in Names(m, ListName) {
      var n := news[i].name;
      assert Names(news, ListName)[i] == n;
      FreshListsNames(ms, news, n);
    }
  }

  /** Merging the same new data a second time adds nothing. */
  lemma {:induction false} DeltaIdempotent(latest: Output, prev: Output)
    ensures DeltaOf(latest, DeltaOf(latest, prev)) == DeltaOf(latest, prev)
  {
    var news := latest.lists;
    var m := DeltaOf(latest, prev).lists;
    DeltaListsStable(latest, prev);
    assert MergedOld(m, news) == m;
    DeltaCoversNewNames(latest, prev);
    AddNewAppendsFresh(m, news);
    FreshListsEmpty(m, news);
  }

  // ----- The unit-test scenarios -----

  /** With no new lists the result is the old snapshot. */
  lemma {:induction false} DeltaOfEmpty(prev: Output)
    ensures DeltaOf(Output([]), prev) == prev
  {
    assert MergedOld(prev.lists, []) == prev.lists;
  }

  function TestItem(n: string): OutputItem { OutputItem(n, "", "", "") }
  function TestList(n: string, items: seq<OutputItem>): OutputList { OutputList(n, "", "", items) }
  function ThreeItems(): seq<OutputItem> { [TestItem("ITEM0"), TestItem("ITEM1"), TestItem("ITEM2")] }
  function FourItems(): seq<OutputItem> { ThreeItems() + [TestItem("ITEM3")] }

  lemma {:induction false} FreshFourthItem()
    ensures Fresh(FourItems(), Names(ThreeItems(), ItemName)) == [TestItem("ITEM3")]
  {
    var olds := ThreeItems();
    var ns := Names(olds, ItemName);
    assert ns == ["ITEM0", "ITEM1", "ITEM2"];
    FreshOfCovered(olds, ns);
    assert FourItems()[..3] == olds;
  }

  /** Old list with ITEM0..ITEM2 and new list with ITEM0..ITEM3: the merged list has 4 items. */
  lemma {:induction false} DeltaAddsFourthItem()
    ensures |DeltaOf(Output([TestList("LIST1", FourItems())]), Output([TestList("LIST1", ThreeItems())])).lists[0].items| == 4
  {
    var prev := Output([TestList("LIST1", ThreeItems())]);
    var latest := Output([TestList("LIST1", FourItems())]);
    MergeKeepsOld(latest, prev);
    FindByNameFirst(latest.lists, ListName, 0);
    FreshFourthItem();
  }

  /** An old list and a new list of another name: the result is the old list
      unchanged, then the new list. */
  lemma {:induction false} NewListAppended(o: OutputList, n: OutputList)
    requires o.name != n.name
    ensures DeltaOf(Output([n]), Output([o])).lists == [o, n]
  {
    assert FindList([n], o.name).None?;
    assert MergedOld([o], [n]) == [o];
    assert [n][..0] == [];
    assert AddNew([o], []) == [o];
    assert FindList([o], n.name).None?;
    assert AddNew([o], [n]) == [o] + [n];
  }

  /** Old LIST1 and new LIST2: the result has two lists, LIST1 then LIST2. */
  lemma {:induction false} DeltaAddsNewList()
    ensures var r := DeltaOf(Output([TestList("LIST2", [TestItem("ITEM0")])]), Output([TestList("LIST1", ThreeItems())]));
      |r.lists| == 2 && r.lists[0].name == "LIST1" && r.lists[1] == TestList("LIST2", [TestItem("ITEM0")])
  {
    assert "LIST1" != "LIST2" by { assert "LIST1"[4] != "LIST2"[4]; }
    NewListAppended(TestList("LIST1", ThreeItems()), TestList("LIST2", [TestItem("ITEM0")]));
  }
}
