/** The older snapshot merge of the first crawler package: old lists gain the
    new items of their same-named new list, and lists present only in the new
    crawl are dropped. Its `find_list` is the same first-match search as
    `Delta.FindList`, which this module reuses. */
module LegacyDelta {
  import opened Wrappers
  import opened Serialize
  import opened Delta

  /** What the older `delta` returns for deserialised `latest` and `prev` snapshots. */
  function LegacyDeltaOf(latest: Output, prev: Output): Output
  {
    Output(MergedOld(prev.lists, latest.lists))
  }

  /** The older `delta`, with the old snapshot given: its one loop is the first
      loop of the newer version, and nothing follows it. */
  method LegacyDelta(latest: Output, prev: Output) returns (r: Output)
    ensures r == LegacyDeltaOf(latest, prev)
  {
    var lists := MergeOldLists(prev.lists, latest.lists);
    r := Output(lists);
  }

  /** The output has exactly the old lists, same count, order, names, sources and
      descriptions; each keeps its items as a prefix and gains the same-named new
      list's items whose names it lacks, in new order; a list without a
      same-named new list is unchanged. */
  lemma {:induction false} LegacyKeepsOld(latest: Output, prev: Output)
    ensures |LegacyDeltaOf(latest, prev).lists| == |prev.lists|
    ensures forall i :: 0 <= i < |prev.lists| ==>
      var o := prev.lists[i];
      var m := LegacyDeltaOf(latest, prev).lists[i];
      m.name == o.name && m.source == o.source && m.description == o.description &&
      (FindList(latest.lists, o.name).None? ==> m == o) &&
      (FindList(latest.lists, o.name).Some? ==>
         m.items == o.items + Fresh(FindList(latest.lists, o.name).value.items, Names(o.items, ItemName)))
  {
    forall i | 0 <= i < |prev.lists| ensures
      var o := prev.lists[i];
      var m := LegacyDeltaOf(latest, prev).lists[i];
      m.name == o.name && m.source == o.source && m.description == o.description &&
      (FindList(latest.lists, o.name).None? ==> m == o) &&
      (FindList(latest.lists, o.name).Some? ==>
         m.items == o.items + Fresh(FindList(latest.lists, o.name).value.items, Names(o.items, ItemName)))
    {
      var o := prev.lists[i];
      if FindList(latest.lists, o.name).Some? {
        AppendedAreNewNames(o.items, FindList(latest.lists, o.name).value.items);
      }
    }
  }

  /** With no new lists the result is the old snapshot. */
  lemma {:induction false} LegacyDeltaOfEmpty(prev: Output)
    ensures LegacyDeltaOf(Output([]), prev) == prev
  {
    assert MergedOld(prev.lists, []) == prev.lists;
  }

  /** The two versions agree on the old lists; the newer one only adds lists after them. */
  lemma {:induction false} VersionsAgreeOnOldLists(latest: Output, prev: Output)
    ensures |DeltaOf(latest, prev).lists| >= |prev.lists|
    ensures DeltaOf(latest, prev).lists[..|prev.lists|] == LegacyDeltaOf(latest, prev).lists
  {
  }

  /** Old LIST1 and new LIST2: the older version returns only LIST1, where the
      unit test for the merge expects two lists. */
  lemma {:induction false} LegacyDropsNewList()
    ensures var r := LegacyDeltaOf(Output([TestList("LIST2", [TestItem("ITEM0")])]), Output([TestList("LIST1", ThreeItems())]));
      |r.lists| == 1 && r.lists[0] == TestList("LIST1", ThreeItems())
  {
    var prev := Output([TestList("LIST1", ThreeItems())]);
    var latest := Output([TestList("LIST2", [TestItem("ITEM0")])]);
    assert FindList(latest.lists, "LIST1").None?;
  }
}
