/** The git-history side of the first crawler package, without git: picking the
    README among a commit's file paths, and reducing the per-commit extractions
    of one list to a single record per entry name. */
module AwesomeRepo {
  import opened Wrappers
  import opened Ordering
  import opened Grouping
  import opened Text
  import opened Records

  /** A path is a README when its lower-cased form contains "readme". */
  predicate IsReadme(p: string) {
    Contains(Lower(p), "readme")
  }

  /** The README paths among `paths`, in order. */
  function Readmes(paths: seq<string>): (r: seq<string>)
    ensures forall p :: p in r <==> p in paths && IsReadme(p)
  {
    if paths == [] then []
    else (if IsReadme(paths[0]) then [paths[0]] else []) + Readmes(paths[1..])
  }

  /** `find_readme_file` over the paths of a commit's tree. */
  function FindReadmeFile(paths: seq<string>): Option<string>
  {
    var readmes := Readmes(paths);
    if readmes == [] then None else Some(readmes[0])
  }

  /** The README list is empty exactly when no path is a README. */
  lemma {:induction false} ReadmesEmpty(paths: seq<string>)
    ensures Readmes(paths) == [] <==> forall i :: 0 <= i < |paths| ==> !IsReadme(paths[i])
  {
    if Readmes(paths) != [] {
      assert Readmes(paths)[0] in paths;
    }
  }

  /** The first README path is the first path that is a README. */
  lemma {:induction false} ReadmesHead(paths: seq<string>)
    requires Readmes(paths) != []
    ensures exists i ::
      0 <= i < |paths| && paths[i] == Readmes(paths)[0] && IsReadme(paths[i]) &&
      forall j :: 0 <= j < i ==> !IsReadme(paths[j])
  {
    if IsReadme(paths[0]) {
      assert paths[0] == Readmes(paths)[0];
    } else {
      var tail := paths[1..];
      assert Readmes(paths) == Readmes(tail);
      ReadmesHead(tail);
      var i :| 0 <= i < |tail| && tail[i] == Readmes(tail)[0] && IsReadme(tail[i]) &&
        forall j :: 0 <= j < i ==> !IsReadme(tail[j]);
      assert paths[i + 1] == tail[i];
      forall j | 0 <= j < i + 1 ensures !IsReadme(paths[j]) {
        if j > 0 { assert paths[j] == tail[j - 1]; }
      }
    }
  }

  /** None exactly when no path is a README; otherwise the first README path. */
  lemma {:induction false} FindReadmeFirst(paths: seq<string>)
    ensures FindReadmeFile(paths).None? <==> forall i :: 0 <= i < |paths| ==> !IsReadme(paths[i])
    ensures FindReadmeFile(paths).Some? ==>
      exists i :: 0 <= i < |paths| && paths[i] == FindReadmeFile(paths).value && IsReadme(paths[i]) &&
        forall j :: 0 <= j < i ==> !IsReadme(paths[j])
  {
    ReadmesEmpty(paths);
    if Readmes(paths) != [] {
      ReadmesHead(paths);
    }
  }

  /** A path containing "README" is found regardless of case. */
  lemma {:induction false} UpperCaseReadme(p: string)
    requires p == "docs/README.md"
    ensures FindReadmeFile(["setup.py", p]) == Some(p)
  {
    assert OccursAt(Lower(p), "readme", 5);
    assert !Contains(Lower("setup.py"), "readme") by {
      forall i ensures !OccursAt(Lower("setup.py"), "readme", i) {
        if 0 <= i && i + 6 <= 8 {
          assert Lower("setup.py")[i + 3] != "readme"[3];
        }
      }
    }
    assert Readmes([p]) == [p];
  }

  /** One extraction of an entry from one commit, with that commit's time. */
  datatype AwesomeItemTime = AwesomeItemTime(item: ExtractInfo, time: int)

  function NameOf(x: AwesomeItemTime): string { x.item.name }
  function TimeOf(x: AwesomeItemTime): int { x.time }

  /** What one group of equal-named records yields: the item of the last record
      after a stable sort by time, with the time of the first. */
  function FirstDate(g: seq<AwesomeItemTime>): AwesomeItemTime
    requires g != []
  {
    var t := SortBy(g, TimeOf, Before);
    AwesomeItemTime(t[|t| - 1].item, t[0].time)
  }

  /** What `get_first_date` yields for a name-sorted list. */
  function FirstDates(sorted: seq<AwesomeItemTime>): (r: seq<AwesomeItemTime>)
  {
    var gs := GroupRuns(sorted, NameOf);
    seq(|gs|, i requires 0 <= i < |gs| => FirstDate(gs[i]))
  }

  /** `list.sort(key=name)` on the records: a stable in-place sort by entry name. */
  method SortByName(items: array<AwesomeItemTime>)
    modifies items
    ensures items[..] == SortBy(old(items[..]), NameOf, StrLt)
  {
    var sorted := SortBy(items[..], NameOf, StrLt);
    forall i | 0 <= i < items.Length {
      items[i] := sorted[i];
    }
  }

  /** The loop of `get_first_date` over the runs of a name-sorted list: one
      record per run, the last item by time with the first time. */
  method FirstDatesOf(sorted: seq<AwesomeItemTime>) returns (r: seq<AwesomeItemTime>)
    ensures r == FirstDates(sorted)
  {
    var groups := GroupRuns(sorted, NameOf);
    r := [];
    var k := 0;
    while k < |groups|
      invariant 0 <= k <= |groups|
      invariant |r| == k && forall j :: 0 <= j < k ==> r[j] == FirstDate(groups[j])
    {
      var g := SortBy(groups[k], TimeOf, Before);
      r := r + [AwesomeItemTime(g[|g| - 1].item, g[0].time)];
      k := k + 1;
    }
  }

  /** `get_first_date`: sorts the argument in place by entry name, then yields
      one record per run of equal names. */
  method GetFirstDate(items: array<AwesomeItemTime>) returns (r: seq<AwesomeItemTime>)
    modifies items
    ensures items[..] == SortBy(old(items[..]), NameOf, StrLt)
    ensures r == FirstDates(items[..])
  {
    SortByName(items);
    r := FirstDatesOf(items[..]);
  }

  /** Within one group: the yielded time is the least time, and the yielded item
      belongs to a record with the greatest time. */
  lemma {:induction false} FirstDateOfGroup(g: seq<AwesomeItemTime>)
    requires g != []
    ensures forall y :: y in g ==> FirstDate(g).time <= y.time
    ensures exists x :: x in g && x.time == FirstDate(g).time
    ensures exists x :: x in g && x.item == FirstDate(g).item && forall y :: y in g ==> y.time <= x.time
  {
    var t := SortBy(g, TimeOf, Before);
    IntOrdersStrictTotal();
    SortBySorted(g, TimeOf, Before);
    assert forall y :: y in g <==> y in t by {
      forall y ensures y in g <==> y in t {
        assert y in g <==> y in multiset(g);
        assert y in t <==> y in multiset(t);
      }
    }
    assert t[0] in g && t[|t| - 1] in g;
    forall y | y in g ensures t[0].time <= y.time && y.time <= t[|t| - 1].time {
      var j :| 0 <= j < |t| && t[j] == y;
      if j > 0 { assert !Before(TimeOf(t[j]), TimeOf(t[0])); }
      if j < |t| - 1 { assert !Before(TimeOf(t[|t| - 1]), TimeOf(t[j])); }
    }
  }

  /** The groups of the name-sorted input: ascending names, each group exactly
      the input's records of that name, every input name present. */
  lemma {:induction false} GroupsOfSorted(s: seq<AwesomeItemTime>)
    ensures var gs := GroupRuns(SortBy(s, NameOf, StrLt), NameOf);
      KeysIncrease(gs, NameOf, StrLt) && IsGrouping(s, gs, NameOf)
  {
    StrLtStrictTotal();
    SortedRuns(s, NameOf, StrLt);
  }

  /** `t` is the least time among the records of `s` named `name`, and one of them has it. */
  ghost predicate IsEarliestTime(s: seq<AwesomeItemTime>, name: string, t: int) {
    && (forall y :: y in s && NameOf(y) == name ==> t <= y.time)
    && (exists x :: x in s && NameOf(x) == name && x.time == t)
  }

  /** `x` is a record of `s` with the greatest time among the records of its name. */
  ghost predicate IsLatest(s: seq<AwesomeItemTime>, x: AwesomeItemTime) {
    x in s && forall y :: y in s && NameOf(y) == NameOf(x) ==> y.time <= x.time
  }

  /** Some record of `s` has the greatest time among the records of its name and carries `item`. */
  ghost predicate IsLatestItem(s: seq<AwesomeItemTime>, item: ExtractInfo) {
    exists x :: IsLatest(s, x) && x.item == item
  }

  /** Some record of `s` is named `name`. */
  ghost predicate NameIn(s: seq<AwesomeItemTime>, name: string) {
    exists x :: x in s && NameOf(x) == name
  }

  /** Some yielded record is named `name`. */
  ghost predicate Yielded(r: seq<AwesomeItemTime>, name: string) {
    exists i :: 0 <= i < |r| && r[i].item.name == name
  }

  /** The record yielded for the group of name k, when that group is exactly the
      input's records of name k: it has name k, the least time among them, and
      the item of one of them with the greatest time. */
  lemma {:induction false} EntryOfGroup(s: seq<AwesomeItemTime>, g: seq<AwesomeItemTime>, k: string)
    requires g != [] && NameOf(g[0]) == k && g == KeyFilter(s, NameOf, k)
    ensures FirstDate(g).item.name == k
    ensures IsEarliestTime(s, k, FirstDate(g).time)
    ensures exists x :: IsLatest(s, x) && x.item == FirstDate(g).item
  {
    FirstDateOfGroup(g);
    forall y ensures y in g <==> y in s && NameOf(y) == k {
      KeyFilterMember(s, NameOf, k, y);
    }
    var x :| x in g && x.item == FirstDate(g).item && forall y :: y in g ==> y.time <= x.time;
    assert IsLatest(s, x);
  }

  /** The yielded records line up with the groups of the sorted input. */
  lemma {:induction false} FirstDatesAt(sorted: seq<AwesomeItemTime>)
    ensures var gs := GroupRuns(sorted, NameOf);
      |FirstDates(sorted)| == |gs| && forall i :: 0 <= i < |gs| ==> FirstDates(sorted)[i] == FirstDate(gs[i])
  {
  }

  /** The i-th yielded record is that of the group of its own name. */
  lemma {:induction false} EntryAt(s: seq<AwesomeItemTime>, r: seq<AwesomeItemTime>, i: int) returns (x: AwesomeItemTime)
    requires r == FirstDates(SortBy(s, NameOf, StrLt)) && 0 <= i < |r|
    ensures IsEarliestTime(s, r[i].item.name, r[i].time)
    ensures IsLatest(s, x) && x.item == r[i].item
  {
    var t := SortBy(s, NameOf, StrLt);
    var gs := GroupRuns(t, NameOf);
    GroupsOfSorted(s);
    FirstDatesAt(t);
    EntryOfGroup(s, gs[i], NameOf(gs[i][0]));
    x :| IsLatest(s, x) && x.item == FirstDate(gs[i]).item;
  }

  /** The yielded names strictly increase: ascending order, one record per name. */
  lemma {:induction false} FirstDatesAscending(s: seq<AwesomeItemTime>, r: seq<AwesomeItemTime>)
    requires r == FirstDates(SortBy(s, NameOf, StrLt))
    ensures forall i, j :: 0 <= i < j < |r| ==> StrLt(r[i].item.name, r[j].item.name)
  {
    var t := SortBy(s, NameOf, StrLt);
    var gs := GroupRuns(t, NameOf);
    GroupsOfSorted(s);
    FirstDatesAt(t);
    forall i | 0 <= i < |r| ensures r[i].item.name == NameOf(gs[i][0]) {
      EntryOfGroup(s, gs[i], NameOf(gs[i][0]));
    }
  }

  /** The yielded names are exactly the input's names: each is the name of some
      input record, and every input record's name is yielded. */
  lemma {:induction false} FirstDatesCover(s: seq<AwesomeItemTime>, r: seq<AwesomeItemTime>)
    requires r == FirstDates(SortBy(s, NameOf, StrLt))
    ensures forall i :: 0 <= i < |r| ==> NameIn(s, r[i].item.name)
    ensures forall x :: x in s ==> Yielded(r, NameOf(x))
  {
    forall i | 0 <= i < |r| ensures NameIn(s, r[i].item.name) {
      var x := EntryAt(s, r, i);
      assert x in s && NameOf(x) == r[i].item.name;
    }
    var t := SortBy(s, NameOf, StrLt);
    var gs := GroupRuns(t, NameOf);
    GroupsOfSorted(s);
    FirstDatesAt(t);
    forall x | x in s ensures Yielded(r, NameOf(x)) {
      var i :| 0 <= i < |gs| && gs[i] != [] && NameOf(gs[i][0]) == NameOf(x);
      EntryOfGroup(s, gs[i], NameOf(gs[i][0]));
      assert r[i].item.name == NameOf(x);
    }
  }

  /** Each yielded time is the earliest time among the input records of that
      name, and is the time of one of them. */
  lemma {:induction false} FirstDatesEarliest(s: seq<AwesomeItemTime>, r: seq<AwesomeItemTime>)
    requires r == FirstDates(SortBy(s, NameOf, StrLt))
    ensures forall i :: 0 <= i < |r| ==> IsEarliestTime(s, r[i].item.name, r[i].time)
  {
    forall i | 0 <= i < |r| ensures IsEarliestTime(s, r[i].item.name, r[i].time) {
      var x := EntryAt(s, r, i);
    }
  }

  /** Each yielded item is the item of an input record of that name whose time
      is the latest among them. */
  lemma {:induction false} FirstDatesLatestItem(s: seq<AwesomeItemTime>, r: seq<AwesomeItemTime>)
    requires r == FirstDates(SortBy(s, NameOf, StrLt))
    ensures forall i :: 0 <= i < |r| ==> IsLatestItem(s, r[i].item)
  {
    forall i | 0 <= i < |r| ensures IsLatestItem(s, r[i].item) {
      var x := EntryAt(s, r, i);
      assert IsLatest(s, x) && x.item == r[i].item;
    }
  }
}
