/** Probabilistic sampling of the repositories to crawl: a repository that was
    updated recently is re-crawled with a high probability, a stale one with a
    low probability, and one missing from the previous snapshot always.

    Instants are whole seconds, with 0 standing for `datetime.min`; `parse`
    stands for `datetime.fromisoformat` (None where it raises ValueError),
    `now` for `datetime.now()`, and `random(k)` for the k-th value drawn by
    `random.random()`. Probabilities are integer percentages. */
module Sampling {
  import opened Wrappers
  import opened Serialize
  import opened Records

  const Day: int := 86400

  /** The latest parseable item time, or 0 (`datetime.min`) when none parses. */
  function LastUpdate(items: seq<OutputItem>, parse: string -> Option<nat>): (t: nat)
    ensures forall i :: 0 <= i < |items| && parse(items[i].time).Some? ==> parse(items[i].time).value <= t
    ensures t == 0 || exists i :: 0 <= i < |items| && parse(items[i].time) == Some(t)
  {
    if items == [] then 0
    else
      var rest := LastUpdate(items[..|items| - 1], parse);
      var p := parse(items[|items| - 1].time);
      if p.Some? && p.value > rest then p.value else rest
  }

  /** `get_last_update_time`: the running maximum over the parseable item times. */
  method GetLastUpdateTime(repoData: OutputList, parse: string -> Option<nat>) returns (latest: nat)
    ensures latest == LastUpdate(repoData.items, parse)
    ensures repoData.items == [] ==> latest == 0
  {
    if repoData.items == [] {
      return 0;
    }
    latest := 0;
    var i := 0;
    while i < |repoData.items|
      invariant 0 <= i <= |repoData.items|
      invariant latest == LastUpdate(repoData.items[..i], parse)
    {
      assert repoData.items[..i + 1][..i] == repoData.items[..i];
      var itemTime := parse(repoData.items[i].time);
      if itemTime.Some? && itemTime.value > latest {
        latest := itemTime.value;
      }
      i := i + 1;
    }
    assert repoData.items[..i] == repoData.items;
  }

  /** With no parseable time the last update is `datetime.min`. */
  lemma {:induction false} LastUpdateNoneParse(items: seq<OutputItem>, parse: string -> Option<nat>)
    requires forall i :: 0 <= i < |items| ==> parse(items[i].time).None?
    ensures LastUpdate(items, parse) == 0
  {
  }

  /** `calculate_sampling_probability`, in percent, for an update at `lastUpdate` seen at `now`. */
  function ProbabilityPercent(now: int, lastUpdate: int): (p: nat)
    ensures now - lastUpdate <= 30 * Day ==> p == 90
    ensures 30 * Day < now - lastUpdate <= 365 * Day ==> p == 50
    ensures 365 * Day < now - lastUpdate <= 730 * Day ==> p == 20
    ensures 730 * Day < now - lastUpdate ==> p == 5
  {
    var diff := now - lastUpdate;
    if diff <= 30 * Day then 90
    else if diff <= 365 * Day then 50
    else if diff <= 730 * Day then 20
    else if diff <= 1095 * Day then 5
    else 5
  }

  /** The older the last update, the lower the probability. */
  lemma {:induction false} ProbabilityMonotone(now: int, older: int, newer: int)
    requires older <= newer
    ensures ProbabilityPercent(now, older) <= ProbabilityPercent(now, newer)
  {
  }

  /** `{repo_data.name: repo_data for repo_data in lists}[name]`: the last list of that name wins. */
  function Lookup(lists: seq<OutputList>, name: string): (r: Option<OutputList>)
    ensures r.None? <==> forall i :: 0 <= i < |lists| ==> lists[i].name != name
    ensures r.Some? ==> exists i :: 0 <= i < |lists| && lists[i] == r.value && r.value.name == name &&
                                    forall j :: i < j < |lists| ==> lists[j].name != name
  {
    if lists == [] then None
    else if lists[|lists| - 1].name == name then Some(lists[|lists| - 1])
    else
      var init := lists[..|lists| - 1];
      var r := Lookup(init, name);
      if r.Some? then
        ghost var i :| 0 <= i < |init| && init[i] == r.value && r.value.name == name &&
                       forall j :: i < j < |init| ==> init[j].name != name;
        assert lists[i] == r.value;
        assert forall j :: i < j < |lists| ==> lists[j].name != name by {
          forall j | i < j < |lists| ensures lists[j].name != name {
            if j < |lists| - 1 { assert lists[j] == init[j]; }
          }
        }
        r
      else
        assert forall i :: 0 <= i < |lists| - 1 ==> lists[i] == init[i];
        r
  }

  datatype SamplingError = ZeroDivision

  /** Whether the draw for a repository is made: only when the snapshot has its list. */
  function DrawFor(lists: seq<OutputList>, repo: AwesomeList): nat
  {
    if Lookup(lists, repo.name).Some? then 1 else 0
  }

  /** The number of draws made on `repos`: one per repository found in the snapshot. */
  function Draws(repos: seq<AwesomeList>, lists: seq<OutputList>): (n: nat)
    ensures n <= |repos|
  {
    if repos == [] then 0
    else Draws(repos[..|repos| - 1], lists) + DrawFor(lists, repos[|repos| - 1])
  }

  /** Whether a repository is crawled when the k-th draw is due: always when the
      snapshot lacks it, otherwise when the draw is below its sampling probability. */
  predicate KeepRepo(repo: AwesomeList, lists: seq<OutputList>, now: int,
                     parse: string -> Option<nat>, random: nat -> real, k: nat)
  {
    match Lookup(lists, repo.name)
    case None => true
    case Some(d) => random(k) < ProbabilityPercent(now, LastUpdate(d.items, parse)) as real / 100.0
  }

  /** The repositories kept from `repos`, the draws numbered from 0 in input order. */
  function Kept(repos: seq<AwesomeList>, lists: seq<OutputList>, now: int,
                parse: string -> Option<nat>, random: nat -> real): seq<AwesomeList>
  {
    if repos == [] then []
    else
      var init := repos[..|repos| - 1];
      var last := repos[|repos| - 1];
      Kept(init, lists, now, parse, random) +
      (if KeepRepo(last, lists, now, parse, random, Draws(init, lists)) then [last] else [])
  }

  /** `filter_repositories_by_activity`. */
  method FilterRepositories(repos: seq<AwesomeList>, s3Data: Option<Output>, now: int,
                            parse: string -> Option<nat>, random: nat -> real)
    returns (r: Result<seq<AwesomeList>, SamplingError>)
    ensures s3Data.None? || s3Data.value.lists == [] ==> r == Ok(repos)
    ensures s3Data.Some? && s3Data.value.lists != [] ==>
      r == if repos == [] then Err(ZeroDivision) else Ok(Kept(repos, s3Data.value.lists, now, parse, random))
  {
    if s3Data.None? || s3Data.value.lists == [] {
      return Ok(repos);
    }
    var lookup := s3Data.value.lists;
    var filtered: seq<AwesomeList> := [];
    var totalRepos := |repos|;
    var k: nat := 0;
    var i := 0;
    while i < |repos|
      invariant 0 <= i <= |repos|
      invariant k == Draws(repos[..i], lookup)
      invariant filtered == Kept(repos[..i], lookup, now, parse, random)
    {
      assert repos[..i + 1][..i] == repos[..i];
      var repo := repos[i];
      var repoData := Lookup(lookup, repo.name);
      if repoData.None? {
        filtered := filtered + [repo];
      } else {
        var lastUpdate := GetLastUpdateTime(repoData.value, parse);
        var probability := ProbabilityPercent(now, lastUpdate);
        if random(k) < probability as real / 100.0 {
          filtered := filtered + [repo];
        }
        k := k + 1;
      }
      i := i + 1;
    }
    assert repos[..i] == repos;
    if totalRepos == 0 {
      return Err(ZeroDivision);
    }
    return Ok(filtered);
  }

  /** `a` is a subsequence of `b`. */
  ghost predicate Subsequence<T>(a: seq<T>, b: seq<T>)
    decreases |b|
  {
    if a == [] then true
    else if b == [] then false
    else (a[|a| - 1] == b[|b| - 1] && Subsequence(a[..|a| - 1], b[..|b| - 1])) || Subsequence(a, b[..|b| - 1])
  }

  /** The filter keeps repositories in input order and invents none. */
  lemma {:induction false} KeptIsSubsequence(repos: seq<AwesomeList>, lists: seq<OutputList>, now: int,
                                             parse: string -> Option<nat>, random: nat -> real)
    ensures Subsequence(Kept(repos, lists, now, parse, random), repos)
  {
    if repos != [] {
      var init := repos[..|repos| - 1];
      var rest := Kept(init, lists, now, parse, random);
      KeptIsSubsequence(init, lists, now, parse, random);
      var r := Kept(repos, lists, now, parse, random);
      if r != rest {
        assert r == rest + [repos[|repos| - 1]];
        assert r[..|r| - 1] == rest;
      }
    }
  }

  /** A repository whose name is not in the snapshot is always kept. */
  lemma {:induction false} KeptUnknown(repos: seq<AwesomeList>, lists: seq<OutputList>, now: int,
                                       parse: string -> Option<nat>, random: nat -> real, x: AwesomeList)
    requires x in repos && forall i :: 0 <= i < |lists| ==> lists[i].name != x.name
    ensures x in Kept(repos, lists, now, parse, random)
  {
    var init := repos[..|repos| - 1];
    if repos[|repos| - 1] != x {
      assert x in init by {
        var i :| 0 <= i < |repos| && repos[i] == x;
        assert init[i] == x;
      }
      KeptUnknown(init, lists, now, parse, random, x);
    }
  }

  /** A repository that is kept came from the input. */
  lemma {:induction false} KeptFromInput(repos: seq<AwesomeList>, lists: seq<OutputList>, now: int,
                                         parse: string -> Option<nat>, random: nat -> real)
    ensures forall x :: x in Kept(repos, lists, now, parse, random) ==> x in repos
    ensures |Kept(repos, lists, now, parse, random)| <= |repos|
  {
    if repos != [] {
      var init := repos[..|repos| - 1];
      KeptFromInput(init, lists, now, parse, random);
      forall x | x in init ensures x in repos {
        var i :| 0 <= i < |init| && init[i] == x;
        assert repos[i] == x;
      }
    }
  }

  /** `log_sampling_statistics` counters. */
  datatype Stats = Stats(lastMonth: nat, lastYear: nat, last2Years: nat, olderThan3Years: nat, noData: nat)

  function Total(s: Stats): nat { s.lastMonth + s.lastYear + s.last2Years + s.olderThan3Years + s.noData }

  /** The counter a found repository goes to; the last branch is the catch-all `else`. */
  function Bump(s: Stats, now: int, lastUpdate: int): (t: Stats)
    ensures Total(t) == Total(s) + 1 && t.noData == s.noData
  {
    var diff := now - lastUpdate;
    if diff <= 30 * Day then s.(lastMonth := s.lastMonth + 1)
    else if diff <= 365 * Day then s.(lastYear := s.lastYear + 1)
    else if diff <= 730 * Day then s.(last2Years := s.last2Years + 1)
    else s.(olderThan3Years := s.olderThan3Years + 1)
  }

  /** Each counter matches a sampling rate: last month 90%, last year 50%, last 2 years 20%, older 5%. */
  lemma {:induction false} BumpMatchesProbability(s: Stats, now: int, lastUpdate: int)
    ensures var t := Bump(s, now, lastUpdate);
      var p := ProbabilityPercent(now, lastUpdate);
      (t.lastMonth == s.lastMonth + 1 <==> p == 90) &&
      (t.lastYear == s.lastYear + 1 <==> p == 50) &&
      (t.last2Years == s.last2Years + 1 <==> p == 20) &&
      (t.olderThan3Years == s.olderThan3Years + 1 <==> p == 5)
  {
  }

  /** The counters after the first repositories. */
  function Count(repos: seq<AwesomeList>, lists: seq<OutputList>, now: int, parse: string -> Option<nat>): Stats
  {
    if repos == [] then Stats(0, 0, 0, 0, 0)
    else
      var s := Count(repos[..|repos| - 1], lists, now, parse);
      match Lookup(lists, repos[|repos| - 1].name)
      case None => s.(noData := s.noData + 1)
      case Some(d) => Bump(s, now, LastUpdate(d.items, parse))
  }

  /** Every repository lands in exactly one counter. */
  lemma {:induction false} CountTotal(repos: seq<AwesomeList>, lists: seq<OutputList>, now: int, parse: string -> Option<nat>)
    ensures Total(Count(repos, lists, now, parse)) == |repos|
  {
    if repos != [] {
      CountTotal(repos[..|repos| - 1], lists, now, parse);
    }
  }

  /** `no_data` counts the repositories missing from the snapshot. */
  lemma {:induction false} CountNoData(repos: seq<AwesomeList>, lists: seq<OutputList>, now: int, parse: string -> Option<nat>)
    ensures Count(repos, lists, now, parse).noData == |repos| - Draws(repos, lists)
  {
    if repos != [] {
      CountNoData(repos[..|repos| - 1], lists, now, parse);
    }
  }

  /** The loop of `log_sampling_statistics`: each repository counted once, as
      missing from the snapshot or by the age of its newest item. */
  method CountStats(repos: seq<AwesomeList>, lookup: seq<OutputList>, now: int, parse: string -> Option<nat>)
    returns (stats: Stats)
    ensures stats == Count(repos, lookup, now, parse)
  {
    stats := Stats(0, 0, 0, 0, 0);
    var i := 0;
    while i < |repos|
      invariant 0 <= i <= |repos|
      invariant stats == Count(repos[..i], lookup, now, parse)
    {
      assert repos[..i + 1][..i] == repos[..i];
      var repoData := Lookup(lookup, repos[i].name);
      if repoData.None? {
        stats := stats.(noData := stats.noData + 1);
      } else {
        var lastUpdate := GetLastUpdateTime(repoData.value, parse);
        stats := Bump(stats, now, lastUpdate);
      }
      i := i + 1;
    }
    assert repos[..i] == repos;
  }

  /** `log_sampling_statistics`: nothing without snapshot data; the counters
      otherwise, except that the percentages divide by zero on an empty repository list. */
  method LogSamplingStatistics(repos: seq<AwesomeList>, s3Data: Option<Output>, now: int, parse: string -> Option<nat>)
    returns (r: Result<Option<Stats>, SamplingError>)
    ensures s3Data.None? || s3Data.value.lists == [] ==> r == Ok(None)
    ensures s3Data.Some? && s3Data.value.lists != [] ==>
      r == if repos == [] then Err(ZeroDivision) else Ok(Some(Count(repos, s3Data.value.lists, now, parse)))
  {
    if s3Data.None? || s3Data.value.lists == [] {
      return Ok(None);
    }
    var stats := CountStats(repos, s3Data.value.lists, now, parse);
    if |repos| == 0 {
      return Err(ZeroDivision);
    }
    return Ok(Some(stats));
  }
}
