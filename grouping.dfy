/** Grouping of item sequences by key: `itertools.groupby` over a sorted
    sequence (runs), lodash `groupBy` (groups in order of first appearance),
    and the day-bucketing that the backend timeline and the legacy web client
    both compute. */
module Grouping {
  import opened Ordering

  function Flatten<T>(gs: seq<seq<T>>): (r: seq<T>)
  {
    if gs == [] then [] else gs[0] + Flatten(gs[1..])
  }

  lemma {:induction false} InFlatten<T>(gs: seq<seq<T>>, x: T)
    requires x in Flatten(gs)
    ensures exists i :: 0 <= i < |gs| && x in gs[i]
  {
    if x !in gs[0] {
      InFlatten(gs[1..], x);
      var i :| 0 <= i < |gs[1..]| && x in gs[1..][i];
      assert x in gs[i + 1];
    }
  }

  /** Every group is non-empty and all of its elements share its first element's key. */
  ghost predicate UniformGroups<T, K>(gs: seq<seq<T>>, key: T -> K) {
    forall i :: 0 <= i < |gs| ==>
      gs[i] != [] && forall j :: 0 <= j < |gs[i]| ==> key(gs[i][j]) == key(gs[i][0])
  }

  /** `itertools.groupby(s, key)`: the maximal runs of consecutive elements with equal keys. */
  function GroupRuns<T, K(==)>(s: seq<T>, key: T -> K): (r: seq<seq<T>>)
    ensures UniformGroups(r, key)
    ensures Flatten(r) == s
    ensures s != [] ==> r != [] && r[0][0] == s[0]
    ensures forall i :: 0 <= i < |r| - 1 ==> key(r[i][0]) != key(r[i + 1][0])
  {
    if s == [] then []
    else
      var rest := GroupRuns(s[1..], key);
      assert s == [s[0]] + s[1..];
      if rest != [] && key(rest[0][0]) == key(s[0]) then
        ExtendRun(s[0], rest, key);
        [[s[0]] + rest[0]] + rest[1..]
      else
        NewRun(s[0], rest, key);
        [[s[0]]] + rest
  }

  /** Adding an element whose key matches the first run extends that run. */
  lemma {:induction false} ExtendRun<T, K>(x: T, rest: seq<seq<T>>, key: T -> K)
    requires UniformGroups(rest, key) && rest != [] && key(rest[0][0]) == key(x)
    requires forall i :: 0 <= i < |rest| - 1 ==> key(rest[i][0]) != key(rest[i + 1][0])
    ensures var r := [[x] + rest[0]] + rest[1..];
      UniformGroups(r, key) && Flatten(r) == [x] + Flatten(rest) && r[0][0] == x &&
      forall i :: 0 <= i < |r| - 1 ==> key(r[i][0]) != key(r[i + 1][0])
  {
    ExtendRunFlatten(x, rest);
    ExtendRunUniform(x, rest, key);
  }

  lemma {:induction false} ExtendRunFlatten<T>(x: T, rest: seq<seq<T>>)
    requires rest != []
    ensures Flatten([[x] + rest[0]] + rest[1..]) == [x] + Flatten(rest)
  {
    var g := [x] + rest[0];
    var r := [g] + rest[1..];
    assert r[1..] == rest[1..];
    assert Flatten(r) == g + Flatten(rest[1..]);
    assert Flatten(rest) == rest[0] + Flatten(rest[1..]);
    assert g + Flatten(rest[1..]) == [x] + (rest[0] + Flatten(rest[1..]));
  }

  lemma {:induction false} ExtendRunUniform<T, K>(x: T, rest: seq<seq<T>>, key: T -> K)
    requires UniformGroups(rest, key) && rest != [] && key(rest[0][0]) == key(x)
    requires forall i :: 0 <= i < |rest| - 1 ==> key(rest[i][0]) != key(rest[i + 1][0])
    ensures var r := [[x] + rest[0]] + rest[1..];
      UniformGroups(r, key) && r[0][0] == x &&
      forall i :: 0 <= i < |r| - 1 ==> key(r[i][0]) != key(r[i + 1][0])
  {
    var g := [x] + rest[0];
    var r := [g] + rest[1..];
    forall j | 0 <= j < |g| ensures key(g[j]) == key(x) {
      if j > 0 {
        assert g[j] == rest[0][j - 1];
      }
    }
    assert forall i :: 1 <= i < |r| ==> r[i] == rest[i];
  }

  /** Adding an element whose key differs from the first run starts a new run. */
  lemma {:induction false} NewRun<T, K>(x: T, rest: seq<seq<T>>, key: T -> K)
    requires UniformGroups(rest, key) && (rest != [] ==> key(rest[0][0]) != key(x))
    requires forall i :: 0 <= i < |rest| - 1 ==> key(rest[i][0]) != key(rest[i + 1][0])
    ensures var r := [[x]] + rest;
      UniformGroups(r, key) && Flatten(r) == [x] + Flatten(rest) && r[0][0] == x &&
      forall i :: 0 <= i < |r| - 1 ==> key(r[i][0]) != key(r[i + 1][0])
  {
    var r := [[x]] + rest;
    assert r[1..] == rest;
    assert forall i :: 1 <= i < |r| ==> r[i] == rest[i - 1];
  }

  /** `gs` groups `s` by `key`: every group is non-empty and is exactly the
      elements of `s` with its key, in input order; every element's key has a group. */
  ghost predicate IsGrouping<T(!new), K(!new)>(s: seq<T>, gs: seq<seq<T>>, key: T -> K) {
    && (forall i :: 0 <= i < |gs| ==> gs[i] != [] && gs[i] == KeyFilter(s, key, key(gs[i][0])))
    && (forall x :: x in s ==> exists i :: 0 <= i < |gs| && gs[i] != [] && key(gs[i][0]) == key(x))
  }

  /** The groups' leading keys strictly increase under `lt`. */
  ghost predicate KeysIncrease<T, K>(gs: seq<seq<T>>, key: T -> K, lt: (K, K) -> bool) {
    forall i, j :: 0 <= i < j < |gs| ==> gs[i] != [] && gs[j] != [] && lt(key(gs[i][0]), key(gs[j][0]))
  }

  /** On a sorted sequence the runs' keys strictly increase. */
  lemma {:induction false} RunsOfSorted<T(!new), K(!new)>(s: seq<T>, key: T -> K, lt: (K, K) -> bool)
    requires StrictTotal(lt) && SortedBy(s, key, lt)
    ensures KeysIncrease(GroupRuns(s, key), key, lt)
  {
    if s != [] {
      var rest := GroupRuns(s[1..], key);
      assert SortedBy(s[1..], key, lt) by {
        forall i, j | 0 <= i < j < |s[1..]| ensures !lt(key(s[1..][j]), key(s[1..][i])) {
          assert s[1..][j] == s[j + 1] && s[1..][i] == s[i + 1];
        }
      }
      RunsOfSorted(s[1..], key, lt);
      assert KeysIncrease(rest, key, lt);
      var r := GroupRuns(s, key);
      if rest != [] && key(rest[0][0]) == key(s[0]) {
        assert r == [[s[0]] + rest[0]] + rest[1..];
        forall i, j | 0 <= i < j < |r| ensures lt(key(r[i][0]), key(r[j][0])) {
          if i > 0 {
            assert r[i] == rest[i];
          }
          assert key(r[i][0]) == key(rest[i][0]);
          assert r[j] == rest[j];
          assert lt(key(rest[i][0]), key(rest[j][0]));
        }
      } else {
        assert r == [[s[0]]] + rest;
        if rest != [] {
          assert rest[0][0] == s[1];
          assert !lt(key(s[1]), key(s[0]));
          assert lt(key(s[0]), key(rest[0][0]));
        }
        forall i, j | 0 <= i < j < |r| ensures lt(key(r[i][0]), key(r[j][0])) {
          assert r[j] == rest[j - 1];
          if i > 0 {
            assert r[i] == rest[i - 1];
          } else if j - 1 > 0 {
            assert lt(key(rest[0][0]), key(rest[j - 1][0]));
          }
        }
      }
    }
  }

  lemma {:induction false} KeyFilterUniform<T(!new), K(!new)>(g: seq<T>, key: T -> K, k: K)
    requires g != [] && forall j :: 0 <= j < |g| ==> key(g[j]) == key(g[0])
    ensures KeyFilter(g, key, k) == if key(g[0]) == k then g else []
  {
    if key(g[0]) == k {
      KeyFilterAll(g, key, k);
    } else {
      KeyFilterNone(g, key, k);
    }
  }

  lemma {:induction false} KeyFilterAll<T(!new), K(!new)>(g: seq<T>, key: T -> K, k: K)
    requires forall j :: 0 <= j < |g| ==> key(g[j]) == k
    ensures KeyFilter(g, key, k) == g
  {
    if g != [] {
      KeyFilterAll(g[1..], key, k);
      assert g == [g[0]] + g[1..];
    }
  }

  lemma {:induction false} KeyFilterNone<T(!new), K(!new)>(g: seq<T>, key: T -> K, k: K)
    requires forall j :: 0 <= j < |g| ==> key(g[j]) != k
    ensures KeyFilter(g, key, k) == []
  {
    if g != [] {
      KeyFilterNone(g[1..], key, k);
    }
  }

  /** Filtering the concatenation of uniform groups with distinct keys by one
      group's key gives back exactly that group. */
  lemma {:induction false} KeyFilterOfGroups<T(!new), K(!new)>(gs: seq<seq<T>>, key: T -> K, k: K)
    requires UniformGroups(gs, key)
    requires forall i, j :: 0 <= i < j < |gs| ==> key(gs[i][0]) != key(gs[j][0])
    ensures forall i :: 0 <= i < |gs| && key(gs[i][0]) == k ==> KeyFilter(Flatten(gs), key, k) == gs[i]
    ensures (forall i :: 0 <= i < |gs| ==> key(gs[i][0]) != k) ==> KeyFilter(Flatten(gs), key, k) == []
  {
    if gs != [] {
      KeyFilterOfGroups(gs[1..], key, k);
      KeyFilterAppend(gs[0], Flatten(gs[1..]), key, k);
      KeyFilterUniform(gs[0], key, k);
      if key(gs[0][0]) == k {
        assert forall i :: 0 <= i < |gs[1..]| ==> key(gs[1..][i][0]) != k;
      }
    }
  }

  /** Python's sort-then-groupby: runs of the stably sorted sequence come out in
      increasing key order, and the run of key k is exactly the elements of key k
      in their input order; every element's key has a run. */
  lemma {:induction false} SortedRuns<T(!new), K(!new)>(s: seq<T>, key: T -> K, lt: (K, K) -> bool)
    requires StrictTotal(lt)
    ensures KeysIncrease(GroupRuns(SortBy(s, key, lt), key), key, lt)
    ensures IsGrouping(s, GroupRuns(SortBy(s, key, lt), key), key)
  {
    var t := SortBy(s, key, lt);
    var r := GroupRuns(t, key);
    SortBySorted(s, key, lt);
    RunsOfSorted(t, key, lt);
    forall i, j | 0 <= i < j < |r| ensures key(r[i][0]) != key(r[j][0]) {
      assert lt(key(r[i][0]), key(r[j][0]));
    }
    forall i | 0 <= i < |r| ensures r[i] == KeyFilter(s, key, key(r[i][0])) {
      KeyFilterOfGroups(r, key, key(r[i][0]));
      SortByKeyFilter(s, key, lt, key(r[i][0]));
    }
    EveryKeyHasRun(s, t, r, key);
  }

  /** When the runs flatten to a permutation of `s`, every element of `s` has
      a run of its key. */
  lemma {:induction false} EveryKeyHasRun<T(!new), K(!new)>(s: seq<T>, t: seq<T>, r: seq<seq<T>>, key: T -> K)
    requires multiset(s) == multiset(t) && Flatten(r) == t && UniformGroups(r, key)
    ensures forall x :: x in s ==> exists i :: 0 <= i < |r| && r[i] != [] && key(r[i][0]) == key(x)
  {
    forall x | x in s ensures exists i :: 0 <= i < |r| && r[i] != [] && key(r[i][0]) == key(x) {
      assert x in multiset(s);
      assert x in multiset(t);
      InFlatten(r, x);
      var i :| 0 <= i < |r| && x in r[i];
      var j :| 0 <= j < |r[i]| && r[i][j] == x;
      assert key(r[i][0]) == key(x);
    }
  }

  /** The elements of `s` whose key is not `k`, in order. */
  function Reject<T(!new), K(==)>(s: seq<T>, key: T -> K, k: K): (r: seq<T>)
    ensures |r| <= |s|
    ensures s != [] && key(s[0]) == k ==> |r| < |s|
    ensures forall i :: 0 <= i < |r| ==> key(r[i]) != k
    ensures forall x :: x in r <==> x in s && key(x) != k
  {
    if s == [] then []
    else
      assert s == [s[0]] + s[1..];
      (if key(s[0]) == k then [] else [s[0]]) + Reject(s[1..], key, k)
  }

  lemma {:induction false} KeyFilterOfReject<T(!new), K(!new)>(s: seq<T>, key: T -> K, k: K, k': K)
    requires k' != k
    ensures KeyFilter(Reject(s, key, k), key, k') == KeyFilter(s, key, k')
  {
    if s != [] {
      KeyFilterOfReject(s[1..], key, k, k');
      var rest := Reject(s[1..], key, k);
      if key(s[0]) != k {
        assert Reject(s, key, k) == [s[0]] + rest;
        KeyFilterCons(s[0], rest, key, k');
      } else {
        assert Reject(s, key, k) == rest;
      }
    }
  }

  /** lodash `groupBy` followed by `Object.values`: one group per distinct key,
      in order of the key's first appearance, each group in input order. */
  function GroupFirst<T(!new), K(==)>(s: seq<T>, key: T -> K): (r: seq<seq<T>>)
    decreases |s|
  {
    if s == [] then []
    else [KeyFilter(s, key, key(s[0]))] + GroupFirst(Reject(s, key, key(s[0])), key)
  }

  /** `g` is a group of `s`: non-empty, headed by an element of `s`, and
      exactly the elements of `s` with its key, in input order. */
  ghost predicate GroupOf<T(!new), K(!new)>(s: seq<T>, key: T -> K, g: seq<T>) {
    g != [] && g[0] in s && g == KeyFilter(s, key, key(g[0]))
  }

  /** Each lodash group is a group of the input. */
  lemma {:induction false} GroupFirstFilters<T(!new), K(!new)>(s: seq<T>, key: T -> K)
    ensures forall i :: 0 <= i < |GroupFirst(s, key)| ==> GroupOf(s, key, GroupFirst(s, key)[i])
    decreases |s|
  {
    if s != [] {
      var k0 := key(s[0]);
      var rest := Reject(s, key, k0);
      var r := GroupFirst(s, key);
      var rr := GroupFirst(rest, key);
      GroupFirstFilters(rest, key);
      assert r == [KeyFilter(s, key, k0)] + rr;
      assert KeyFilter(s, key, k0) == [s[0]] + KeyFilter(s[1..], key, k0);
      assert GroupOf(s, key, r[0]);
      forall i | 1 <= i < |r| ensures GroupOf(s, key, r[i]) {
        var g := rr[i - 1];
        assert r[i] == g;
        assert GroupOf(rest, key, g);
        assert key(g[0]) != k0;
        KeyFilterOfReject(s, key, k0, key(g[0]));
      }
    }
  }

  /** The lodash groups have pairwise distinct keys. */
  lemma {:induction false} GroupFirstDistinct<T(!new), K(!new)>(s: seq<T>, key: T -> K)
    ensures forall i, j :: 0 <= i < j < |GroupFirst(s, key)| ==>
      GroupFirst(s, key)[i] != [] && GroupFirst(s, key)[j] != [] &&
      key(GroupFirst(s, key)[i][0]) != key(GroupFirst(s, key)[j][0])
    decreases |s|
  {
    GroupFirstFilters(s, key);
    if s != [] {
      var k0 := key(s[0]);
      var rest := Reject(s, key, k0);
      var r := GroupFirst(s, key);
      var rr := GroupFirst(rest, key);
      GroupFirstFilters(rest, key);
      GroupFirstDistinct(rest, key);
      assert r == [KeyFilter(s, key, k0)] + rr;
      assert GroupOf(s, key, r[0]);
      assert r[0][0] == s[0];
      forall i, j | 0 <= i < j < |r| ensures r[i] != [] && r[j] != [] && key(r[i][0]) != key(r[j][0]) {
        assert r[j] == rr[j - 1];
        assert GroupOf(rest, key, rr[j - 1]);
        if i == 0 {
          assert rr[j - 1][0] in rest;
        } else {
          assert r[i] == rr[i - 1];
        }
      }
    }
  }

  /** Every input element's key has a lodash group. */
  lemma {:induction false} GroupFirstCovers<T(!new), K(!new)>(s: seq<T>, key: T -> K, x: T)
    requires x in s
    ensures exists i :: (0 <= i < |GroupFirst(s, key)| &&
      GroupFirst(s, key)[i] != [] && key(GroupFirst(s, key)[i][0]) == key(x))
    decreases |s|
  {
    GroupFirstFilters(s, key);
    var k0 := key(s[0]);
    var rest := Reject(s, key, k0);
    var r := GroupFirst(s, key);
    var rr := GroupFirst(rest, key);
    assert r == [KeyFilter(s, key, k0)] + rr;
    assert GroupOf(s, key, r[0]);
    assert r[0][0] == s[0];
    if key(x) != k0 {
      assert x in rest;
      GroupFirstCovers(rest, key, x);
      var i :| 0 <= i < |rr| && rr[i] != [] && key(rr[i][0]) == key(x);
      assert r[i + 1] == rr[i];
      assert GroupOf(s, key, r[i + 1]);
    } else {
      assert 0 < |r| && r[0] != [] && key(r[0][0]) == key(x);
    }
  }

  /** One day of a timeline: its items and its date (a day number). */
  datatype Bucket<T> = Bucket(items: seq<T>, date: int)

  /** The dates of a timeline, in timeline order. */
  function Dates<T>(bs: seq<Bucket<T>>): (ds: seq<int>)
    ensures |ds| == |bs| && forall i :: 0 <= i < |bs| ==> ds[i] == bs[i].date
  {
    if bs == [] then [] else [bs[0].date] + Dates(bs[1..])
  }

  /** `bs` is the day-bucketing of `s` by `key`, newest first: every bucket is
      non-empty, carries the date of its first item and is exactly the items of
      that date in input order; dates strictly decrease; every item's date has a bucket. */
  ghost predicate IsBucketing<T(!new)>(s: seq<T>, bs: seq<Bucket<T>>, key: T -> int) {
    && (forall i :: 0 <= i < |bs| ==>
          bs[i].items != [] && bs[i].date == key(bs[i].items[0]) && bs[i].items == KeyFilter(s, key, bs[i].date))
    && (forall i, j :: 0 <= i < j < |bs| ==> bs[i].date > bs[j].date)
    && (forall x :: x in s ==> key(x) in Dates(bs))
  }

  function AllItems<T>(bs: seq<Bucket<T>>): seq<T>
  {
    if bs == [] then [] else bs[0].items + AllItems(bs[1..])
  }

  /** Partition: every item lies in exactly one bucket, the one of its date. */
  lemma {:induction false} BucketOfItem<T(!new)>(s: seq<T>, bs: seq<Bucket<T>>, key: T -> int, x: T)
    requires IsBucketing(s, bs, key) && x in s
    ensures exists i :: 0 <= i < |bs| && x in bs[i].items && bs[i].date == key(x)
    ensures forall i, j :: 0 <= i < |bs| && 0 <= j < |bs| && x in bs[i].items && x in bs[j].items ==> i == j
  {
    var i :| 0 <= i < |bs| && Dates(bs)[i] == key(x);
    KeyFilterMember(s, key, bs[i].date, x);
    forall i, j | 0 <= i < |bs| && 0 <= j < |bs| && x in bs[i].items && x in bs[j].items ensures i == j {
      KeyFilterMember(s, key, bs[i].date, x);
      KeyFilterMember(s, key, bs[j].date, x);
    }
  }

  lemma {:induction false} CountInAllItems<T(!new)>(s: seq<T>, bs: seq<Bucket<T>>, key: T -> int, x: T)
    requires forall i :: 0 <= i < |bs| ==> bs[i].items == KeyFilter(s, key, bs[i].date)
    requires forall i, j :: 0 <= i < j < |bs| ==> bs[i].date > bs[j].date
    ensures multiset(AllItems(bs))[x] == if key(x) in Dates(bs) then multiset(s)[x] else 0
  {
    if bs != [] {
      var tail := bs[1..];
      CountInAllItems(s, tail, key, x);
      KeyFilterCount(s, key, bs[0].date, x);
      assert Dates(bs) == [bs[0].date] + Dates(tail);
      assert bs[0].date !in Dates(tail) by {
        forall i | 0 <= i < |tail| ensures Dates(tail)[i] != bs[0].date {
          assert tail[i] == bs[i + 1];
        }
      }
    }
  }

  /** The buckets hold the items and nothing else, each as often as in the input. */
  lemma {:induction false} BucketsPermuteItems<T(!new)>(s: seq<T>, bs: seq<Bucket<T>>, key: T -> int)
    requires IsBucketing(s, bs, key)
    ensures multiset(AllItems(bs)) == multiset(s)
  {
    forall x ensures multiset(AllItems(bs))[x] == multiset(s)[x] {
      CountInAllItems(s, bs, key, x);
      if x !in s {
        assert x !in multiset(s);
      }
    }
  }

  lemma {:induction false} DecreasingUnique(a: seq<int>, b: seq<int>)
    requires forall i, j :: 0 <= i < j < |a| ==> a[i] > a[j]
    requires forall i, j :: 0 <= i < j < |b| ==> b[i] > b[j]
    requires forall k :: k in a <==> k in b
    ensures a == b
  {
    assert a != [] ==> a[0] in a;
    assert b != [] ==> b[0] in b;
    if a != [] {
      assert a[0] == b[0] by {
        assert a[0] in b && b[0] in a;
      }
      forall k ensures k in a[1..] <==> k in b[1..] {
        assert k in a[1..] <==> k in a && k != a[0];
        assert k in b[1..] <==> k in b && k != b[0];
      }
      DecreasingUnique(a[1..], b[1..]);
      assert a == [a[0]] + a[1..] && b == [b[0]] + b[1..];
    }
  }

  lemma {:induction false} BucketDatesAgree<T(!new)>(s: seq<T>, bs1: seq<Bucket<T>>, bs2: seq<Bucket<T>>, key: T -> int, k: int)
    requires IsBucketing(s, bs1, key) && IsBucketing(s, bs2, key)
    requires k in Dates(bs1)
    ensures k in Dates(bs2)
  {
    var i :| 0 <= i < |bs1| && Dates(bs1)[i] == k;
    var x := bs1[i].items[0];
    KeyFilterMember(s, key, k, x);
  }

  /** The bucketing of a sequence is unique: any two computations that meet
      `IsBucketing` return the same timeline. */
  lemma {:induction false} BucketingUnique<T(!new)>(s: seq<T>, bs1: seq<Bucket<T>>, bs2: seq<Bucket<T>>, key: T -> int)
    requires IsBucketing(s, bs1, key) && IsBucketing(s, bs2, key)
    ensures bs1 == bs2
  {
    forall k ensures k in Dates(bs1) <==> k in Dates(bs2) {
      if k in Dates(bs1) {
        BucketDatesAgree(s, bs1, bs2, key, k);
      }
      if k in Dates(bs2) {
        BucketDatesAgree(s, bs2, bs1, key, k);
      }
    }
    DecreasingUnique(Dates(bs1), Dates(bs2));
    forall i | 0 <= i < |bs1| ensures bs1[i] == bs2[i] {
      assert Dates(bs1)[i] == Dates(bs2)[i];
    }
  }

  function DateOf<T>(b: Bucket<T>): int { b.date }

  /** One bucket per group, dated by the group's first element. */
  function BucketsOf<T>(gs: seq<seq<T>>, key: T -> int): (bs: seq<Bucket<T>>)
    requires forall i :: 0 <= i < |gs| ==> gs[i] != []
    ensures |bs| == |gs|
    ensures forall i :: 0 <= i < |gs| ==> bs[i].items == gs[i] && bs[i].date == key(gs[i][0])
  {
    seq(|gs|, i requires 0 <= i < |gs| => Bucket(gs[i], key(gs[i][0])))
  }

  lemma {:induction false} BucketsOfSnoc<T>(gs: seq<seq<T>>, key: T -> int, i: int)
    requires 0 <= i < |gs| && forall k :: 0 <= k < |gs| ==> gs[k] != []
    ensures BucketsOf(gs[..i + 1], key) == BucketsOf(gs[..i], key) + [Bucket(gs[i], key(gs[i][0]))]
  {
  }

  /** Buckets with distinct dates, sorted newest first, have strictly decreasing dates. */
  lemma {:induction false} SortedDatesDecrease<T(!new)>(bs: seq<Bucket<T>>)
    requires DistinctKeys(bs, DateOf)
    ensures var ts := SortBy(bs, DateOf, After);
      forall i, j :: 0 <= i < j < |ts| ==> ts[i].date > ts[j].date
  {
    var ts := SortBy(bs, DateOf, After);
    IntOrdersStrictTotal();
    SortBySorted(bs, DateOf, After);
    SortByDistinct(bs, DateOf, After);
    forall i, j | 0 <= i < j < |ts| ensures ts[i].date > ts[j].date {
      assert !After(DateOf(ts[j]), DateOf(ts[i]));
      assert DateOf(ts[i]) != DateOf(ts[j]);
    }
  }

  lemma {:induction false} SortedBucketsFromGroups<T(!new)>(s: seq<T>, gs: seq<seq<T>>, key: T -> int)
    requires IsGrouping(s, gs, key)
    ensures var ts := SortBy(BucketsOf(gs, key), DateOf, After);
      forall i :: 0 <= i < |ts| ==>
        ts[i].items != [] && ts[i].date == key(ts[i].items[0]) && ts[i].items == KeyFilter(s, key, ts[i].date)
  {
    var bs := BucketsOf(gs, key);
    var ts := SortBy(bs, DateOf, After);
    forall i | 0 <= i < |ts|
      ensures ts[i].items != [] && ts[i].date == key(ts[i].items[0]) && ts[i].items == KeyFilter(s, key, ts[i].date)
    {
      assert ts[i] in multiset(bs);
      var k :| 0 <= k < |bs| && bs[k] == ts[i];
    }
  }

  lemma {:induction false} SortedBucketsCover<T(!new)>(s: seq<T>, gs: seq<seq<T>>, key: T -> int)
    requires IsGrouping(s, gs, key)
    ensures forall x :: x in s ==> key(x) in Dates(SortBy(BucketsOf(gs, key), DateOf, After))
  {
    var bs := BucketsOf(gs, key);
    var ts := SortBy(bs, DateOf, After);
    forall x | x in s ensures key(x) in Dates(ts) {
      var k :| 0 <= k < |gs| && gs[k] != [] && key(gs[k][0]) == key(x);
      SortedKeepsDate(bs, k);
    }
  }

  /** Sorting buckets keeps every bucket's date. */
  lemma {:induction false} SortedKeepsDate<T>(bs: seq<Bucket<T>>, k: int)
    requires 0 <= k < |bs|
    ensures bs[k].date in Dates(SortBy(bs, DateOf, After))
  {
    var ts := SortBy(bs, DateOf, After);
    assert bs[k] in multiset(ts);
    var i :| 0 <= i < |ts| && ts[i] == bs[k];
    assert Dates(ts)[i] == bs[k].date;
  }

  /** Turning a grouping with distinct keys into buckets and ordering them by
      date, newest first, gives the day-bucketing. */
  lemma {:induction false} SortedBucketing<T(!new)>(s: seq<T>, gs: seq<seq<T>>, key: T -> int)
    requires IsGrouping(s, gs, key)
    requires forall i, j :: 0 <= i < j < |gs| ==> key(gs[i][0]) != key(gs[j][0])
    ensures IsBucketing(s, SortBy(BucketsOf(gs, key), DateOf, After), key)
  {
    var bs := BucketsOf(gs, key);
    assert DistinctKeys(bs, DateOf);
    SortedDatesDecrease(bs);
    SortedBucketsFromGroups(s, gs, key);
    SortedBucketsCover(s, gs, key);
  }
}
