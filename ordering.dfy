/** Orders, stable sorting and key filtering: the building blocks of every
    sort-then-group step in the crawler, the backend and the web clients.
    Python's `sorted`/`list.sort` and lodash's `orderBy` are all stable sorts;
    `SortBy` is a stable insertion sort, and descending sorts use the flipped order. */
module Ordering {

  /** `lt` is a strict total order on keys. */
  ghost predicate StrictTotal<K(!new)>(lt: (K, K) -> bool) {
    && (forall a :: !lt(a, a))
    && (forall a, b, c :: lt(a, b) && lt(b, c) ==> lt(a, c))
    && (forall a, b :: a != b ==> lt(a, b) || lt(b, a))
  }

  /** Ascending and descending order on integers (dates, times, scores). */
  predicate Before(a: int, b: int) { a < b }
  predicate After(a: int, b: int) { a > b }

  /** The smaller and the larger of two integers. */
  function Min(a: int, b: int): int { if a <= b then a else b }
  function Max(a: int, b: int): int { if a >= b then a else b }

  /** Python's `str` comparison: lexicographic by code point, a proper prefix first. */
  predicate StrLt(a: string, b: string) {
    if a == [] then b != []
    else if b == [] then false
    else if a[0] != b[0] then a[0] < b[0]
    else StrLt(a[1..], b[1..])
  }

  lemma {:induction false} IntOrdersStrictTotal()
    ensures StrictTotal(Before) && StrictTotal(After)
  {
  }

  lemma {:induction false} StrLtIrreflexive(a: string)
    ensures !StrLt(a, a)
  {
    if a != [] {
      StrLtIrreflexive(a[1..]);
    }
  }

  lemma {:induction false} StrLtTransitive(a: string, b: string, c: string)
    requires StrLt(a, b) && StrLt(b, c)
    ensures StrLt(a, c)
  {
    if a != [] && b != [] && c != [] && a[0] == b[0] && b[0] == c[0] {
      StrLtTransitive(a[1..], b[1..], c[1..]);
    }
  }

  lemma {:induction false} StrLtTotal(a: string, b: string)
    requires a != b
    ensures StrLt(a, b) || StrLt(b, a)
  {
    if a != [] && b != [] && a[0] == b[0] {
      assert a == [a[0]] + a[1..] && b == [b[0]] + b[1..];
      StrLtTotal(a[1..], b[1..]);
    }
  }

  /** Name order as Python compares `str` keys is a strict total order. */
  lemma {:induction false} StrLtStrictTotal()
    ensures StrictTotal(StrLt)
  {
    forall a: string ensures !StrLt(a, a) {
      StrLtIrreflexive(a);
    }
    forall a: string, b: string, c: string | StrLt(a, b) && StrLt(b, c) ensures StrLt(a, c) {
      StrLtTransitive(a, b, c);
    }
    forall a: string, b: string | a != b ensures StrLt(a, b) || StrLt(b, a) {
      StrLtTotal(a, b);
    }
  }

  /** `s` is non-decreasing under `lt` when compared by `key`. */
  ghost predicate SortedBy<T, K>(s: seq<T>, key: T -> K, lt: (K, K) -> bool) {
    forall i, j :: 0 <= i < j < |s| ==> !lt(key(s[j]), key(s[i]))
  }

  /** `s` is strictly increasing under `lt` when compared by `key`. */
  ghost predicate StrictlySortedBy<T, K>(s: seq<T>, key: T -> K, lt: (K, K) -> bool) {
    forall i, j :: 0 <= i < j < |s| ==> lt(key(s[i]), key(s[j]))
  }

  /** No two elements of `s` share a key. */
  ghost predicate DistinctKeys<T, K>(s: seq<T>, key: T -> K) {
    forall i, j :: 0 <= i < j < |s| ==> key(s[i]) != key(s[j])
  }

  function Reverse<T>(s: seq<T>): (r: seq<T>)
    ensures |r| == |s|
    ensures forall i :: 0 <= i < |s| ==> r[i] == s[|s| - 1 - i]
  {
    if s == [] then [] else Reverse(s[1..]) + [s[0]]
  }

  /** The elements of `s` whose key is `k`, in their order in `s`. */
  function KeyFilter<T(!new), K(==)>(s: seq<T>, key: T -> K, k: K): (r: seq<T>)
    ensures |r| <= |s|
    ensures forall i :: 0 <= i < |r| ==> key(r[i]) == k
  {
    if s == [] then []
    else (if key(s[0]) == k then [s[0]] else []) + KeyFilter(s[1..], key, k)
  }

  /** Each element of key `k` occurs in the filter as often as in `s`; others not at all. */
  lemma {:induction false} KeyFilterCount<T(!new), K(!new)>(s: seq<T>, key: T -> K, k: K, x: T)
    ensures multiset(KeyFilter(s, key, k))[x] == if key(x) == k then multiset(s)[x] else 0
  {
    if s != [] {
      KeyFilterCount(s[1..], key, k, x);
      assert s == [s[0]] + s[1..];
    }
  }

  lemma {:induction false} KeyFilterMember<T(!new), K(!new)>(s: seq<T>, key: T -> K, k: K, x: T)
    ensures x in KeyFilter(s, key, k) <==> x in s && key(x) == k
  {
    KeyFilterCount(s, key, k, x);
    assert x in KeyFilter(s, key, k) <==> x in multiset(KeyFilter(s, key, k));
    assert x in s <==> x in multiset(s);
  }

  lemma {:induction false} KeyFilterAppend<T(!new), K(!new)>(a: seq<T>, b: seq<T>, key: T -> K, k: K)
    ensures KeyFilter(a + b, key, k) == KeyFilter(a, key, k) + KeyFilter(b, key, k)
  {
    if a == [] {
      assert a + b == b;
    } else {
      assert (a + b)[1..] == a[1..] + b;
      KeyFilterAppend(a[1..], b, key, k);
    }
  }

  /** Inserts `x` in front of the first element whose key is not below `x`'s:
      `x` goes before the elements of equal key, which keeps the sort stable. */
  function Insert<T, K>(x: T, s: seq<T>, key: T -> K, lt: (K, K) -> bool): (r: seq<T>)
    ensures |r| == |s| + 1
    ensures multiset(r) == multiset(s) + multiset{x}
  {
    if s == [] || !lt(key(s[0]), key(x)) then [x] + s
    else
      assert s == [s[0]] + s[1..];
      [s[0]] + Insert(x, s[1..], key, lt)
  }

  /** Stable sort of `s` by `key` under `lt`. */
  function SortBy<T, K>(s: seq<T>, key: T -> K, lt: (K, K) -> bool): (r: seq<T>)
    ensures |r| == |s|
    ensures multiset(r) == multiset(s)
  {
    if s == [] then []
    else
      assert s == [s[0]] + s[1..];
      Insert(s[0], SortBy(s[1..], key, lt), key, lt)
  }

  lemma {:induction false} InsertSorted<T(!new), K(!new)>(x: T, s: seq<T>, key: T -> K, lt: (K, K) -> bool)
    requires StrictTotal(lt) && SortedBy(s, key, lt)
    ensures SortedBy(Insert(x, s, key, lt), key, lt)
  {
    var r := Insert(x, s, key, lt);
    if s == [] || !lt(key(s[0]), key(x)) {
      forall j | 1 <= j < |r| ensures !lt(key(r[j]), key(r[0])) {
        assert r[j] == s[j - 1];
        if j - 1 > 0 {
          assert !lt(key(s[j - 1]), key(s[0]));
        }
      }
    } else {
      var t := Insert(x, s[1..], key, lt);
      InsertSorted(x, s[1..], key, lt);
      assert r == [s[0]] + t;
      forall j | 1 <= j < |r| ensures !lt(key(r[j]), key(r[0])) {
        assert r[j] in multiset(t);
        assert r[j] in multiset(s[1..]) + multiset{x};
        if r[j] == x {
        } else {
          assert r[j] in s[1..];
          var m :| 0 <= m < |s[1..]| && s[1..][m] == r[j];
          assert s[m + 1] == r[j];
        }
      }
    }
  }

  lemma {:induction false} SortBySorted<T(!new), K(!new)>(s: seq<T>, key: T -> K, lt: (K, K) -> bool)
    requires StrictTotal(lt)
    ensures SortedBy(SortBy(s, key, lt), key, lt)
  {
    if s != [] {
      SortBySorted(s[1..], key, lt);
      InsertSorted(s[0], SortBy(s[1..], key, lt), key, lt);
    }
  }

  /** Insertion only moves `x` past elements of a different key, so every key's
      subsequence is unchanged. */
  lemma {:induction false} KeyFilterCons<T(!new), K(!new)>(y: T, t: seq<T>, key: T -> K, k: K)
    ensures KeyFilter([y] + t, key, k) == (if key(y) == k then [y] else []) + KeyFilter(t, key, k)
  {
    assert ([y] + t)[1..] == t;
  }

  lemma {:induction false} InsertKeyFilter<T(!new), K(!new)>(x: T, s: seq<T>, key: T -> K, lt: (K, K) -> bool, k: K)
    requires forall a :: !lt(a, a)
    ensures KeyFilter(Insert(x, s, key, lt), key, k) == KeyFilter([x] + s, key, k)
  {
    if s == [] || !lt(key(s[0]), key(x)) {
      assert Insert(x, s, key, lt) == [x] + s;
    } else {
      var y, t := s[0], s[1..];
      assert s == [y] + t;
      var I := Insert(x, t, key, lt);
      assert Insert(x, s, key, lt) == [y] + I;
      var R := KeyFilter(t, key, k);
      InsertKeyFilter(x, t, key, lt, k);
      KeyFilterCons(y, I, key, k);
      KeyFilterCons(x, t, key, k);
      KeyFilterCons(y, t, key, k);
      KeyFilterCons(x, s, key, k);
      if key(x) == k {
        assert KeyFilter([y] + I, key, k) == KeyFilter(I, key, k);
        assert KeyFilter([x] + t, key, k) == [x] + R;
        assert KeyFilter(s, key, k) == R;
      } else if key(y) == k {
        assert KeyFilter([y] + I, key, k) == [y] + KeyFilter(I, key, k);
        assert KeyFilter([x] + t, key, k) == R;
        assert KeyFilter(s, key, k) == [y] + R;
      } else {
        assert KeyFilter([y] + I, key, k) == KeyFilter(I, key, k);
        assert KeyFilter([x] + t, key, k) == R;
        assert KeyFilter(s, key, k) == R;
      }
    }
  }

  /** Stability: sorting keeps, for every key, the elements of that key in input order. */
  lemma {:induction false} SortByKeyFilter<T(!new), K(!new)>(s: seq<T>, key: T -> K, lt: (K, K) -> bool, k: K)
    requires forall a :: !lt(a, a)
    ensures KeyFilter(SortBy(s, key, lt), key, k) == KeyFilter(s, key, k)
  {
    if s != [] {
      var t := SortBy(s[1..], key, lt);
      SortByKeyFilter(s[1..], key, lt, k);
      InsertKeyFilter(s[0], t, key, lt, k);
      KeyFilterAppend([s[0]], t, key, k);
      KeyFilterAppend([s[0]], s[1..], key, k);
      assert [s[0]] + s[1..] == s;
    }
  }

  /** Sorting a sequence that is strictly decreasing under `lt` reverses it. */
  lemma {:induction false} SortByReverses<T(!new), K(!new)>(s: seq<T>, key: T -> K, lt: (K, K) -> bool)
    requires StrictlySortedBy(Reverse(s), key, lt)
    ensures SortBy(s, key, lt) == Reverse(s)
  {
    if s != [] {
      var rs := Reverse(s[1..]);
      assert Reverse(s) == rs + [s[0]];
      assert StrictlySortedBy(rs, key, lt) by {
        forall i, j | 0 <= i < j < |rs| ensures lt(key(rs[i]), key(rs[j])) {
          assert rs[i] == Reverse(s)[i] && rs[j] == Reverse(s)[j];
        }
      }
      SortByReverses(s[1..], key, lt);
      forall i | 0 <= i < |rs| ensures lt(key(rs[i]), key(s[0])) {
        assert Reverse(s)[i] == rs[i];
        assert Reverse(s)[|rs|] == s[0];
      }
      InsertAtEnd(s[0], rs, key, lt);
    }
  }

  lemma {:induction false} InsertAtEnd<T(!new), K(!new)>(x: T, s: seq<T>, key: T -> K, lt: (K, K) -> bool)
    requires forall i :: 0 <= i < |s| ==> lt(key(s[i]), key(x))
    ensures Insert(x, s, key, lt) == s + [x]
  {
    if s != [] {
      InsertAtEnd(x, s[1..], key, lt);
      assert s == [s[0]] + s[1..];
    }
  }

  lemma {:induction false} InsertDistinct<T(!new), K(!new)>(x: T, s: seq<T>, key: T -> K, lt: (K, K) -> bool)
    requires DistinctKeys(s, key)
    requires forall i :: 0 <= i < |s| ==> key(s[i]) != key(x)
    ensures DistinctKeys(Insert(x, s, key, lt), key)
  {
    if s == [] || !lt(key(s[0]), key(x)) {
    } else {
      var t := Insert(x, s[1..], key, lt);
      InsertDistinct(x, s[1..], key, lt);
      forall j | 0 <= j < |t| ensures key(t[j]) != key(s[0]) {
        assert t[j] in multiset(t);
        if t[j] != x {
          assert t[j] in s[1..];
        }
      }
    }
  }

  /** Sorting keeps distinct keys distinct. */
  lemma {:induction false} SortByDistinct<T(!new), K(!new)>(s: seq<T>, key: T -> K, lt: (K, K) -> bool)
    requires DistinctKeys(s, key)
    ensures DistinctKeys(SortBy(s, key, lt), key)
  {
    if s != [] {
      var t := SortBy(s[1..], key, lt);
      SortByDistinct(s[1..], key, lt);
      forall i | 0 <= i < |t| ensures key(t[i]) != key(s[0]) {
        assert t[i] in multiset(s[1..]);
      }
      InsertDistinct(s[0], t, key, lt);
    }
  }

  /** A sorted sequence with distinct keys is strictly sorted. */
  lemma {:induction false} SortedDistinctIsStrict<T, K(!new)>(s: seq<T>, key: T -> K, lt: (K, K) -> bool)
    requires StrictTotal(lt) && SortedBy(s, key, lt) && DistinctKeys(s, key)
    ensures StrictlySortedBy(s, key, lt)
  {
  }
}
