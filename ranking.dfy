/**
 * The order in which the benchmark tool and its report scripts list
 * failure clusters: heaviest QR weight first, then the larger count, then
 * the signature alphabetically. Also the sorted list of names that a Rust
 * `BTreeMap` or Python's `sorted(set(...))` yields, and the clamp of the
 * scripts' `--top-n` option.
 */
module Ranking {
  import opened Wrappers
  import opened Sorting

  /** The three sort keys of a cluster row. */
  datatype RankKey = RankKey(weight: int, count: int, name: string)

  /** Descending weight, then descending count, then ascending name. */
  predicate KeyLe(a: RankKey, b: RankKey)
  {
    a.weight > b.weight
    || (a.weight == b.weight && (a.count > b.count || (a.count == b.count && StrLe(a.name, b.name))))
  }

  /** The ranking order is a total order on keys: only equal keys tie. */
  lemma KeyTotalOrder()
    ensures TotalOrder(KeyLe)
  {
    StrTotalOrder();
  }

  /** Rows ordered by their keys. */
  function ByKey<T>(key: T -> RankKey): (le: (T, T) -> bool)
  {
    (a: T, b: T) => KeyLe(key(a), key(b))
  }

  /** Ordering rows by their keys is a total preorder; rows tie only when their keys are equal. */
  lemma ByKeyPreorder<T(!new)>(key: T -> RankKey)
    ensures TotalPreorder(ByKey(key))
    ensures forall a, b :: ByKey(key)(a, b) && ByKey(key)(b, a) ==> key(a) == key(b)
  {
    KeyTotalOrder();
  }

  /** The rows sorted by their keys, equal keys in input order, of which the first `topN` are kept. */
  function Ranked<T(!new)>(rows: seq<T>, key: T -> RankKey, topN: nat): (r: seq<T>)
    ensures |r| == Min(topN, |rows|)
    ensures SortedBy(r, ByKey(key))
    ensures multiset(r) <= multiset(rows)
  {
    ByKeyPreorder(key);
    var sorted := SortBy(rows, ByKey(key));
    assert sorted == sorted[..Min(topN, |rows|)] + sorted[Min(topN, |rows|)..];
    sorted[..Min(topN, |rows|)]
  }

  /** No row left out of the ranking comes before one kept in it. */
  lemma RankedKeepsBest<T(!new)>(rows: seq<T>, key: T -> RankKey, topN: nat, x: T, y: T)
    requires x in Ranked(rows, key, topN)
    requires y in rows && multiset(Ranked(rows, key, topN))[y] < multiset(rows)[y]
    ensures ByKey(key)(x, y)
  {
    assert TotalPreorder(ByKey(key)) by {
      ByKeyPreorder(key);
    }
    var sorted := SortBy(rows, ByKey(key));
    var k := Min(topN, |rows|);
    assert Ranked(rows, key, topN) == sorted[..k];
    var j := DroppedOccurrence(sorted, k, y);
    var i :| 0 <= i < k && sorted[i] == x;
  }

  /** An element that occurs more often in `s` than in its first `k` elements occurs after them. */
  lemma DroppedOccurrence<T>(s: seq<T>, k: nat, y: T) returns (j: nat)
    requires k <= |s| && multiset(s[..k])[y] < multiset(s)[y]
    ensures k <= j < |s| && s[j] == y
  {
    assert s == s[..k] + s[k..];
    assert multiset(s) == multiset(s[..k]) + multiset(s[k..]);
    assert y in s[k..];
    var d :| 0 <= d < |s| - k && s[k..][d] == y;
    j := k + d;
  }

  /** `max(1, top_n)`: at least one row is always shown. */
  function ClampTopN(n: int): (r: nat)
    ensures r >= 1 && r >= n
    ensures n >= 1 ==> r == n
  {
    if n < 1 then 1 else n
  }

  /** No element occurs twice. */
  predicate Distinct<T(==)>(s: seq<T>)
  {
    forall i, j :: 0 <= i < j < |s| ==> s[i] != s[j]
  }

  /** An element occurring twice has multiplicity at least two. */
  lemma Twice<T>(s: seq<T>, i: nat, j: nat)
    requires i < j < |s| && s[i] == s[j]
    ensures multiset(s)[s[i]] >= 2
  {
    assert s == s[..j] + [s[j]] + s[j + 1..];
    assert s[i] in multiset(s[..j]);
  }

  /** In a sequence without repeats every element occurs at most once. */
  lemma {:induction false} DistinctOnce<T>(s: seq<T>, x: T)
    requires Distinct(s)
    ensures multiset(s)[x] <= 1
  {
    if |s| > 0 {
      var n := |s| - 1;
      assert s == s[..n] + [s[n]];
      assert Distinct(s[..n]);
      DistinctOnce(s[..n], x);
      if x == s[n] {
        assert x !in s[..n];
      }
    }
  }

  /**
   * The keys of a map, each once, in whichever order it lists them; what
   * callers that do not depend on the order need to know of `SortedNames`.
   */
  method MapKeys<V>(m: map<string, V>) returns (keys: seq<string>)
    ensures Distinct(keys)
    ensures forall x :: x in keys <==> x in m
    ensures |keys| == |m|
  {
    keys := SortedNames(m.Keys);
  }

  /** The names of `names` in ascending order, each once, as a `BTreeMap` or `sorted(set(...))` lists them. */
  method SortedNames(names: set<string>) returns (r: seq<string>)
    ensures SortedBy(r, StrLe) && Distinct(r)
    ensures forall x :: x in r <==> x in names
    ensures |r| == |names|
  {
    var picked: seq<string> := [];
    var rest := names;
    while rest != {}
      invariant rest <= names
      invariant forall x :: multiset(picked)[x] == if x in names - rest then 1 else 0
      invariant |picked| + |rest| == |names|
      decreases |rest|
    {
      var x :| x in rest;
      picked := picked + [x];
      rest := rest - {x};
    }
    StrTotalOrder();
    r := SortBy(picked, StrLe);
    forall i, j | 0 <= i < j < |r|
      ensures r[i] != r[j]
    {
      if r[i] == r[j] {
        Twice(r, i, j);
      }
    }
    forall x
      ensures x in r <==> x in names
    {
      assert x in r <==> x in multiset(r);
    }
  }
}
