/**
 * Sorting by a comparison, as `slice::sort`, `slice::sort_by` and Python's
 * `list.sort` do it: a stable insertion into a sorted sequence, and the
 * lexicographic order with which strings, paths and tuples compare.
 */
module Sorting {

  /** `le` is total and transitive: a total preorder. */
  ghost predicate TotalPreorder<T(!new)>(le: (T, T) -> bool)
  {
    && (forall a, b :: le(a, b) || le(b, a))
    && (forall a, b, c :: le(a, b) && le(b, c) ==> le(a, c))
  }

  /** A total preorder in which only equal elements tie: a total order. */
  ghost predicate TotalOrder<T(!new)>(le: (T, T) -> bool)
  {
    TotalPreorder(le) && forall a, b :: le(a, b) && le(b, a) ==> a == b
  }

  predicate SortedBy<T>(s: seq<T>, le: (T, T) -> bool)
  {
    forall i, j :: 0 <= i < j < |s| ==> le(s[i], s[j])
  }

  /** `x` goes after every element of `s` it does not strictly precede. */
  function InsertBy<T>(x: T, s: seq<T>, le: (T, T) -> bool): (r: seq<T>)
    ensures |r| == |s| + 1 && multiset(r) == multiset(s) + multiset{x}
  {
    if |s| == 0 then [x]
    else if le(x, s[0]) && !le(s[0], x) then [x] + s
    else
      assert s == [s[0]] + s[1..];
      [s[0]] + InsertBy(x, s[1..], le)
  }

  /** Inserting into a sorted sequence keeps it sorted. */
  lemma {:induction false} InsertSorted<T(!new)>(x: T, s: seq<T>, le: (T, T) -> bool)
    requires TotalPreorder(le) && SortedBy(s, le)
    ensures SortedBy(InsertBy(x, s, le), le)
  {
    if |s| > 0 && !(le(x, s[0]) && !le(s[0], x)) {
      var rest := InsertBy(x, s[1..], le);
      InsertSorted(x, s[1..], le);
      forall j | 0 <= j < |rest|
        ensures le(s[0], rest[j])
      {
        assert rest[j] in multiset(rest);
        if rest[j] != x {
          assert rest[j] in multiset(s[1..]);
          var k :| 0 <= k < |s[1..]| && s[1..][k] == rest[j];
          assert s[k + 1] == rest[j];
        }
      }
    }
  }

  /** The sequence sorted by `le`, equal elements in their original order. */
  function SortBy<T(!new)>(s: seq<T>, le: (T, T) -> bool): (r: seq<T>)
    requires TotalPreorder(le)
    ensures |r| == |s| && multiset(r) == multiset(s) && SortedBy(r, le)
  {
    if |s| == 0 then []
    else
      var init := SortBy(s[..|s| - 1], le);
      InsertSorted(s[|s| - 1], init, le);
      assert s == s[..|s| - 1] + [s[|s| - 1]];
      InsertBy(s[|s| - 1], init, le)
  }

  /** The least element of a sorted non-empty sequence comes first in every sorted arrangement. */
  lemma SameHead<T(!new)>(a: seq<T>, b: seq<T>, le: (T, T) -> bool)
    requires TotalOrder(le) && SortedBy(a, le) && SortedBy(b, le) && multiset(a) == multiset(b) && |a| > 0
    ensures |b| > 0 && a[0] == b[0]
  {
    assert a[0] in multiset(b);
    var i :| 0 <= i < |b| && b[i] == a[0];
    assert b[0] in multiset(a);
    var j :| 0 <= j < |a| && a[j] == b[0];
    assert le(b[0], a[0]) by {
      if i > 0 { assert le(b[0], b[i]); }
    }
    assert le(a[0], b[0]) by {
      if j > 0 { assert le(a[0], a[j]); }
    }
  }

  /** The tail of a sorted sequence is sorted and holds all but the head. */
  lemma Tail<T>(a: seq<T>, le: (T, T) -> bool)
    requires SortedBy(a, le) && |a| > 0
    ensures SortedBy(a[1..], le)
    ensures multiset(a[1..]) == multiset(a) - multiset{a[0]}
  {
    assert a == [a[0]] + a[1..];
    forall i, k | 0 <= i < k < |a| - 1
      ensures le(a[1..][i], a[1..][k])
    {
      assert le(a[i + 1], a[k + 1]);
    }
  }

  /** Under a total order, a multiset has exactly one sorted arrangement. */
  lemma {:induction false} SortedUnique<T(!new)>(a: seq<T>, b: seq<T>, le: (T, T) -> bool)
    requires TotalOrder(le) && SortedBy(a, le) && SortedBy(b, le) && multiset(a) == multiset(b)
    ensures a == b
    decreases |a|
  {
    if |a| > 0 {
      SameHead(a, b, le);
      Tail(a, le);
      Tail(b, le);
      SortedUnique(a[1..], b[1..], le);
      assert a == [a[0]] + a[1..] && b == [b[0]] + b[1..];
    } else {
      assert |b| == 0 by {
        assert |multiset(a)| == |multiset(b)|;
      }
    }
  }

  /** Every sorted permutation of `s` is `SortBy(s, le)`. */
  lemma SortByUnique<T(!new)>(s: seq<T>, r: seq<T>, le: (T, T) -> bool)
    requires TotalOrder(le) && SortedBy(r, le) && multiset(r) == multiset(s)
    ensures r == SortBy(s, le)
  {
    SortedUnique(r, SortBy(s, le), le);
  }

  /** `a` comes no later than `b` in the lexicographic order built on `le`. */
  predicate LexLe<T(==)>(a: seq<T>, b: seq<T>, le: (T, T) -> bool)
  {
    |a| == 0 || (|b| > 0 && if a[0] == b[0] then LexLe(a[1..], b[1..], le) else le(a[0], b[0]))
  }

  lemma {:induction false} LexTotal<T(!new)>(a: seq<T>, b: seq<T>, le: (T, T) -> bool)
    requires TotalOrder(le)
    ensures LexLe(a, b, le) || LexLe(b, a, le)
  {
    if |a| > 0 && |b| > 0 && a[0] == b[0] {
      LexTotal(a[1..], b[1..], le);
    }
  }

  lemma {:induction false} LexTransitive<T(!new)>(a: seq<T>, b: seq<T>, c: seq<T>, le: (T, T) -> bool)
    requires TotalOrder(le) && LexLe(a, b, le) && LexLe(b, c, le)
    ensures LexLe(a, c, le)
  {
    if |a| > 0 && a[0] == b[0] && b[0] == c[0] {
      LexTransitive(a[1..], b[1..], c[1..], le);
    }
  }

  lemma {:induction false} LexAntisymmetric<T(!new)>(a: seq<T>, b: seq<T>, le: (T, T) -> bool)
    requires TotalOrder(le) && LexLe(a, b, le) && LexLe(b, a, le)
    ensures a == b
  {
    if |a| > 0 {
      LexAntisymmetric(a[1..], b[1..], le);
      assert a == [a[0]] + a[1..] && b == [b[0]] + b[1..];
    }
  }

  /** Code-point order of characters, the order Rust and Python strings compare by. */
  function CharLe(a: char, b: char): bool
  {
    a <= b
  }

  /** Strings in code-point lexicographic order; a proper prefix comes first. */
  function StrLe(a: string, b: string): bool
  {
    LexLe(a, b, CharLe)
  }

  /** Code-point order is a total order, and so is the string order. */
  lemma StrTotalOrder()
    ensures TotalOrder(CharLe)
    ensures TotalOrder(StrLe)
  {
    forall a: string, b: string
      ensures StrLe(a, b) || StrLe(b, a)
    {
      LexTotal(a, b, CharLe);
    }
    forall a: string, b: string, c: string | StrLe(a, b) && StrLe(b, c)
      ensures StrLe(a, c)
    {
      LexTransitive(a, b, c, CharLe);
    }
    forall a: string, b: string | StrLe(a, b) && StrLe(b, a)
      ensures a == b
    {
      LexAntisymmetric(a, b, CharLe);
    }
  }

  /** Sample comparisons: a proper prefix first, then the first differing character decides. */
  lemma StrSamples()
    ensures StrLe("", "a") && StrLe("ab", "abc") && StrLe("abc", "abd") && !StrLe("b", "abc")
  {
    assert "ab"[1..] == "b" && "abc"[1..] == "bc";
    assert "abc"[1..][1..] == "c" && "abd"[1..][1..] == "d";
  }
}
