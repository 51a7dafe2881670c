/**
 * `RuntimeSummary::from_samples` of the benchmark tool
 * (src/bin/qrtool.rs): the count, total, mean, median, minimum and maximum
 * of the per-image runtimes, read off a sorted copy of the samples.
 * Runtimes are reals; there is no NaN among them.
 */
module Runtime {
  import opened Sorting

  datatype RuntimeSummary = RuntimeSummary(
    samples: nat,
    totalMs: real,
    meanPerImageMs: real,
    medianPerImageMs: real,
    minPerImageMs: real,
    maxPerImageMs: real)

  /** `partial_cmp` on runtimes, which are never NaN. */
  predicate RealLe(a: real, b: real)
  {
    a <= b
  }

  lemma RealTotalOrder()
    ensures TotalOrder(RealLe)
  {
  }

  function Sum(s: seq<real>): real
  {
    if |s| == 0 then 0.0 else Sum(s[..|s| - 1]) + s[|s| - 1]
  }

  /** Which side of a value a sample lies on: at or below it, or at or above it. */
  datatype Side = Below | Above

  predicate OnSide(x: real, m: real, side: Side)
  {
    if side == Below then x <= m else x >= m
  }

  /** How many elements of `s` lie on `side` of `m`. */
  function Count(s: seq<real>, m: real, side: Side): nat
  {
    if |s| == 0 then 0 else Count(s[..|s| - 1], m, side) + if OnSide(s[|s| - 1], m, side) then 1 else 0
  }

  /** The middle element of a sorted sequence, or the mean of the two middle ones when its length is even. */
  function MiddleOf(sorted: seq<real>): real
    requires |sorted| > 0
  {
    if |sorted| % 2 == 0 then (sorted[|sorted| / 2 - 1] + sorted[|sorted| / 2]) / 2.0
    else sorted[|sorted| / 2]
  }

  /**
   * `from_samples`. With no samples every figure is 0. Otherwise the total
   * is the sum of the samples and the mean the total over their number;
   * the minimum and maximum are samples that bound all others; the median
   * is the middle of the sorted samples, and at least half of the samples
   * lie on either side of it.
   */
  method FromSamples(samples: seq<real>) returns (r: RuntimeSummary)
    ensures |samples| == 0 ==> r == RuntimeSummary(0, 0.0, 0.0, 0.0, 0.0, 0.0)
    ensures |samples| > 0 ==> r.samples == |samples| && r.totalMs == Sum(samples)
    ensures |samples| > 0 ==> r.meanPerImageMs == Sum(samples) / (|samples| as real)
    ensures |samples| > 0 ==> r.minPerImageMs in samples && r.maxPerImageMs in samples
    ensures forall i :: 0 <= i < |samples| ==> r.minPerImageMs <= samples[i] <= r.maxPerImageMs
    ensures r.minPerImageMs <= r.meanPerImageMs <= r.maxPerImageMs
    ensures r.minPerImageMs <= r.medianPerImageMs <= r.maxPerImageMs
    ensures |samples| > 0 ==> r.medianPerImageMs == MiddleOf(SortBy(samples, RealLe))
    ensures 2 * Count(samples, r.medianPerImageMs, Below) >= |samples|
    ensures 2 * Count(samples, r.medianPerImageMs, Above) >= |samples|
  {
    if |samples| == 0 {
      return RuntimeSummary(0, 0.0, 0.0, 0.0, 0.0, 0.0);
    }
    RealTotalOrder();
    var sorted := SortBy(samples, RealLe);
    var total := 0.0;
    for i := 0 to |sorted|
      invariant total == Sum(sorted[..i])
    {
      assert sorted[..i + 1][..i] == sorted[..i];
      total := total + sorted[i];
    }
    assert sorted[..|sorted|] == sorted;
    SumPermutation(sorted, samples);
    var mean := total / (|sorted| as real);
    var median;
    if |sorted| % 2 == 0 {
      var mid := |sorted| / 2;
      median := (sorted[mid - 1] + sorted[mid]) / 2.0;
    } else {
      median := sorted[|sorted| / 2];
    }
    r := RuntimeSummary(|sorted|, total, mean, median, sorted[0], sorted[|sorted| - 1]);
    SortedSummary(samples, sorted);
  }

  /** The figures read off a sorted copy of the samples bound them and split them in halves. */
  lemma SortedSummary(samples: seq<real>, sorted: seq<real>)
    requires |sorted| > 0 && SortedBy(sorted, RealLe) && multiset(sorted) == multiset(samples)
    ensures sorted[0] in samples && sorted[|sorted| - 1] in samples
    ensures forall i :: 0 <= i < |samples| ==> sorted[0] <= samples[i] <= sorted[|sorted| - 1]
    ensures sorted[0] <= Sum(samples) / (|samples| as real) <= sorted[|sorted| - 1]
    ensures sorted[0] <= MiddleOf(sorted) <= sorted[|sorted| - 1]
    ensures 2 * Count(samples, MiddleOf(sorted), Below) >= |samples|
    ensures 2 * Count(samples, MiddleOf(sorted), Above) >= |samples|
  {
    SamplesBetween(samples, sorted);
    MeanOfSamples(samples, sorted[0], sorted[|sorted| - 1]);
    MedianOfSorted(samples, sorted);
  }

  /** The mean of samples lying between two bounds lies between them too. */
  lemma MeanOfSamples(samples: seq<real>, lo: real, hi: real)
    requires |samples| > 0
    requires forall i :: 0 <= i < |samples| ==> lo <= samples[i] <= hi
    ensures lo <= Sum(samples) / (|samples| as real) <= hi
  {
    SumBetween(samples, lo, hi);
    MeanBetween(Sum(samples), |samples|, lo, hi);
  }

  lemma MedianOfSorted(samples: seq<real>, sorted: seq<real>)
    requires |sorted| > 0 && SortedBy(sorted, RealLe) && multiset(sorted) == multiset(samples)
    ensures sorted[0] <= MiddleOf(sorted) <= sorted[|sorted| - 1]
    ensures 2 * Count(samples, MiddleOf(sorted), Below) >= |samples|
    ensures 2 * Count(samples, MiddleOf(sorted), Above) >= |samples|
  {
    MiddleHalves(sorted);
    CountPermutation(sorted, samples, MiddleOf(sorted), Below);
    CountPermutation(sorted, samples, MiddleOf(sorted), Above);
  }

  /** A sorted sequence lies between its first and last elements. */
  lemma SortedBetween(sorted: seq<real>)
    requires |sorted| > 0 && SortedBy(sorted, RealLe)
    ensures forall i :: 0 <= i < |sorted| ==> sorted[0] <= sorted[i] <= sorted[|sorted| - 1]
  {
    forall i | 0 < i < |sorted| - 1
      ensures sorted[0] <= sorted[i] <= sorted[|sorted| - 1]
    {
      assert RealLe(sorted[0], sorted[i]) && RealLe(sorted[i], sorted[|sorted| - 1]);
    }
    if |sorted| > 1 {
      assert RealLe(sorted[0], sorted[|sorted| - 1]);
    }
  }

  /** The samples lie between the first and last elements of their sorted copy, which are samples themselves. */
  lemma SamplesBetween(samples: seq<real>, sorted: seq<real>)
    requires |sorted| > 0 && SortedBy(sorted, RealLe) && multiset(sorted) == multiset(samples)
    ensures sorted[0] in samples && sorted[|sorted| - 1] in samples
    ensures forall i :: 0 <= i < |sorted| ==> sorted[0] <= sorted[i] <= sorted[|sorted| - 1]
    ensures forall i :: 0 <= i < |samples| ==> sorted[0] <= samples[i] <= sorted[|sorted| - 1]
  {
    assert sorted[0] in multiset(samples) && sorted[|sorted| - 1] in multiset(samples);
    SortedBetween(sorted);
    forall i | 0 <= i < |samples|
      ensures sorted[0] <= samples[i] <= sorted[|sorted| - 1]
    {
      var j := Occurrence(sorted, samples[i]);
    }
  }

  /** At least half of a sorted sequence lies at or below its middle, and at least half at or above it. */
  lemma MiddleHalves(sorted: seq<real>)
    requires |sorted| > 0 && SortedBy(sorted, RealLe)
    ensures sorted[0] <= MiddleOf(sorted) <= sorted[|sorted| - 1]
    ensures 2 * Count(sorted, MiddleOf(sorted), Below) >= |sorted|
    ensures 2 * Count(sorted, MiddleOf(sorted), Above) >= |sorted|
  {
    var n := |sorted|;
    var m := MiddleOf(sorted);
    var k := n / 2;
    var low := if n % 2 == 0 then k else k + 1;
    assert 0 < low <= n && 2 * low >= n;
    assert 2 * (n - k) >= n;
    assert sorted[low - 1] <= m <= sorted[k] by {
      if n % 2 == 0 {
        assert RealLe(sorted[k - 1], sorted[k]);
      }
    }
    assert sorted[0] <= sorted[low - 1] by {
      if low > 1 {
        assert RealLe(sorted[0], sorted[low - 1]);
      }
    }
    assert sorted[k] <= sorted[n - 1] by {
      if k < n - 1 {
        assert RealLe(sorted[k], sorted[n - 1]);
      }
    }
    SplitCount(sorted, low, m, Below);
    SplitCount(sorted, k, m, Above);
    forall i | 0 <= i < low
      ensures OnSide(sorted[..low][i], m, Below)
    {
      if i < low - 1 {
        assert RealLe(sorted[i], sorted[low - 1]);
      }
    }
    forall i | 0 <= i < n - k
      ensures OnSide(sorted[k..][i], m, Above)
    {
      if i > 0 {
        assert RealLe(sorted[k], sorted[k + i]);
      }
    }
    CountAll(sorted[..low], m, Below);
    CountAll(sorted[k..], m, Above);
  }

  /** Counting over a sequence is counting over its two parts. */
  lemma SplitCount(s: seq<real>, j: nat, m: real, side: Side)
    requires j <= |s|
    ensures Count(s, m, side) == Count(s[..j], m, side) + Count(s[j..], m, side)
  {
    assert s[..j] + s[j..] == s;
    CountAppend(s[..j], s[j..], m, side);
  }

  lemma {:induction false} CountAll(s: seq<real>, m: real, side: Side)
    requires forall i :: 0 <= i < |s| ==> OnSide(s[i], m, side)
    ensures Count(s, m, side) == |s|
  {
    if |s| > 0 {
      CountAll(s[..|s| - 1], m, side);
    }
  }

  lemma {:induction false} CountAppend(a: seq<real>, b: seq<real>, m: real, side: Side)
    ensures Count(a + b, m, side) == Count(a, m, side) + Count(b, m, side)
  {
    if |b| > 0 {
      assert (a + b)[..|a + b| - 1] == a + b[..|b| - 1];
      CountAppend(a, b[..|b| - 1], m, side);
    } else {
      assert a + b == a;
    }
  }

  /** Counting does not depend on the order of the elements. */
  lemma {:induction false} CountPermutation(a: seq<real>, b: seq<real>, m: real, side: Side)
    requires multiset(a) == multiset(b)
    ensures Count(a, m, side) == Count(b, m, side)
    decreases |a|
  {
    if |a| > 0 {
      var x := a[|a| - 1];
      var front := a[..|a| - 1];
      assert a == front + [x];
      var j := Occurrence(b, x);
      var rest := b[..j] + b[j + 1..];
      assert b == b[..j] + [x] + b[j + 1..];
      RemoveOne(a, b, j);
      CountPermutation(front, rest, m, side);
      CountAppend(b[..j] + [x], b[j + 1..], m, side);
      CountAppend(b[..j], [x], m, side);
      CountAppend(b[..j], b[j + 1..], m, side);
      assert Count([x], m, side) == if OnSide(x, m, side) then 1 else 0 by {
        assert [x][..0] == [];
      }
    } else {
      assert b == [];
    }
  }

  lemma {:induction false} SumAppend(a: seq<real>, b: seq<real>)
    ensures Sum(a + b) == Sum(a) + Sum(b)
  {
    if |b| > 0 {
      assert (a + b)[..|a + b| - 1] == a + b[..|b| - 1];
      SumAppend(a, b[..|b| - 1]);
    } else {
      assert a + b == a;
    }
  }

  /** The total does not depend on the order of the samples: summing the sorted copy gives the sum of the samples. */
  lemma {:induction false} SumPermutation(a: seq<real>, b: seq<real>)
    requires multiset(a) == multiset(b)
    ensures Sum(a) == Sum(b)
    decreases |a|
  {
    if |a| > 0 {
      var x := a[|a| - 1];
      var front := a[..|a| - 1];
      assert a == front + [x];
      var j := Occurrence(b, x);
      var rest := b[..j] + b[j + 1..];
      assert b == b[..j] + [x] + b[j + 1..];
      RemoveOne(a, b, j);
      SumPermutation(front, rest);
      SumAppend(b[..j] + [x], b[j + 1..]);
      SumAppend(b[..j], [x]);
      SumAppend(b[..j], b[j + 1..]);
      assert Sum([x]) == x by {
        assert [x][..0] == [];
      }
    } else {
      assert b == [];
    }
  }

  /** Taking the last element off one of two permutations and an equal element off the other leaves permutations. */
  lemma RemoveOne<T>(a: seq<T>, b: seq<T>, j: nat)
    requires multiset(a) == multiset(b) && |a| > 0 && j < |b| && b[j] == a[|a| - 1]
    ensures multiset(a[..|a| - 1]) == multiset(b[..j] + b[j + 1..])
  {
    var x := a[|a| - 1];
    assert a == a[..|a| - 1] + [x];
    assert b == b[..j] + [x] + b[j + 1..];
    assert multiset(a[..|a| - 1]) == multiset(a) - multiset{x};
    assert multiset(b[..j] + b[j + 1..]) == multiset(b) - multiset{x};
  }

  /** A position at which `x` occurs in `s`. */
  lemma Occurrence<T>(s: seq<T>, x: T) returns (j: nat)
    requires x in multiset(s)
    ensures j < |s| && s[j] == x
  {
    assert x in s;
    j :| 0 <= j < |s| && s[j] == x;
  }

  lemma {:induction false} SumBetween(s: seq<real>, lo: real, hi: real)
    requires forall i :: 0 <= i < |s| ==> lo <= s[i] <= hi
    ensures (|s| as real) * lo <= Sum(s) <= (|s| as real) * hi
  {
    if |s| > 0 {
      SumBetween(s[..|s| - 1], lo, hi);
    }
  }

  lemma MeanBetween(total: real, n: nat, lo: real, hi: real)
    requires n > 0 && (n as real) * lo <= total <= (n as real) * hi
    ensures lo <= total / (n as real) <= hi
  {
    var q := total / (n as real);
    assert q * (n as real) == total;
  }
}
