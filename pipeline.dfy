/**
 * The integer decision helpers of the detection pipeline (src/pipeline.rs):
 * the confidence lanes and their attempt budget, the strategy ladder, the
 * trimming of a finder cluster, the de-duplication of candidate triples,
 * and the number of ranked groups decoded.
 *
 * Confidences, densities and distances are `real`; the environment value
 * of `QR_DECODE_TOP_K` is a parameter, already parsed.
 */
module Pipeline {
  import opened Wrappers

  // ------------------------------------------------------------ lanes and their budget

  datatype ConfidenceLane = High | Medium | Low

  datatype StrategyProfile = FastSingle | MultiQrHeavy | RotationHeavy | HighVersionPrecision | LowContrastRecovery

  const HighConfidenceLaneMin: real := 0.78
  const MediumConfidenceLaneMin: real := 0.56

  /** `confidence_lane`: High from 0.78, Medium from 0.56, Low below. */
  function ConfidenceLaneOf(geometryConfidence: real): (lane: ConfidenceLane)
    ensures lane == High <==> geometryConfidence >= HighConfidenceLaneMin
    ensures lane == Low <==> geometryConfidence < MediumConfidenceLaneMin
  {
    if geometryConfidence >= HighConfidenceLaneMin then High
    else if geometryConfidence >= MediumConfidenceLaneMin then Medium
    else Low
  }

  /** The rank of a lane: Low 0, Medium 1, High 2. */
  function LaneRank(lane: ConfidenceLane): nat
  {
    match lane
    case Low => 0
    case Medium => 1
    case High => 2
  }

  /** A more confident group never lands in a lower lane. */
  lemma ConfidenceLaneMonotone(a: real, b: real)
    requires a <= b
    ensures LaneRank(ConfidenceLaneOf(a)) <= LaneRank(ConfidenceLaneOf(b))
  {
  }

  /** `LaneBudget`: the attempts left in each lane. */
  class LaneBudget {
    var high: nat
    var medium: nat
    var low: nat

    constructor (high: nat, medium: nat, low: nat)
      ensures this.high == high && this.medium == medium && this.low == low
    {
      this.high := high;
      this.medium := medium;
      this.low := low;
    }

    /** The attempts left in `lane`. */
    function Remaining(lane: ConfidenceLane): nat
      reads this
    {
      match lane
      case High => high
      case Medium => medium
      case Low => low
    }

    /** The attempts left in all three lanes together. */
    function Total(): (t: nat)
      reads this
      ensures t == Remaining(High) + Remaining(Medium) + Remaining(Low)
    {
      high + medium + low
    }

    /** `consume`: take one attempt from `lane` when it has any; the other lanes never change. */
    method Consume(lane: ConfidenceLane) returns (ok: bool)
      modifies this
      ensures ok <==> old(Remaining(lane)) > 0
      ensures Remaining(lane) == if ok then old(Remaining(lane)) - 1 else old(Remaining(lane))
      ensures forall other :: other != lane ==> Remaining(other) == old(Remaining(other))
      ensures Total() + (if ok then 1 else 0) == old(Total())
    {
      match lane
      case High =>
        if high == 0 {
          ok := false;
        } else {
          high := high - 1;
          ok := true;
        }
      case Medium =>
        if medium == 0 {
          ok := false;
        } else {
          medium := medium - 1;
          ok := true;
        }
      case Low =>
        if low == 0 {
          ok := false;
        } else {
          low := low - 1;
          ok := true;
        }
    }
  }

  /**
   * The split `lane_budget_from_attempts` arrives at, in closed form: of
   * `n >= 2` attempts, half (rounded down) go to the high lane, three
   * tenths (rounded down, but one when `n` is 3) to the medium lane and
   * the rest to the low lane; then the strategy moves one attempt.
   */
  function LaneSplit(n: nat, strategy: StrategyProfile): (nat, nat, nat)
  {
    if n <= 1 then (n, 0, 0)
    else
      var high := n / 2;
      var medium := if n == 3 then 1 else 3 * n / 10;
      var low := n - high - medium;
      match strategy
      case MultiQrHeavy => if high > 1 then (high - 1, medium, low + 1) else (high, medium, low)
      case HighVersionPrecision => if low > 0 then (high + 1, medium, low - 1) else (high, medium, low)
      case LowContrastRecovery => if medium > 0 then (high, medium - 1, low + 1) else (high, medium, low)
      case RotationHeavy => (high, medium, low)
      case FastSingle => (high, medium, low)
  }

  /** The first closing loop: attempts taken back from the low lane, then medium, then high, until at most `n` remain. */
  function Trimmed(high: nat, medium: nat, low: nat, n: nat): (r: (nat, nat, nat))
    ensures r.0 + r.1 + r.2 == if high + medium + low <= n then high + medium + low else n
    ensures r.0 <= high && r.1 <= medium && r.2 <= low
    ensures r.1 < medium ==> r.2 == 0
    ensures r.0 < high ==> r.1 == 0 && r.2 == 0
    decreases high + medium + low
  {
    if high + medium + low <= n then (high, medium, low)
    else if low > 0 then Trimmed(high, medium, low - 1, n)
    else if medium > 0 then Trimmed(high, medium - 1, low, n)
    else Trimmed(SatSub(high, 1), medium, low, n)
  }

  /** The second closing loop: attempts added to the high lane until `n` are used. */
  function Padded(high: nat, medium: nat, low: nat, n: nat): (r: (nat, nat, nat))
    ensures r.0 + r.1 + r.2 == if high + medium + low >= n then high + medium + low else n
    ensures r.0 >= high && r.1 == medium && r.2 == low
    decreases n - (high + medium + low)
  {
    if high + medium + low >= n then (high, medium, low)
    else Padded(high + 1, medium, low, n)
  }

  /**
   * `lane_budget_from_attempts`: the split of `n` attempts into the high,
   * medium and low lanes. Half and three tenths are taken first (rounded
   * down), adjusted by the strategy, and the two closing loops make the
   * lanes add up to `n` exactly.
   */
  method LaneBudgetFromAttempts(n: nat, strategy: StrategyProfile) returns (high: nat, medium: nat, low: nat)
    ensures (high, medium, low) == LaneSplit(n, strategy)
    ensures high + medium + low == n
    ensures n <= 1 ==> high == n && medium == 0 && low == 0
    ensures n >= 1 ==> high >= 1
  {
    if n <= 1 {
      return n, 0, 0;
    }
    high, medium, low := InitialSplit(n, strategy);
    LaneSplitTotal(n, strategy);
    high, medium, low := TrimLanes(high, medium, low, n);
    high, medium, low := PadLanes(high, medium, low, n);
  }

  /** The lanes before the closing loops: the fractions, the repairs and the strategy's move. */
  method InitialSplit(n: nat, strategy: StrategyProfile) returns (high: nat, medium: nat, low: nat)
    requires n >= 2
    ensures (high, medium, low) == LaneSplit(n, strategy)
  {
    SplitBounds(n);
    high := n / 2;
    medium := 3 * n / 10;
    var reserved := high + medium;
    low := SatSub(n, reserved);
    // `n / 2` is at least one here, so the source's `high == 0` repair never runs.
    assert high != 0;
    if n >= 3 && medium == 0 {
      medium := 1;
      low := SatSub(low, 1);
    }
    match strategy {
      case MultiQrHeavy =>
        if high > 1 {
          high := high - 1;
          low := low + 1;
        }
      case HighVersionPrecision =>
        // The low lane holds at least a fifth of `n` here, so the source's
        // fallback to the medium lane never runs.
        assert low > 0;
        low := low - 1;
        high := high + 1;
      case LowContrastRecovery =>
        if medium > 0 {
          medium := medium - 1;
          low := low + 1;
        }
      case RotationHeavy =>
      case FastSingle =>
    }
  }

  /** `while high + medium + low > n`: one attempt back from low, else medium, else high. */
  method TrimLanes(high0: nat, medium0: nat, low0: nat, n: nat) returns (high: nat, medium: nat, low: nat)
    ensures (high, medium, low) == Trimmed(high0, medium0, low0, n)
    ensures high0 + medium0 + low0 <= n ==> (high, medium, low) == (high0, medium0, low0)
  {
    high, medium, low := high0, medium0, low0;
    while high + medium + low > n
      invariant Trimmed(high, medium, low, n) == Trimmed(high0, medium0, low0, n)
      decreases high + medium + low
    {
      if low > 0 {
        low := low - 1;
      } else if medium > 0 {
        medium := medium - 1;
      } else {
        high := SatSub(high, 1);
      }
    }
  }

  /** `while high + medium + low < n`: one more attempt for the high lane. */
  method PadLanes(high0: nat, medium0: nat, low0: nat, n: nat) returns (high: nat, medium: nat, low: nat)
    ensures (high, medium, low) == Padded(high0, medium0, low0, n)
    ensures high0 + medium0 + low0 >= n ==> (high, medium, low) == (high0, medium0, low0)
  {
    high, medium, low := high0, medium0, low0;
    while high + medium + low < n
      invariant Padded(high, medium, low, n) == Padded(high0, medium0, low0, n)
      decreases n - (high + medium + low)
    {
      high := high + 1;
    }
  }

  /** Of `n >= 2` attempts, half and three tenths leave at least one for the low lane; three tenths is zero only up to 3. */
  lemma SplitBounds(n: nat)
    requires n >= 2
    ensures 1 <= n / 2 && n / 2 + 3 * n / 10 < n
    ensures n >= 3 && 3 * n / 10 == 0 <==> n == 3
    ensures n == 3 ==> n - n / 2 - 3 * n / 10 >= 2
  {
  }

  /** The closed form uses every attempt, and the high lane keeps one whenever there is one. */
  lemma LaneSplitTotal(n: nat, strategy: StrategyProfile)
    ensures var (high, medium, low) := LaneSplit(n, strategy);
      high + medium + low == n && (n >= 1 ==> high >= 1)
  {
  }

  /**
   * How each strategy moves one attempt relative to the plain split:
   * multi-QR from high to low once the high lane has two, high-version
   * from low to high, low-contrast from medium to low once there is a
   * medium lane; rotation-heavy changes nothing.
   */
  lemma StrategyShifts(n: nat)
    requires n >= 2
    ensures var (h, m, l) := LaneSplit(n, FastSingle);
      && LaneSplit(n, MultiQrHeavy) == (if n >= 4 then (h - 1, m, l + 1) else (h, m, l))
      && h >= 1 && l >= 1
      && LaneSplit(n, HighVersionPrecision) == (h + 1, m, l - 1)
      && LaneSplit(n, LowContrastRecovery) == (if n >= 3 then (h, m - 1, l + 1) else (h, m, l))
      && LaneSplit(n, RotationHeavy) == (h, m, l)
  {
  }

  // ------------------------------------------------------------ strategy ladder

  /** The two fields of a ranked group candidate that the ladder reads. */
  datatype Candidate = Candidate(geometryConfidence: real, moduleSize: real)

  /** The fast image signals. */
  datatype FastSignals = FastSignals(blurMetric: real, saturationRatio: real, skewEstimateDeg: real, regionDensityProxy: real)

  function Abs(x: real): real
  {
    if x < 0.0 then -x else x
  }

  /** The number of candidates with geometry confidence at least 0.76. */
  function HighConfidenceCount(candidates: seq<Candidate>): (n: nat)
    ensures n <= |candidates|
  {
    if |candidates| == 0 then 0
    else HighConfidenceCount(candidates[1..]) + if candidates[0].geometryConfidence >= 0.76 then 1 else 0
  }

  /** `select_strategy`: the first rule of the ladder that applies. */
  function SelectStrategy(candidates: seq<Candidate>, signals: FastSignals): (r: StrategyProfile)
    ensures |candidates| == 0 ==> r == FastSingle
    ensures |candidates| >= 3 && signals.regionDensityProxy >= 18.0 ==> r == MultiQrHeavy
    ensures r == HighVersionPrecision ==> candidates[0].moduleSize <= 2.0
    ensures r == FastSingle && |candidates| > 0 ==>
      candidates[0].moduleSize > 2.0 && candidates[0].geometryConfidence >= 0.55 && HighConfidenceCount(candidates) < 3
  {
    if |candidates| == 0 then FastSingle
    else
      var highConf := HighConfidenceCount(candidates);
      var topConf := candidates[0].geometryConfidence;
      var topModule := candidates[0].moduleSize;
      var spread := if |candidates| >= 3 then Abs(candidates[0].geometryConfidence - candidates[2].geometryConfidence) else 0.0;
      if signals.regionDensityProxy >= 18.0 && |candidates| >= 3 then MultiQrHeavy
      else if signals.skewEstimateDeg >= 16.0 then RotationHeavy
      else if signals.saturationRatio >= 0.08 || signals.blurMetric < 14.0 then LowContrastRecovery
      else if highConf >= 3 then MultiQrHeavy
      else if topModule <= 2.0 then HighVersionPrecision
      else if topConf < 0.55 then LowContrastRecovery
      else if spread > 0.28 then RotationHeavy
      else FastSingle
  }

  /** Image signals alone decide before the candidates do: heavy skew gives rotation unless the image is dense with three candidates. */
  lemma SignalsPrecedeCandidates(candidates: seq<Candidate>, signals: FastSignals)
    requires |candidates| > 0 && signals.skewEstimateDeg >= 16.0
    requires !(|candidates| >= 3 && signals.regionDensityProxy >= 18.0)
    ensures SelectStrategy(candidates, signals) == RotationHeavy
  {
  }

  /** `StrategyProfile::as_str`. */
  function AsStr(p: StrategyProfile): string
  {
    match p
    case FastSingle => "fast_single"
    case MultiQrHeavy => "multi_qr_heavy"
    case RotationHeavy => "rotation_heavy"
    case HighVersionPrecision => "high_version_precision"
    case LowContrastRecovery => "low_contrast_recovery"
  }

  /** Every profile has its own name. */
  lemma AsStrInjective(p: StrategyProfile, q: StrategyProfile)
    requires AsStr(p) == AsStr(q)
    ensures p == q
  {
  }

  // ------------------------------------------------------------ cluster trimming

  const ClusterMaxSize: nat := 64

  /** `dist` does not decrease along `s`. */
  predicate ByDistance(s: seq<nat>, dist: nat -> real)
  {
    forall i, j :: 0 <= i < j < |s| ==> dist(s[i]) <= dist(s[j])
  }

  /** Insert `x` before the first entry farther away than it. */
  function InsertByDistance(x: nat, s: seq<nat>, dist: nat -> real): seq<nat>
  {
    if |s| == 0 then [x]
    else if dist(x) < dist(s[0]) then [x] + s
    else [s[0]] + InsertByDistance(x, s[1..], dist)
  }

  /** Insertion adds `x` and keeps the order. */
  lemma {:induction false} InsertSpec(x: nat, s: seq<nat>, dist: nat -> real)
    ensures multiset(InsertByDistance(x, s, dist)) == multiset(s) + multiset{x}
    ensures |InsertByDistance(x, s, dist)| == |s| + 1
    ensures ByDistance(s, dist) ==> ByDistance(InsertByDistance(x, s, dist), dist)
  {
    if |s| > 0 && dist(x) >= dist(s[0]) {
      InsertSpec(x, s[1..], dist);
      assert s == [s[0]] + s[1..];
      var r := InsertByDistance(x, s, dist);
      var t := InsertByDistance(x, s[1..], dist);
      assert r == [s[0]] + t;
      if ByDistance(s, dist) {
        assert forall m :: 0 <= m < |s[1..]| ==> s[1..][m] == s[m + 1];
        BoundedAfterInsert(s[0], s[1..], x, t, dist);
        ConsByDistance(s[0], t, dist);
      }
    }
  }

  /** Every entry of `rest` with `x` added is at least as far as `h` when `rest` and `x` are. */
  lemma BoundedAfterInsert(h: nat, rest: seq<nat>, x: nat, t: seq<nat>, dist: nat -> real)
    requires multiset(t) == multiset(rest) + multiset{x} && dist(h) <= dist(x)
    requires forall m :: 0 <= m < |rest| ==> dist(h) <= dist(rest[m])
    ensures forall k :: 0 <= k < |t| ==> dist(h) <= dist(t[k])
  {
    forall k | 0 <= k < |t|
      ensures dist(h) <= dist(t[k])
    {
      assert t[k] in multiset(t);
      if t[k] in multiset(rest) {
        var m :| 0 <= m < |rest| && rest[m] == t[k];
      }
    }
  }

  /** An entry no farther than any of a sorted list goes in front of it. */
  lemma ConsByDistance(h: nat, t: seq<nat>, dist: nat -> real)
    requires ByDistance(t, dist) && forall k :: 0 <= k < |t| ==> dist(h) <= dist(t[k])
    ensures ByDistance([h] + t, dist)
  {
    var r := [h] + t;
    forall i, j | 0 <= i < j < |r|
      ensures dist(r[i]) <= dist(r[j])
    {
      assert r[j] == t[j - 1];
      if i > 0 {
        assert r[i] == t[i - 1];
      }
    }
  }

  /** The stable sort of `sort_by` on the squared distance to the cell centre. */
  function SortByDistance(s: seq<nat>, dist: nat -> real): seq<nat>
  {
    if |s| == 0 then []
    else InsertByDistance(s[|s| - 1], SortByDistance(s[..|s| - 1], dist), dist)
  }

  /** Sorting permutes the cluster into ascending distance. */
  lemma {:induction false} SortSpec(s: seq<nat>, dist: nat -> real)
    ensures multiset(SortByDistance(s, dist)) == multiset(s)
    ensures |SortByDistance(s, dist)| == |s|
    ensures ByDistance(SortByDistance(s, dist), dist)
  {
    if |s| > 0 {
      SortSpec(s[..|s| - 1], dist);
      InsertSpec(s[|s| - 1], SortByDistance(s[..|s| - 1], dist), dist);
      assert s == s[..|s| - 1] + [s[|s| - 1]];
    }
  }

  /**
   * `trim_cluster_indices`: a cluster of at most 64 finders is kept as it
   * is; a larger one keeps the 64 closest to the cell centre. `dist` gives
   * each finder's squared distance to that centre.
   */
  function TrimClusterIndices(cluster: seq<nat>, dist: nat -> real): (r: seq<nat>)
    ensures |cluster| <= ClusterMaxSize ==> r == cluster
    ensures |cluster| > ClusterMaxSize ==> |r| == ClusterMaxSize
    ensures multiset(r) <= multiset(cluster)
  {
    if |cluster| <= ClusterMaxSize then cluster
    else
      var sorted := SortByDistance(cluster, dist);
      SortSpec(cluster, dist);
      assert sorted == sorted[..ClusterMaxSize] + sorted[ClusterMaxSize..];
      sorted[..ClusterMaxSize]
  }

  /** A trimmed cluster keeps the closest finders: none left out is closer than one kept. */
  lemma TrimKeepsClosest(cluster: seq<nat>, dist: nat -> real, kept: nat, dropped: nat)
    requires kept < ClusterMaxSize <= dropped < |cluster|
    ensures var sorted := SortByDistance(cluster, dist);
      |sorted| == |cluster|
      && TrimClusterIndices(cluster, dist) == sorted[..ClusterMaxSize]
      && dist(sorted[kept]) <= dist(sorted[dropped])
  {
    SortSpec(cluster, dist);
  }

  /** Strictly increasing indices, as `sort_unstable` and `dedup` leave a cluster. */
  predicate Ascending(s: seq<nat>)
  {
    forall i, j :: 0 <= i < j < |s| ==> s[i] < s[j]
  }

  /** Entries at the same distance come in increasing index order. */
  predicate TiesAscending(s: seq<nat>, dist: nat -> real)
  {
    forall i, j :: 0 <= i < j < |s| && dist(s[i]) == dist(s[j]) ==> s[i] < s[j]
  }

  /** An entry at a tie with none behind it, in front of a tie-ordered list, keeps the ties ordered. */
  lemma ConsStable(h: nat, u: seq<nat>, dist: nat -> real)
    requires TiesAscending(u, dist)
    requires forall k :: 0 <= k < |u| && dist(u[k]) == dist(h) ==> h < u[k]
    ensures TiesAscending([h] + u, dist)
  {
    var r := [h] + u;
    forall i, j | 0 <= i < j < |r| && dist(r[i]) == dist(r[j])
      ensures r[i] < r[j]
    {
      assert r[j] == u[j - 1];
      if i > 0 {
        assert r[i] == u[i - 1];
      }
    }
  }

  /** Inserting an index larger than all others puts it after every entry at its distance. */
  lemma {:induction false} InsertStable(x: nat, t: seq<nat>, dist: nat -> real)
    requires ByDistance(t, dist) && TiesAscending(t, dist)
    requires forall k :: 0 <= k < |t| ==> t[k] < x
    ensures TiesAscending(InsertByDistance(x, t, dist), dist)
  {
    if |t| > 0 {
      if dist(x) < dist(t[0]) {
        ConsStable(x, t, dist);
      } else {
        var rest := t[1..];
        var u := InsertByDistance(x, rest, dist);
        InsertStable(x, rest, dist);
        InsertSpec(x, rest, dist);
        forall k | 0 <= k < |u| && dist(u[k]) == dist(t[0])
          ensures t[0] < u[k]
        {
          assert u[k] in multiset(u);
          if u[k] != x {
            assert u[k] in multiset(rest);
            var m :| 0 <= m < |rest| && rest[m] == u[k];
            assert t[m + 1] == rest[m];
          }
        }
        ConsStable(t[0], u, dist);
      }
    }
  }

  /**
   * `sort_by` is stable: sorting increasing indices by distance leaves the
   * entries at the same distance in increasing index order.
   */
  lemma {:induction false} SortStable(s: seq<nat>, dist: nat -> real)
    requires Ascending(s)
    ensures TiesAscending(SortByDistance(s, dist), dist)
  {
    if |s| > 0 {
      var n := |s| - 1;
      var init := SortByDistance(s[..n], dist);
      SortStable(s[..n], dist);
      SortSpec(s[..n], dist);
      forall k | 0 <= k < |init|
        ensures init[k] < s[n]
      {
        assert init[k] in multiset(s[..n]);
        var m :| 0 <= m < n && s[..n][m] == init[k];
      }
      InsertStable(s[n], init, dist);
    }
  }

  /**
   * The cluster `build_groups_clustered` trims is sorted and deduplicated
   * first, so among the finders kept at the same distance the lower index
   * comes first.
   */
  lemma TrimTiesByIndex(cluster: seq<nat>, dist: nat -> real)
    requires Ascending(cluster)
    ensures TiesAscending(TrimClusterIndices(cluster, dist), dist)
  {
    if |cluster| > ClusterMaxSize {
      var sorted := SortByDistance(cluster, dist);
      SortStable(cluster, dist);
      SortSpec(cluster, dist);
      var r := TrimClusterIndices(cluster, dist);
      assert r == sorted[..ClusterMaxSize];
      forall i, j | 0 <= i < j < |r| && dist(r[i]) == dist(r[j])
        ensures r[i] < r[j]
      {
        assert r[i] == sorted[i] && r[j] == sorted[j];
      }
    }
  }

  // ------------------------------------------------------------ triple de-duplication

  /** A candidate triple of finder indices. */
  type Triple = (nat, nat, nat)

  /** The key of a triple: its indices in ascending order. */
  function SortedKey(t: Triple): (k: Triple)
    ensures k.0 <= k.1 <= k.2
  {
    var (a, b, c) := t;
    if a <= b then
      if b <= c then (a, b, c) else if a <= c then (a, c, b) else (c, a, b)
    else
      if a <= c then (b, a, c) else if b <= c then (b, c, a) else (c, b, a)
  }

  /** Two ascending triples with the same entries are equal. */
  lemma AscendingUnique(a: Triple, b: Triple)
    requires a.0 <= a.1 <= a.2 && b.0 <= b.1 <= b.2
    requires multiset{a.0, a.1, a.2} == multiset{b.0, b.1, b.2}
    ensures a == b
  {
    var m := multiset{a.0, a.1, a.2};
    assert a.0 in multiset{b.0, b.1, b.2} && b.0 in m;
    assert a.2 in multiset{b.0, b.1, b.2} && b.2 in m;
    assert a.0 == b.0 && a.2 == b.2;
    assert m - multiset{a.0, a.2} == multiset{a.1};
    assert multiset{b.0, b.1, b.2} - multiset{b.0, b.2} == multiset{b.1};
  }

  /** The key holds the triple's own indices. */
  lemma SortedKeyEntries(t: Triple)
    ensures multiset{SortedKey(t).0, SortedKey(t).1, SortedKey(t).2} == multiset{t.0, t.1, t.2}
  {
  }

  /** Triples listing the same finders in any order share a key. */
  lemma SortedKeyPermutes(t: Triple, u: Triple)
    requires multiset{t.0, t.1, t.2} == multiset{u.0, u.1, u.2}
    ensures SortedKey(t) == SortedKey(u)
  {
    SortedKeyEntries(t);
    SortedKeyEntries(u);
    AscendingUnique(SortedKey(t), SortedKey(u));
  }

  /** The keys of `groups`. */
  function Keys(groups: seq<Triple>): set<Triple>
  {
    if |groups| == 0 then {} else Keys(groups[..|groups| - 1]) + {SortedKey(groups[|groups| - 1])}
  }

  /** A key is among the keys exactly when some group has it. */
  lemma {:induction false} KeysMembers(groups: seq<Triple>, key: Triple)
    ensures key in Keys(groups) <==> exists i :: 0 <= i < |groups| && SortedKey(groups[i]) == key
  {
    if |groups| > 0 {
      var prefix := groups[..|groups| - 1];
      KeysMembers(prefix, key);
      if key in Keys(prefix) {
        var i :| 0 <= i < |prefix| && SortedKey(prefix[i]) == key;
        assert groups[i] == prefix[i];
      }
      if exists i :: 0 <= i < |groups| && SortedKey(groups[i]) == key {
        var i :| 0 <= i < |groups| && SortedKey(groups[i]) == key;
        if i < |prefix| {
          assert prefix[i] == groups[i];
        }
      }
    }
  }

  /** No two groups share a key. */
  predicate KeysDistinct(groups: seq<Triple>)
  {
    forall i, j :: 0 <= i < j < |groups| ==> SortedKey(groups[i]) != SortedKey(groups[j])
  }

  /**
   * Reference for the `seen` set of `build_groups_clustered`: the triples in
   * input order, keeping a triple exactly when no earlier triple has its key.
   */
  function FirstOfEachKey(triples: seq<Triple>): seq<Triple>
  {
    if |triples| == 0 then []
    else
      var prev := FirstOfEachKey(triples[..|triples| - 1]);
      var t := triples[|triples| - 1];
      if SortedKey(t) in Keys(triples[..|triples| - 1]) then prev else prev + [t]
  }

  /** The kept triples have the keys of all the triples. */
  lemma {:induction false} FirstOfEachKeyKeys(triples: seq<Triple>)
    ensures Keys(FirstOfEachKey(triples)) == Keys(triples)
  {
    if |triples| > 0 {
      var prefix := triples[..|triples| - 1];
      var t := triples[|triples| - 1];
      FirstOfEachKeyKeys(prefix);
      var prev := FirstOfEachKey(prefix);
      if SortedKey(t) !in Keys(prefix) {
        assert (prev + [t])[..|prev + [t]| - 1] == prev;
      }
    }
  }

  /** One more triple is appended exactly when its key is new. */
  lemma FirstOfEachKeyStep(triples: seq<Triple>, t: Triple)
    ensures FirstOfEachKey(triples + [t])
         == FirstOfEachKey(triples) + (if SortedKey(t) in Keys(triples) then [] else [t])
  {
    assert (triples + [t])[..|triples|] == triples;
  }

  /**
   * Each kept triple is the first of its key, and the kept triples come in
   * input order: `idx` gives their strictly increasing positions.
   */
  lemma {:induction false} FirstOfEachKeyIndices(triples: seq<Triple>) returns (idx: seq<nat>)
    ensures |idx| == |FirstOfEachKey(triples)|
    ensures forall k :: 0 <= k < |idx| ==> idx[k] < |triples| && triples[idx[k]] == FirstOfEachKey(triples)[k]
    ensures forall k, l :: 0 <= k < l < |idx| ==> idx[k] < idx[l]
    ensures forall k, j :: 0 <= k < |idx| && 0 <= j < idx[k] ==> SortedKey(triples[j]) != SortedKey(triples[idx[k]])
  {
    if |triples| == 0 {
      idx := [];
    } else {
      var n := |triples| - 1;
      var prefix := triples[..n];
      var t := triples[n];
      var prev := FirstOfEachKeyIndices(prefix);
      if SortedKey(t) in Keys(prefix) {
        idx := prev;
      } else {
        idx := prev + [n];
        forall j | 0 <= j < n
          ensures SortedKey(triples[j]) != SortedKey(t)
        {
          assert prefix[j] == triples[j];
          KeysMembers(prefix, SortedKey(t));
        }
      }
    }
  }

  /** Kept triples never share a key, and each is one of the input triples. */
  lemma {:induction false} FirstOfEachKeyDistinct(triples: seq<Triple>)
    ensures KeysDistinct(FirstOfEachKey(triples))
    ensures forall k :: 0 <= k < |FirstOfEachKey(triples)| ==> FirstOfEachKey(triples)[k] in triples
  {
    if |triples| > 0 {
      var prefix := triples[..|triples| - 1];
      var t := triples[|triples| - 1];
      FirstOfEachKeyDistinct(prefix);
      FirstOfEachKeyKeys(prefix);
      var prev := FirstOfEachKey(prefix);
      if SortedKey(t) !in Keys(prefix) {
        forall i | 0 <= i < |prev|
          ensures SortedKey(prev[i]) != SortedKey(t)
        {
          KeysMembers(prev, SortedKey(prev[i]));
        }
      }
      forall k | 0 <= k < |prev|
        ensures prev[k] in triples
      {
        var j :| 0 <= j < |prefix| && prefix[j] == prev[k];
        assert triples[j] == prefix[j];
      }
    }
  }

  /**
   * The `seen` loop of `build_groups_clustered`: a triple is kept when its
   * sorted key is new, so the groups are the first triple of each key in
   * input order; no two share a key and every key met is kept.
   */
  method DedupeTriples(triples: seq<Triple>) returns (groups: seq<Triple>)
    ensures groups == FirstOfEachKey(triples)
    ensures KeysDistinct(groups)
    ensures forall k :: 0 <= k < |groups| ==> groups[k] in triples
    ensures forall t :: t in triples ==> SortedKey(t) in Keys(groups)
  {
    groups := [];
    var seen: set<Triple> := {};
    for i := 0 to |triples|
      invariant groups == FirstOfEachKey(triples[..i])
      invariant seen == Keys(triples[..i])
    {
      var key := SortedKey(triples[i]);
      FirstOfEachKeyStep(triples[..i], triples[i]);
      assert triples[..i] + [triples[i]] == triples[..i + 1];
      if key !in seen {
        groups := groups + [triples[i]];
      }
      seen := seen + {key};
      assert triples[..i + 1][..i] == triples[..i];
    }
    assert triples[..|triples|] == triples;
    FirstOfEachKeyDistinct(triples);
    FirstOfEachKeyKeys(triples);
    forall t | t in triples
      ensures SortedKey(t) in Keys(groups)
    {
      var j :| 0 <= j < |triples| && triples[j] == t;
      KeysMembers(triples, SortedKey(t));
    }
  }

  // ------------------------------------------------------------ decode limit

  const DefaultDecodeTopK: nat := 6
  const MaxDecodeTopK: nat := 64

  /**
   * `decode_top_k_limit`: none for no candidates; otherwise the positive
   * `QR_DECODE_TOP_K` (6 when unset, unparsable or 0), clamped to 1..=64
   * and to the number of candidates.
   */
  function DecodeTopKLimit(totalCandidates: nat, env: Option<nat>): (r: nat)
    ensures totalCandidates == 0 ==> r == 0
    ensures totalCandidates > 0 ==> 1 <= r <= totalCandidates && r <= MaxDecodeTopK
    ensures totalCandidates > 0 && (env.None? || env.value == 0) ==> r == if totalCandidates < DefaultDecodeTopK then totalCandidates else DefaultDecodeTopK
  {
    if totalCandidates == 0 then 0
    else
      var parsed := if env.Some? && env.value > 0 then env.value else DefaultDecodeTopK;
      var clamped := if parsed < 1 then 1 else if parsed > MaxDecodeTopK then MaxDecodeTopK else parsed;
      if clamped < totalCandidates then clamped else totalCandidates
  }
}
