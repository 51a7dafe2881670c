/**
 * The integer decisions of the sampling geometry
 * (src/decoder/qr_decoder/geometry.rs): the versions tried around an
 * estimate, the dimension inferred from a measured width, the alignment
 * centres worth refining, the sampling kernel radius, and the alternation
 * ratio of a timing row. The floating-point measurements these work on are
 * parameters.
 */
module Geometry {
  import opened Wrappers
  import FunctionMask
  import Orientation

  // ------------------------------------------------------------ version candidates

  /** `version_candidates`: every version in 1..=40 within two of the estimate, in ascending order. */
  method VersionCandidates(estimated: int) returns (candidates: seq<u8>)
    ensures forall v: u8 :: v in candidates <==> (1 <= v <= 40 && estimated - 2 <= v as int <= estimated + 2)
    ensures forall i, j :: 0 <= i < j < |candidates| ==> candidates[i] < candidates[j]
    ensures |candidates| <= 5
  {
    candidates := [];
    for delta := -2 to 3
      invariant forall v: u8 :: v in candidates <==> (1 <= v <= 40 && estimated - 2 <= v as int < estimated + delta)
      invariant forall i, j :: 0 <= i < j < |candidates| ==> candidates[i] < candidates[j]
      invariant forall i :: 0 <= i < |candidates| ==> candidates[i] as int < estimated + delta
      invariant |candidates| <= delta + 2
    {
      var v := estimated + delta;
      if 1 <= v <= 40 {
        candidates := candidates + [v as u8];
      }
    }
  }

  // ------------------------------------------------------------ dimension estimate

  /**
   * `f32::round` of `(dimension - 17) / 4.0` for `dimension >= 21`: the
   * quotient is positive, so rounding half away from zero is rounding half up.
   */
  function RoundQuarter(n: nat): (r: nat)
    ensures 4 * r - 2 <= n < 4 * r + 2
  {
    (n + 2) / 4
  }

  /**
   * `estimate_dimension` as written, given the measured width already
   * rounded to whole modules: the dimension is `width + 7`, the version is
   * the rounded `(dimension - 17) / 4` cut to its low eight bits by
   * `as u8`, and only versions 1..=40 give a dimension.
   */
  function EstimateDimensionAsWritten(widthModules: int): (r: Option<nat>)
    ensures r.Some? ==> exists v :: 1 <= v <= 40 && r.value == 17 + 4 * v
  {
    var dimension := widthModules + 7;
    if dimension < 21 then None
    else
      var version := RoundQuarter(dimension - 17) % 256;
      if 1 <= version <= 40 then Some(17 + 4 * version) else None
  }

  /** `estimate_dimension` without the cut to eight bits: the version is the rounded quotient itself. */
  function EstimateDimension(widthModules: int): (r: Option<nat>)
    ensures r.Some? ==> exists v :: 1 <= v <= 40 && r.value == 17 + 4 * v
  {
    var dimension := widthModules + 7;
    if dimension < 21 then None
    else
      var version := RoundQuarter(dimension - 17);
      if 1 <= version <= 40 then Some(17 + 4 * version) else None
  }

  /**
   * The rounding keeps the estimate within two modules of the measured
   * dimension (ties go up), and every measured dimension from 21 to 178 gets one.
   */
  lemma EstimateNearest(widthModules: int)
    ensures var dimension := widthModules + 7;
      (EstimateDimension(widthModules).Some? ==>
        dimension - 2 < EstimateDimension(widthModules).value <= dimension + 2)
      && (21 <= dimension <= 178 ==> EstimateDimension(widthModules).Some?)
  {
    var dimension := widthModules + 7;
    if dimension >= 21 {
      var r := RoundQuarter(dimension - 17);
      assert 4 * r - 2 <= dimension - 17 < 4 * r + 2;
    }
  }

  /**
   * Up to version 256 the cut changes nothing that matters, so the two agree
   * on every measured dimension under 1043.
   */
  lemma EstimateAgreesBelowWrap(widthModules: int)
    requires widthModules + 7 < 1043
    ensures EstimateDimensionAsWritten(widthModules) == EstimateDimension(widthModules)
  {
    var dimension := widthModules + 7;
    if dimension >= 21 {
      var r := RoundQuarter(dimension - 17);
      assert r <= 256;
      if r == 256 {
        assert r % 256 == 0;
      } else {
        assert r % 256 == r;
      }
    }
  }

  /** A width of 1038 modules (version 257) wraps to version 1 and is reported as dimension 21. */
  lemma EstimateWraps()
    ensures EstimateDimensionAsWritten(1038) == Some(21)
    ensures EstimateDimension(1038).None?
  {
    assert RoundQuarter(1028) == 257;
  }

  // ------------------------------------------------------------ alignment centres

  /** The three finder corners of a symbol of side `dimension`. */
  predicate InFinderCorner(cx: nat, cy: nat, dimension: nat)
    requires dimension >= 9
  {
    (cx <= 8 && cy <= 8) || (cx >= dimension - 9 && cy <= 8) || (cx <= 8 && cy >= dimension - 9)
  }

  /** The centres `(cx, positions[j])` for `j < k`, corners skipped. */
  function ColumnUpTo(cx: nat, positions: seq<nat>, dimension: nat, k: nat): seq<(nat, nat)>
    requires dimension >= 9 && k <= |positions|
  {
    if k == 0 then []
    else
      ColumnUpTo(cx, positions, dimension, k - 1)
      + if InFinderCorner(cx, positions[k - 1], dimension) then [] else [(cx, positions[k - 1])]
  }

  /** The centres for the first `k` x positions, each with every y position. */
  function CentresUpTo(positions: seq<nat>, dimension: nat, k: nat): seq<(nat, nat)>
    requires dimension >= 9 && k <= |positions|
  {
    if k == 0 then []
    else CentresUpTo(positions, dimension, k - 1) + ColumnUpTo(positions[k - 1], positions, dimension, |positions|)
  }

  /** `alignment_centers`: every pair of alignment positions outside the finder corners, x major. */
  method AlignmentCenters(version: u8, dimension: nat) returns (centers: seq<(nat, nat)>)
    requires dimension >= 9
    ensures var positions := FunctionMask.Centres(version, FunctionMask.StepAsWritten(version));
      centers == CentresUpTo(positions, dimension, |positions|)
  {
    var positions := FunctionMask.AlignmentPatternPositions(version);
    if |positions| == 0 {
      return [];
    }
    centers := AlignmentRows(positions, dimension);
  }

  /** The outer loop of `alignment_centers`: one column of centres per x position. */
  method AlignmentRows(positions: seq<nat>, dimension: nat) returns (centers: seq<(nat, nat)>)
    requires dimension >= 9
    ensures centers == CentresUpTo(positions, dimension, |positions|)
  {
    centers := [];
    for i := 0 to |positions|
      invariant centers == CentresUpTo(positions, dimension, i)
    {
      var column := AlignmentColumn(positions[i], positions, dimension);
      centers := centers + column;
    }
  }

  /** The inner loop of `alignment_centers`: the centres of one x position. */
  method AlignmentColumn(cx: nat, positions: seq<nat>, dimension: nat) returns (column: seq<(nat, nat)>)
    requires dimension >= 9
    ensures column == ColumnUpTo(cx, positions, dimension, |positions|)
  {
    column := [];
    for j := 0 to |positions|
      invariant column == ColumnUpTo(cx, positions, dimension, j)
    {
      var cy := positions[j];
      if InFinderCorner(cx, cy, dimension) {
        continue;
      }
      column := column + [(cx, cy)];
    }
  }

  /** A column holds exactly the y positions outside the corners, paired with `cx`. */
  lemma {:induction false} ColumnMembers(cx: nat, positions: seq<nat>, dimension: nat, k: nat, c: (nat, nat))
    requires dimension >= 9 && k <= |positions|
    ensures c in ColumnUpTo(cx, positions, dimension, k)
      <==> (c.0 == cx && (exists j :: 0 <= j < k && positions[j] == c.1) && !InFinderCorner(cx, c.1, dimension))
  {
    if k > 0 {
      ColumnMembers(cx, positions, dimension, k - 1, c);
    }
  }

  /** Some entry of `s` before `k` is `v`. */
  predicate ListedBefore(s: seq<nat>, k: nat, v: nat)
    requires k <= |s|
  {
    exists i :: 0 <= i < k && s[i] == v
  }

  /** One more entry is listed when it is `v` or was listed already. */
  lemma ListedStep(s: seq<nat>, k: nat, v: nat)
    requires 0 < k <= |s|
    ensures ListedBefore(s, k, v) <==> ListedBefore(s, k - 1, v) || s[k - 1] == v
  {
    if ListedBefore(s, k, v) && s[k - 1] != v {
      var i :| 0 <= i < k && s[i] == v;
      assert i < k - 1;
    }
  }

  /** Listed among all entries is membership. */
  lemma ListedAll(s: seq<nat>, v: nat)
    ensures ListedBefore(s, |s|, v) <==> v in s
  {
    if v in s {
      var i :| 0 <= i < |s| && s[i] == v;
    }
  }

  /** The first `k` columns hold exactly the pairs with x among the first `k` positions. */
  lemma {:induction false} CentresMembers(positions: seq<nat>, dimension: nat, k: nat, c: (nat, nat))
    requires dimension >= 9 && k <= |positions|
    ensures c in CentresUpTo(positions, dimension, k)
      <==> (ListedBefore(positions, k, c.0) && c.1 in positions && !InFinderCorner(c.0, c.1, dimension))
  {
    if k > 0 {
      CentresMembers(positions, dimension, k - 1, c);
      CentresStep(positions, dimension, k, c);
      ListedStep(positions, k, c.0);
    }
  }

  /** Column `k - 1` adds exactly the pairs with that x position. */
  lemma CentresStep(positions: seq<nat>, dimension: nat, k: nat, c: (nat, nat))
    requires dimension >= 9 && 0 < k <= |positions|
    ensures c in CentresUpTo(positions, dimension, k)
      <==> c in CentresUpTo(positions, dimension, k - 1)
           || (c.0 == positions[k - 1] && c.1 in positions && !InFinderCorner(c.0, c.1, dimension))
  {
    var x := positions[k - 1];
    var prev := CentresUpTo(positions, dimension, k - 1);
    var column := ColumnUpTo(x, positions, dimension, |positions|);
    assert CentresUpTo(positions, dimension, k) == prev + column;
    assert c in prev + column <==> c in prev || c in column;
    ColumnMembers(x, positions, dimension, |positions|, c);
    ListedAll(positions, c.1);
  }

  /**
   * The centres are the pairs of alignment positions of `version` that lie
   * in no finder corner; there are none for version 1.
   */
  lemma AlignmentCentersMeaning(version: u8, dimension: nat, c: (nat, nat))
    requires dimension >= 9
    ensures var positions := FunctionMask.Centres(version, FunctionMask.StepAsWritten(version));
      var centres := CentresUpTo(positions, dimension, |positions|);
      (c in centres <==> c.0 in positions && c.1 in positions && !InFinderCorner(c.0, c.1, dimension))
      && (version == 1 ==> centres == [])
  {
    var positions := FunctionMask.Centres(version, FunctionMask.StepAsWritten(version));
    CentresMembers(positions, dimension, |positions|, c);
    ListedAll(positions, c.0);
    FunctionMask.CentresShape(version, FunctionMask.StepAsWritten(version));
  }

  // ------------------------------------------------------------ kernel radius

  /** `adaptive_kernel_radius`: 0, 1, 2 or 3 modules, by the size of one module in pixels. */
  function AdaptiveKernelRadius(modulePx: real): (r: nat)
    ensures r <= 3
  {
    if modulePx < 1.5 then 0
    else if modulePx < 2.5 then 1
    else if modulePx < 4.0 then 2
    else 3
  }

  /** Larger modules never get a smaller kernel, and the radius stays below the module size in pixels. */
  lemma KernelRadiusMonotone(a: real, b: real)
    requires a <= b
    ensures AdaptiveKernelRadius(a) <= AdaptiveKernelRadius(b)
    ensures AdaptiveKernelRadius(a) > 0 ==> AdaptiveKernelRadius(a) as real < a
  {
  }

  // ------------------------------------------------------------ alternation ratio

  /** `alternation_ratio` of geometry.rs: the counting loop, with the same value as the orientation check's ratio. */
  method AlternationRatio(bits: seq<bool>) returns (r: real)
    ensures r == Orientation.AlternationRatio(bits)
    ensures 0.0 <= r <= 1.0
  {
    Orientation.AlternationBounds(bits);
    if |bits| < 2 {
      return 0.0;
    }
    var transitions := 0;
    for i := 1 to |bits|
      invariant transitions == Orientation.Transitions(bits[..i])
    {
      assert bits[..i + 1][..i] == bits[..i];
      if bits[i] != bits[i - 1] {
        transitions := transitions + 1;
      }
    }
    assert bits[..|bits|] == bits;
    r := transitions as real / (|bits| - 1) as real;
  }
}
