/**
 * The per-stage counters the benchmark tool keeps while it measures the
 * reading rate (src/bin/qrtool.rs, `StageTelemetry`): what each labelled
 * image adds, how the totals of two runs are combined, and how the number
 * of decode attempts is put into a histogram bucket.
 *
 * `StageTelemetry` is a `Copy` struct; it is modelled as a value, and its
 * in-place updates as functions returning the updated value.
 */
module Telemetry {
  import opened Wrappers

  /** A fixed-size array `[usize; 4]`. */
  type Counts4 = s: seq<nat> | |s| == 4 witness [0, 0, 0, 0]

  /** A fixed-size array `[usize; 5]`. */
  type Counts5 = s: seq<nat> | |s| == 5 witness [0, 0, 0, 0, 0]

  /** The element-wise sum, the `for i in 0..4` loops of the source. */
  function Plus4(a: Counts4, b: Counts4): (r: Counts4)
    ensures forall k :: 0 <= k < 4 ==> r[k] == a[k] + b[k]
  {
    [a[0] + b[0], a[1] + b[1], a[2] + b[2], a[3] + b[3]]
  }

  function Plus5(a: Counts5, b: Counts5): (r: Counts5)
    ensures forall k :: 0 <= k < 5 ==> r[k] == a[k] + b[k]
  {
    [a[0] + b[0], a[1] + b[1], a[2] + b[2], a[3] + b[3], a[4] + b[4]]
  }

  /** The number of images a five-bucket histogram counts. */
  function Total5(h: Counts5): nat
  {
    h[0] + h[1] + h[2] + h[3] + h[4]
  }

  /** One for a condition that holds, zero otherwise. */
  function Flag(b: bool): nat
  {
    if b then 1 else 0
  }

  /** The number of binary digits of `n`: 0 for 0, k for 2^(k-1) <= n < 2^k. */
  function BitLength(n: nat): nat
  {
    if n == 0 then 0 else 1 + BitLength(n / 2)
  }

  /** `attempts_hist_bucket`: 0, 1, 2-3, 4-7 and 8 or more attempts. */
  function AttemptsHistBucket(attempts: nat): (b: nat)
    ensures b < 5
  {
    if attempts == 0 then 0
    else if attempts == 1 then 1
    else if attempts <= 3 then 2
    else if attempts <= 7 then 3
    else 4
  }

  lemma BitLengthAtLeastFour(n: nat)
    requires n >= 8
    ensures BitLength(n) >= 4
  {
    assert BitLength(n) == 1 + BitLength(n / 2);
    assert BitLength(n / 2) == 1 + BitLength(n / 4);
    assert BitLength(n / 4) == 1 + BitLength(n / 8);
  }

  /** The bucket is the bit length of the attempt count, capped at 4: buckets double in width. */
  lemma AttemptsBucketIsBitLength(attempts: nat)
    ensures AttemptsHistBucket(attempts) == Min(4, BitLength(attempts))
  {
    if attempts >= 8 {
      BitLengthAtLeastFour(attempts);
    } else if attempts >= 4 {
      assert BitLength(attempts / 4) == 1;
    } else if attempts >= 2 {
      assert BitLength(attempts / 2) == 1;
    }
  }

  /** More attempts never land in a lower bucket. */
  lemma AttemptsBucketMonotone(a: nat, b: nat)
    requires a <= b
    ensures AttemptsHistBucket(a) <= AttemptsHistBucket(b)
  {
  }

  /** What the detector reports about one image, as far as the tool reads it. */
  datatype DetectionTelemetry = DetectionTelemetry(
    binarizeOk: bool,
    rerankEnabled: bool,
    saturationMaskEnabled: bool,
    routerMultiRegion: bool,
    finderPatternsFound: nat,
    groupsFound: nat,
    transformsBuilt: nat,
    formatExtracted: nat,
    rsDecodeOk: nat,
    payloadDecoded: nat,
    decodeAttempts: nat,
    budgetSkips: nat,
    budgetLaneHigh: nat,
    budgetLaneMedium: nat,
    budgetLaneLow: nat,
    binFallbackOtsuToAdaptive31: nat,
    binFallbackAdaptive31ToAdaptive21: nat,
    binFallbackSuccesses: nat,
    rerankTop1Attempts: nat,
    rerankTop1Successes: nat,
    rerankTransformRejectCount: nat,
    saturationMaskDecodeSuccesses: nat,
    roiNormAttempts: nat,
    roiNormSuccesses: nat,
    roiNormSkipped: nat,
    acceptanceRejected: nat,
    deskewAttempts: nat,
    deskewSuccesses: nat,
    highVersionPrecisionAttempts: nat,
    recoveryModeAttempts: nat,
    scaleRetryAttempts: nat,
    scaleRetrySuccesses: nat,
    scaleRetrySkippedByBudget: nat,
    hvSubpixelAttempts: nat,
    hvRefineAttempts: nat,
    hvRefineSuccesses: nat,
    rsErasureAttempts: nat,
    rsErasureSuccesses: nat,
    phase11TimeBudgetSkips: nat,
    twoFinderSuccesses: nat,
    twoFinderAttempts: nat,
    saturationMaskCoverage: real,
    routerBlurMetric: real,
    routerSaturationRatio: real,
    routerSkewEstimateDeg: real,
    routerRegionDensityProxy: real,
    candidateScoreBuckets: Counts4,
    rsErasureCountHist: Counts4)


  /** Counts of labelled images and of what happened to them, summed over a run. */
  datatype StageTelemetry = StageTelemetry(
    binarizeOk: nat,
    finderOk: nat,
    groupsOk: nat,
    transformOk: nat,
    decodeOk: nat,
    totalDecodeAttempts: nat,
    candidateScoreBuckets: Counts4,
    overBudgetSkip: nat,
    budgetLaneHigh: nat,
    budgetLaneMedium: nat,
    budgetLaneLow: nat,
    binFallbackOtsuToAdaptive31: nat,
    binFallbackAdaptive31ToAdaptive21: nat,
    binFallbackSuccesses: nat,
    rerankEnabled: nat,
    rerankTop1Attempts: nat,
    rerankTop1Successes: nat,
    rerankTransformRejectCount: nat,
    saturationMaskEnabled: nat,
    saturationMaskCoverageSum: real,
    saturationMaskDecodeSuccesses: nat,
    roiNormAttempts: nat,
    roiNormSuccesses: nat,
    roiNormSkipped: nat,
    twoFinderUsed: nat,
    routerMultiRegion: nat,
    routerBlurMetricSum: real,
    routerSaturationRatioSum: real,
    routerSkewEstimateDegSum: real,
    routerRegionDensityProxySum: real,
    acceptanceRejected: nat,
    deskewAttempts: nat,
    deskewSuccesses: nat,
    highVersionPrecisionAttempts: nat,
    recoveryModeAttempts: nat,
    scaleRetryAttempts: nat,
    scaleRetrySuccesses: nat,
    scaleRetrySkippedByBudget: nat,
    hvSubpixelAttempts: nat,
    hvRefineAttempts: nat,
    hvRefineSuccesses: nat,
    rsErasureAttempts: nat,
    rsErasureSuccesses: nat,
    rsErasureCountHist: Counts4,
    phase11TimeBudgetSkips: nat,
    attemptsUsedHistogram: Counts5,
    total: nat)

  /** `StageTelemetry::default()`: every counter zero. */
  function Zero(): (t: StageTelemetry)
    ensures Consistent(t) && t.total == 0
  {
    StageTelemetry(
      0,
      0,
      0,
      0,
      0,
      0,
      [0, 0, 0, 0],
      0,
      0,
      0,
      0,
      0,
      0,
      0,
      0,
      0,
      0,
      0,
      0,
      0.0,
      0,
      0,
      0,
      0,
      0,
      0,
      0.0,
      0.0,
      0.0,
      0.0,
      0,
      0,
      0,
      0,
      0,
      0,
      0,
      0,
      0,
      0,
      0,
      0,
      0,
      [0, 0, 0, 0],
      0,
      [0, 0, 0, 0, 0],
      0)
  }

  /** The number of labelled images that loaded and were run through the detector. */
  function Loaded(t: StageTelemetry): nat
  {
    Total5(t.attemptsUsedHistogram)
  }

  /**
   * Every per-image condition is counted at most once for each image that
   * loaded, and an image that loaded was first counted as labelled.
   */
  predicate Consistent(t: StageTelemetry)
  {
    t.binarizeOk <= Loaded(t) &&
    t.finderOk <= Loaded(t) &&
    t.groupsOk <= Loaded(t) &&
    t.transformOk <= Loaded(t) &&
    t.decodeOk <= Loaded(t) &&
    t.overBudgetSkip <= Loaded(t) &&
    t.rerankEnabled <= Loaded(t) &&
    t.saturationMaskEnabled <= Loaded(t) &&
    t.twoFinderUsed <= Loaded(t) &&
    t.routerMultiRegion <= Loaded(t) &&
    Loaded(t) <= t.total
  }

  /** `accumulate`: every counter and histogram bucket of `b` added to those of `a`. */
  function Accumulate(a: StageTelemetry, b: StageTelemetry): (r: StageTelemetry)
    ensures Loaded(r) == Loaded(a) + Loaded(b)
    ensures r.total == a.total + b.total
  {
    StageTelemetry(
      a.binarizeOk + b.binarizeOk,
      a.finderOk + b.finderOk,
      a.groupsOk + b.groupsOk,
      a.transformOk + b.transformOk,
      a.decodeOk + b.decodeOk,
      a.totalDecodeAttempts + b.totalDecodeAttempts,
      Plus4(a.candidateScoreBuckets, b.candidateScoreBuckets),
      a.overBudgetSkip + b.overBudgetSkip,
      a.budgetLaneHigh + b.budgetLaneHigh,
      a.budgetLaneMedium + b.budgetLaneMedium,
      a.budgetLaneLow + b.budgetLaneLow,
      a.binFallbackOtsuToAdaptive31 + b.binFallbackOtsuToAdaptive31,
      a.binFallbackAdaptive31ToAdaptive21 + b.binFallbackAdaptive31ToAdaptive21,
      a.binFallbackSuccesses + b.binFallbackSuccesses,
      a.rerankEnabled + b.rerankEnabled,
      a.rerankTop1Attempts + b.rerankTop1Attempts,
      a.rerankTop1Successes + b.rerankTop1Successes,
      a.rerankTransformRejectCount + b.rerankTransformRejectCount,
      a.saturationMaskEnabled + b.saturationMaskEnabled,
      a.saturationMaskCoverageSum + b.saturationMaskCoverageSum,
      a.saturationMaskDecodeSuccesses + b.saturationMaskDecodeSuccesses,
      a.roiNormAttempts + b.roiNormAttempts,
      a.roiNormSuccesses + b.roiNormSuccesses,
      a.roiNormSkipped + b.roiNormSkipped,
      a.twoFinderUsed + b.twoFinderUsed,
      a.routerMultiRegion + b.routerMultiRegion,
      a.routerBlurMetricSum + b.routerBlurMetricSum,
      a.routerSaturationRatioSum + b.routerSaturationRatioSum,
      a.routerSkewEstimateDegSum + b.routerSkewEstimateDegSum,
      a.routerRegionDensityProxySum + b.routerRegionDensityProxySum,
      a.acceptanceRejected + b.acceptanceRejected,
      a.deskewAttempts + b.deskewAttempts,
      a.deskewSuccesses + b.deskewSuccesses,
      a.highVersionPrecisionAttempts + b.highVersionPrecisionAttempts,
      a.recoveryModeAttempts + b.recoveryModeAttempts,
      a.scaleRetryAttempts + b.scaleRetryAttempts,
      a.scaleRetrySuccesses + b.scaleRetrySuccesses,
      a.scaleRetrySkippedByBudget + b.scaleRetrySkippedByBudget,
      a.hvSubpixelAttempts + b.hvSubpixelAttempts,
      a.hvRefineAttempts + b.hvRefineAttempts,
      a.hvRefineSuccesses + b.hvRefineSuccesses,
      a.rsErasureAttempts + b.rsErasureAttempts,
      a.rsErasureSuccesses + b.rsErasureSuccesses,
      Plus4(a.rsErasureCountHist, b.rsErasureCountHist),
      a.phase11TimeBudgetSkips + b.phase11TimeBudgetSkips,
      Plus5(a.attemptsUsedHistogram, b.attemptsUsedHistogram),
      a.total + b.total)
  }

  /** What a labelled image that loaded adds, given its telemetry and the number of codes decoded. */
  function RecordDecode(t: StageTelemetry, tel: DetectionTelemetry, decoded: nat): (r: StageTelemetry)
    ensures Loaded(r) == Loaded(t) + 1
    ensures r.total == t.total
  {
    var bucket := AttemptsHistBucket(tel.decodeAttempts);
    var histogram := t.attemptsUsedHistogram;
    StageTelemetry(
      t.binarizeOk + Flag(tel.binarizeOk),
      t.finderOk + Flag(tel.finderPatternsFound >= 3),
      t.groupsOk + Flag(tel.groupsFound >= 1),
      t.transformOk + Flag(tel.transformsBuilt >= 1),
      t.decodeOk + Flag(decoded >= 1),
      t.totalDecodeAttempts + tel.decodeAttempts,
      Plus4(t.candidateScoreBuckets, tel.candidateScoreBuckets),
      t.overBudgetSkip + Flag(tel.budgetSkips > 0),
      t.budgetLaneHigh + tel.budgetLaneHigh,
      t.budgetLaneMedium + tel.budgetLaneMedium,
      t.budgetLaneLow + tel.budgetLaneLow,
      t.binFallbackOtsuToAdaptive31 + tel.binFallbackOtsuToAdaptive31,
      t.binFallbackAdaptive31ToAdaptive21 + tel.binFallbackAdaptive31ToAdaptive21,
      t.binFallbackSuccesses + tel.binFallbackSuccesses,
      t.rerankEnabled + Flag(tel.rerankEnabled),
      t.rerankTop1Attempts + tel.rerankTop1Attempts,
      t.rerankTop1Successes + tel.rerankTop1Successes,
      t.rerankTransformRejectCount + tel.rerankTransformRejectCount,
      t.saturationMaskEnabled + Flag(tel.saturationMaskEnabled),
      t.saturationMaskCoverageSum + tel.saturationMaskCoverage,
      t.saturationMaskDecodeSuccesses + tel.saturationMaskDecodeSuccesses,
      t.roiNormAttempts + tel.roiNormAttempts,
      t.roiNormSuccesses + tel.roiNormSuccesses,
      t.roiNormSkipped + tel.roiNormSkipped,
      t.twoFinderUsed + Flag(tel.twoFinderSuccesses > 0 || tel.twoFinderAttempts > 0),
      t.routerMultiRegion + Flag(tel.routerMultiRegion),
      t.routerBlurMetricSum + tel.routerBlurMetric,
      t.routerSaturationRatioSum + tel.routerSaturationRatio,
      t.routerSkewEstimateDegSum + tel.routerSkewEstimateDeg,
      t.routerRegionDensityProxySum + tel.routerRegionDensityProxy,
      t.acceptanceRejected + tel.acceptanceRejected,
      t.deskewAttempts + tel.deskewAttempts,
      t.deskewSuccesses + tel.deskewSuccesses,
      t.highVersionPrecisionAttempts + tel.highVersionPrecisionAttempts,
      t.recoveryModeAttempts + tel.recoveryModeAttempts,
      t.scaleRetryAttempts + tel.scaleRetryAttempts,
      t.scaleRetrySuccesses + tel.scaleRetrySuccesses,
      t.scaleRetrySkippedByBudget + tel.scaleRetrySkippedByBudget,
      t.hvSubpixelAttempts + tel.hvSubpixelAttempts,
      t.hvRefineAttempts + tel.hvRefineAttempts,
      t.hvRefineSuccesses + tel.hvRefineSuccesses,
      t.rsErasureAttempts + tel.rsErasureAttempts,
      t.rsErasureSuccesses + tel.rsErasureSuccesses,
      Plus4(t.rsErasureCountHist, tel.rsErasureCountHist),
      t.phase11TimeBudgetSkips + tel.phase11TimeBudgetSkips,
      histogram[bucket := histogram[bucket] + 1],
      t.total)
  }

  /**
   * One labelled image: it is counted, and when it loaded, what the
   * detector reported about it is recorded.
   */
  function CountImage(t: StageTelemetry, outcome: Option<(DetectionTelemetry, nat)>): (r: StageTelemetry)
    ensures r.total == t.total + 1
    ensures Loaded(r) == Loaded(t) + (if outcome.Some? then 1 else 0)
  {
    var counted := t.(total := t.total + 1);
    match outcome
    case None => counted
    case Some((tel, decoded)) => RecordDecode(counted, tel, decoded)
  }

  /** Counting an image keeps the counters consistent. */
  lemma CountImageConsistent(t: StageTelemetry, outcome: Option<(DetectionTelemetry, nat)>)
    requires Consistent(t)
    ensures Consistent(CountImage(t, outcome))
  {
  }

  /** Combining two consistent sets of counters gives consistent counters. */
  lemma AccumulateConsistent(a: StageTelemetry, b: StageTelemetry)
    requires Consistent(a) && Consistent(b)
    ensures Consistent(Accumulate(a, b))
  {
  }

  /**
   * The order in which categories are combined does not matter. This and
   * the next law hold for the model's exact `real` sums; the source's `f64`
   * sums round.
   */
  lemma AccumulateCommutative(a: StageTelemetry, b: StageTelemetry)
    ensures Accumulate(a, b) == Accumulate(b, a)
  {
  }

  /** Grouping does not matter either, for the same exact sums. */
  lemma AccumulateAssociative(a: StageTelemetry, b: StageTelemetry, c: StageTelemetry)
    ensures Accumulate(Accumulate(a, b), c) == Accumulate(a, Accumulate(b, c))
  {
  }

  /** The default counters add nothing. */
  lemma AccumulateZero(a: StageTelemetry)
    ensures Accumulate(a, Zero()) == a
  {
  }

  /** Counting an image in place adds the counters of that image alone. */
  lemma CountImageIsAccumulate(t: StageTelemetry, outcome: Option<(DetectionTelemetry, nat)>)
    ensures CountImage(t, outcome) == Accumulate(t, CountImage(Zero(), outcome))
  {
    if outcome.Some? {
      var (tel, decoded) := outcome.value;
      BumpIsPlus(t.attemptsUsedHistogram, AttemptsHistBucket(tel.decodeAttempts));
      Plus4Zero(tel.candidateScoreBuckets);
      Plus4Zero(tel.rsErasureCountHist);
    }
  }

  lemma Plus4Zero(c: Counts4)
    ensures Plus4([0, 0, 0, 0], c) == c
  {
  }

  /** Adding one to a bucket adds a histogram holding that single image. */
  lemma BumpIsPlus(h: Counts5, b: nat)
    requires b < 5
    ensures h[b := h[b] + 1] == Plus5(h, [0, 0, 0, 0, 0][b := 1])
  {
  }
}
