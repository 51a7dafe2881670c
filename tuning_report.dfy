/**
 * The before/after tuning queue (scripts/failure_signature_tuning_report.py):
 * the failure clusters of a baseline and a candidate artifact are matched
 * by signature, each signature gets the count and QR-weight deltas, a
 * likely subsystem and the knobs to try, and the signatures that moved most
 * come first. The per-category rate deltas go alongside.
 */
module TuningReport {
  import opened Wrappers
  import opened Json
  import opened Sorting
  import opened Ranking
  import opened Dicts
  import opened ReportRows
  import opened ArtifactGate
  import FailureClusters

  /** The hint for a signature nobody listed. */
  const FallbackHint: (string, string) := ("mixed", "inspect telemetry")

  /** `SIGNATURE_HINTS`: the subsystem to look at and the knobs to turn for each signature the benchmark emits. */
  function ListedHint(sig: string): Option<(string, string)>
  {
    if sig == "no-finders" then Some(("detector/finder+binarization", "QR_MAX_DIM, binarization policy, finder edge thresholds"))
    else if sig == "no-groups" then Some(("detector/grouping", "group size ratio, geometry rerank weights"))
    else if sig == "transform-fail" then Some(("transform/sampling", "transform refinement, timing validation thresholds"))
    else if sig == "format-fail" then Some(("format/sampling", "format BCH tolerance, sampling scale"))
    else if sig == "rs-fail" then Some(("reed-solomon", "erasure thresholds, max erasures"))
    else if sig == "payload-fail" then Some(("payload parser", "beam repair knobs, mode gating"))
    else if sig == "over-budget-skip" then Some(("budget controller", "image attempt cap, lane split"))
    else if sig == "unknown-fail" then Some(("mixed", "inspect per-image telemetry"))
    else None
  }

  /** `SIGNATURE_HINTS.get(sig, ("mixed", "inspect telemetry"))`. */
  function Hint(sig: string): (h: (string, string))
  {
    match ListedHint(sig)
    case Some(h) => h
    case None => FallbackHint
  }

  /** Every signature the benchmark can file a miss under has a hint of its own, never the fallback. */
  lemma EverySignatureHinted(s: FailureClusters.Signature)
    ensures ListedHint(FailureClusters.Name(s)).Some? && Hint(FailureClusters.Name(s)) != FallbackHint
  {
  }

  /** What `failure_map`'s loop stores for each row: the row under its signature. */
  function Keyed(rows: seq<ArtifactRow>): (r: seq<Option<(string, ArtifactRow)>>)
    ensures |r| == |rows| && forall i :: 0 <= i < |rows| ==> r[i] == Some((rows[i].signature, rows[i]))
  {
    seq(|rows|, i requires 0 <= i < |rows| => Some((rows[i].signature, rows[i])))
  }

  /** A repeated signature keeps its last row: the map from signature to row that `failure_map` builds. */
  lemma FailureMapLastWins(rows: seq<ArtifactRow>)
    ensures forall k :: k in Fill(Keyed(rows)) <==> exists i :: 0 <= i < |rows| && rows[i].signature == k
    ensures forall k :: k in Fill(Keyed(rows)) ==>
      exists i :: 0 <= i < |rows| && rows[i] == Fill(Keyed(rows))[k] && rows[i].signature == k
        && forall j :: i < j < |rows| ==> rows[j].signature != k
  {
    var items := Keyed(rows);
    FillLastWins(items);
    forall k
      ensures k in Fill(items) <==> exists i :: 0 <= i < |rows| && rows[i].signature == k
    {
      if exists i :: 0 <= i < |rows| && rows[i].signature == k {
        var i :| 0 <= i < |rows| && rows[i].signature == k;
        assert Stores(items[i], k);
      }
    }
    forall k | k in Fill(items)
      ensures exists i ::
        && 0 <= i < |rows| && rows[i] == Fill(items)[k] && rows[i].signature == k
        && forall j :: i < j < |rows| ==> rows[j].signature != k
    {
      assert LastStored(items, k, Fill(items)[k]);
      var i :| 0 <= i < |items| && items[i] == Some((k, Fill(items)[k]))
        && forall j :: i < j < |items| ==> !Stores(items[j], k);
      forall j | i < j < |rows|
        ensures rows[j].signature != k
      {
        assert !Stores(items[j], k);
      }
    }
  }

  /** One more row filed: the map so far with the row under its signature. */
  lemma FillKeyedStep(done: seq<ArtifactRow>, row: ArtifactRow)
    ensures Fill(Keyed(done + [row])) == Fill(Keyed(done))[row.signature := row]
  {
    var items := Keyed(done + [row]);
    assert items[..|done|] == Keyed(done);
    assert items[|done|] == Some((row.signature, row));
  }

  /** `failure_map`: the loop that files each normalised row under its signature. */
  method FailureMap(artifact: Json) returns (r: Result<map<string, ArtifactRow>, Failure>)
    ensures FailureRows(artifact).Err? ==> r == Err(FailureRows(artifact).error)
    ensures FailureRows(artifact).Ok? ==> r == Ok(Fill(Keyed(FailureRows(artifact).value)))
  {
    var got := Get(artifact, "failure_clusters", JArray([]));
    if got.Err? {
      return Err(got.error);
    }
    var listed := RowList(got.value);
    if listed.Err? {
      return Err(listed.error);
    }
    var rows := listed.value;
    var out: map<string, ArtifactRow> := map[];
    ghost var done: seq<ArtifactRow> := [];
    for i := 0 to |rows|
      invariant NormalizeAll(rows[..i]) == Ok(done)
      invariant out == Fill(Keyed(done))
    {
      NormalizeStep(rows, i);
      var row := NormalizeRow(rows[i]);
      if row.Err? {
        NormalizePrefixFails(rows, i + 1);
        return Err(row.error);
      }
      FillKeyedStep(done, row.value);
      done := done + [row.value];
      out := out[row.value.signature := row.value];
    }
    assert rows[..|rows|] == rows;
    r := Ok(out);
  }

  /** The signature-to-row map of an artifact whose rows normalise. */
  function ClusterMap(artifact: Json): map<string, ArtifactRow>
    requires FailureRows(artifact).Ok?
  {
    Fill(Keyed(FailureRows(artifact).value))
  }

  /** One line of the queue. */
  datatype QueueRow = QueueRow(
    signature: string,
    baselineCount: int, candidateCount: int, deltaCount: int,
    baselineQrWeight: int, candidateQrWeight: int, deltaQrWeight: int,
    subsystem: string, knobs: string, example: string)

  /** The row of a signature on one side, or the empty row when that side never missed under it. */
  function Side(m: map<string, ArtifactRow>, sig: string): ArtifactRow
  {
    if sig in m then m[sig] else ArtifactRow(sig, 0, 0, [])
  }

  /** The queue line of one signature. */
  function QueueRowFor(base: map<string, ArtifactRow>, cand: map<string, ArtifactRow>, sig: string): (r: QueueRow)
    ensures r.signature == sig
    ensures r.baselineCount == (if sig in base then base[sig].count else 0)
    ensures r.candidateCount == (if sig in cand then cand[sig].count else 0)
    ensures r.baselineQrWeight == (if sig in base then base[sig].qrWeight else 0)
    ensures r.candidateQrWeight == (if sig in cand then cand[sig].qrWeight else 0)
    ensures r.deltaCount == r.candidateCount - r.baselineCount
    ensures r.deltaQrWeight == r.candidateQrWeight - r.baselineQrWeight
    ensures (r.subsystem, r.knobs) == Hint(sig)
  {
    var b := Side(base, sig);
    var c := Side(cand, sig);
    var (subsystem, knobs) := Hint(sig);
    QueueRow(sig, b.count, c.count, c.count - b.count, b.qrWeight, c.qrWeight, c.qrWeight - b.qrWeight,
             subsystem, knobs, Example(c.examples, b.examples))
  }

  /** `(c["examples"] or b["examples"] or ["-"])[0]`. */
  function Example(candidate: seq<string>, baseline: seq<string>): (s: string)
    ensures |candidate| > 0 ==> s == candidate[0]
    ensures |candidate| == 0 && |baseline| > 0 ==> s == baseline[0]
    ensures |candidate| == 0 && |baseline| == 0 ==> s == "-"
  {
    if |candidate| > 0 then candidate[0] else FirstExample(baseline)
  }

  function Abs(x: int): nat
  {
    if x < 0 then -x else x
  }

  /** Larger weight movement first, then larger count movement, then the signature. */
  function QueueKey(r: QueueRow): RankKey
  {
    RankKey(Abs(r.deltaQrWeight), Abs(r.deltaCount), r.signature)
  }

  /** The queue lines of the given signatures, in their order. */
  function QueueRows(base: map<string, ArtifactRow>, cand: map<string, ArtifactRow>, sigs: seq<string>): (r: seq<QueueRow>)
    ensures |r| == |sigs| && forall i :: 0 <= i < |sigs| ==> r[i] == QueueRowFor(base, cand, sigs[i])
  {
    seq(|sigs|, i requires 0 <= i < |sigs| => QueueRowFor(base, cand, sigs[i]))
  }

  /**
   * `build_queue`: one line per signature of either side, sorted by the
   * queue order and cut to the first `topN`. The callers clamp `topN` to at
   * least 1.
   */
  method BuildQueue(baseline: Json, candidate: Json, topN: nat) returns (r: Result<seq<QueueRow>, Failure>)
    ensures FailureRows(baseline).Err? ==> r == Err(FailureRows(baseline).error)
    ensures FailureRows(baseline).Ok? && FailureRows(candidate).Err? ==> r == Err(FailureRows(candidate).error)
    ensures FailureRows(baseline).Ok? && FailureRows(candidate).Ok? ==>
      r.Ok? && QueueOf(ClusterMap(baseline), ClusterMap(candidate), topN, r.value)
  {
    var base := FailureMap(baseline);
    if base.Err? {
      return Err(base.error);
    }
    var cand := FailureMap(candidate);
    if cand.Err? {
      return Err(cand.error);
    }
    var signatures := SortedNames(base.value.Keys + cand.value.Keys);
    var rows: seq<QueueRow> := [];
    for i := 0 to |signatures|
      invariant rows == QueueRows(base.value, cand.value, signatures[..i])
    {
      rows := rows + [QueueRowFor(base.value, cand.value, signatures[i])];
    }
    assert signatures[..|signatures|] == signatures;
    var queue := Ranked(rows, QueueKey, topN);
    RankedQueue(base.value, cand.value, signatures, topN);
    r := Ok(queue);
  }

  /**
   * `queue` is the tuning queue of the two cluster maps: as many lines as
   * `topN` allows, each the line of a distinct signature of either side, in
   * queue order, and no signature left out ranks before one kept.
   */
  ghost predicate QueueOf(base: map<string, ArtifactRow>, cand: map<string, ArtifactRow>, topN: nat, queue: seq<QueueRow>)
  {
    && |queue| == Min(topN, |base.Keys + cand.Keys|)
    && (forall i :: 0 <= i < |queue| ==>
         queue[i].signature in base.Keys + cand.Keys && queue[i] == QueueRowFor(base, cand, queue[i].signature))
    && (forall i, j :: 0 <= i < j < |queue| ==> queue[i].signature != queue[j].signature)
    && SortedBy(queue, ByKey(QueueKey))
    && (forall sig, i :: sig in base.Keys + cand.Keys && 0 <= i < |queue| && QueueAbsent(queue, sig) ==>
         KeyLe(QueueKey(queue[i]), QueueKey(QueueRowFor(base, cand, sig))))
  }

  /** No line of the queue is for `sig`. */
  predicate QueueAbsent(queue: seq<QueueRow>, sig: string)
  {
    forall i :: 0 <= i < |queue| ==> queue[i].signature != sig
  }

  /** The ranked lines of the sorted signature union form the tuning queue. */
  lemma RankedQueue(base: map<string, ArtifactRow>, cand: map<string, ArtifactRow>, sigs: seq<string>, topN: nat)
    requires Distinct(sigs) && (forall x :: x in sigs <==> x in base.Keys + cand.Keys) && |sigs| == |base.Keys + cand.Keys|
    ensures QueueOf(base, cand, topN, Ranked(QueueRows(base, cand, sigs), QueueKey, topN))
  {
    var rows := QueueRows(base, cand, sigs);
    var queue := Ranked(rows, QueueKey, topN);
    QueueRowsDistinct(base, cand, sigs);
    QueueLines(base, cand, sigs, topN);
    forall i, j | 0 <= i < j < |queue|
      ensures queue[i].signature != queue[j].signature
    {
      if queue[i].signature == queue[j].signature {
        Twice(queue, i, j);
        DistinctOnce(rows, queue[i]);
      }
    }
    forall sig, i | sig in base.Keys + cand.Keys && 0 <= i < |queue| && QueueAbsent(queue, sig)
      ensures KeyLe(QueueKey(queue[i]), QueueKey(QueueRowFor(base, cand, sig)))
    {
      QueueLeftOut(base, cand, sigs, topN, sig, i);
    }
  }

  lemma QueueRowsDistinct(base: map<string, ArtifactRow>, cand: map<string, ArtifactRow>, sigs: seq<string>)
    requires Distinct(sigs)
    ensures Distinct(QueueRows(base, cand, sigs))
  {
    var rows := QueueRows(base, cand, sigs);
    forall i, j | 0 <= i < j < |rows|
      ensures rows[i] != rows[j]
    {
      assert rows[i].signature == sigs[i] && rows[j].signature == sigs[j];
    }
  }

  /** Every queued line is the line of a signature of either side. */
  lemma QueueLines(base: map<string, ArtifactRow>, cand: map<string, ArtifactRow>, sigs: seq<string>, topN: nat)
    requires forall x :: x in sigs ==> x in base.Keys + cand.Keys
    ensures forall i :: 0 <= i < |Ranked(QueueRows(base, cand, sigs), QueueKey, topN)| ==>
      var line := Ranked(QueueRows(base, cand, sigs), QueueKey, topN)[i];
      line.signature in base.Keys + cand.Keys && line == QueueRowFor(base, cand, line.signature)
  {
    var rows := QueueRows(base, cand, sigs);
    var queue := Ranked(rows, QueueKey, topN);
    forall i | 0 <= i < |queue|
      ensures queue[i].signature in base.Keys + cand.Keys && queue[i] == QueueRowFor(base, cand, queue[i].signature)
    {
      assert queue[i] in multiset(queue);
      assert queue[i] in multiset(rows);
      var j :| 0 <= j < |rows| && rows[j] == queue[i];
      assert sigs[j] in sigs;
    }
  }

  /** A signature without a queued line ranks after every queued line. */
  lemma QueueLeftOut(base: map<string, ArtifactRow>, cand: map<string, ArtifactRow>, sigs: seq<string>, topN: nat,
                     sig: string, i: nat)
    requires sig in sigs
    requires i < |Ranked(QueueRows(base, cand, sigs), QueueKey, topN)|
    requires QueueAbsent(Ranked(QueueRows(base, cand, sigs), QueueKey, topN), sig)
    ensures KeyLe(QueueKey(Ranked(QueueRows(base, cand, sigs), QueueKey, topN)[i]), QueueKey(QueueRowFor(base, cand, sig)))
  {
    var rows := QueueRows(base, cand, sigs);
    var queue := Ranked(rows, QueueKey, topN);
    var y := QueueRowFor(base, cand, sig);
    var j :| 0 <= j < |sigs| && sigs[j] == sig;
    assert rows[j] == y;
    assert y !in queue;
    RankedKeepsBest(rows, QueueKey, topN, queue[i], y);
  }

  /** `category_rate_map`'s input: the category rows, each of which then has `.get` called on it. */
  function CategoryRowList(artifact: Json): Result<seq<Json>, Failure>
  {
    match Get(artifact, "categories", JArray([]))
    case Err(e) => Err(e)
    case Ok(v) => RowList(v)
  }

  /** Every row is a dict. */
  predicate AllObjects(rows: seq<Json>)
  {
    forall i :: 0 <= i < |rows| ==> rows[i].JObject?
  }

  /**
   * `category_rate_map`: unlike the gate's reader, a row that is not a dict
   * raises instead of being skipped; a later row of a name replaces an
   * earlier one.
   */
  method CategoryRateMap(artifact: Json) returns (r: Result<map<string, real>, Failure>)
    ensures r == CategoryRates(artifact)
    ensures CategoryRowList(artifact).Err? ==> r == Err(Crash)
    ensures CategoryRowList(artifact).Ok? && !AllObjects(CategoryRowList(artifact).value) ==> r == Err(Crash)
    ensures CategoryRowList(artifact).Ok? && AllObjects(CategoryRowList(artifact).value) ==>
      r == Ok(Fill(Counted(CategoryRowList(artifact).value)))
  {
    var listed := CategoryRowList(artifact);
    if listed.Err? {
      return Err(Crash);
    }
    var rows := listed.value;
    ghost var counted := Counted(rows);
    var out: map<string, real> := map[];
    for i := 0 to |rows|
      invariant forall j :: 0 <= j < i ==> rows[j].JObject?
      invariant out == Fill(counted[..i])
    {
      FillStep(counted, i);
      var row := rows[i];
      if !row.JObject? {
        return Err(Crash);
      }
      var name := Member(row, "name", JNull);
      var rate := Member(row, "rate_percent", JNull);
      if name.JStr? && IsNumber(rate) {
        out := out[name.s := ToFloat(rate)];
      }
    }
    assert counted[..|rows|] == counted;
    r := Ok(out);
  }

  /**
   * What `category_rate_map` gives: a crash when the category rows cannot be
   * iterated or one is not a dict, otherwise the counted rows filled in order.
   */
  function CategoryRates(artifact: Json): Result<map<string, real>, Failure>
  {
    match CategoryRowList(artifact)
    case Err(_) => Err(Crash)
    case Ok(rows) => if AllObjects(rows) then Ok(Fill(Counted(rows))) else Err(Crash)
  }

  /** `rates.get(name, 0.0)`. */
  function RateOr0(rates: map<string, real>, name: string): real
  {
    if name in rates then rates[name] else 0.0
  }

  /** What the comprehension computes for one name. */
  function Delta(baseline: map<string, real>, candidate: map<string, real>, name: string): real
  {
    RateOr0(candidate, name) - RateOr0(baseline, name)
  }

  /**
   * The category-delta comprehension: every name either side rates, in
   * ascending order, with the candidate's rate minus the baseline's, a
   * missing rate read as 0.
   */
  method CategoryDeltas(baseline: map<string, real>, candidate: map<string, real>)
    returns (deltas: seq<(string, real)>)
    ensures forall i :: 0 <= i < |deltas| ==>
      deltas[i].0 in baseline.Keys + candidate.Keys && deltas[i].1 == Delta(baseline, candidate, deltas[i].0)
    ensures forall k :: k in baseline.Keys + candidate.Keys <==> exists i :: 0 <= i < |deltas| && deltas[i].0 == k
    ensures forall i, j :: 0 <= i < j < |deltas| ==> StrLe(deltas[i].0, deltas[j].0) && deltas[i].0 != deltas[j].0
    ensures DeltasOf(baseline, candidate, deltas)
  {
    var names := SortedNames(baseline.Keys + candidate.Keys);
    deltas := seq(|names|, i requires 0 <= i < |names| => (names[i], Delta(baseline, candidate, names[i])));
    DeltaRows(baseline, candidate, names, deltas);
  }

  /** Lines built from the sorted names of either side carry every such name once, in order. */
  lemma DeltaRows(baseline: map<string, real>, candidate: map<string, real>, names: seq<string>,
                  deltas: seq<(string, real)>)
    requires SortedBy(names, StrLe) && Distinct(names)
    requires forall x :: x in names <==> x in baseline.Keys + candidate.Keys
    requires |deltas| == |names|
    requires forall i :: 0 <= i < |names| ==> deltas[i] == (names[i], Delta(baseline, candidate, names[i]))
    ensures forall i :: 0 <= i < |deltas| ==>
      deltas[i].0 in baseline.Keys + candidate.Keys && deltas[i].1 == Delta(baseline, candidate, deltas[i].0)
    ensures forall k :: k in baseline.Keys + candidate.Keys <==> exists i :: 0 <= i < |deltas| && deltas[i].0 == k
    ensures forall i, j :: 0 <= i < j < |deltas| ==> StrLe(deltas[i].0, deltas[j].0) && deltas[i].0 != deltas[j].0
  {
    forall k | k in baseline.Keys + candidate.Keys
      ensures exists i :: 0 <= i < |deltas| && deltas[i].0 == k
    {
      var i :| 0 <= i < |names| && names[i] == k;
      assert deltas[i].0 == k;
    }
  }

  /**
   * `deltas` are the category deltas of the two rate maps: one line per name
   * either side rates, in strictly ascending name order, each carrying the
   * candidate's rate minus the baseline's.
   */
  ghost predicate DeltasOf(baseline: map<string, real>, candidate: map<string, real>, deltas: seq<(string, real)>)
  {
    && (forall i :: 0 <= i < |deltas| ==>
         deltas[i].0 in baseline.Keys + candidate.Keys && deltas[i].1 == Delta(baseline, candidate, deltas[i].0))
    && (forall k :: k in baseline.Keys + candidate.Keys <==> exists i :: 0 <= i < |deltas| && deltas[i].0 == k)
    && (forall i, j :: 0 <= i < j < |deltas| ==> StrLe(deltas[i].0, deltas[j].0) && deltas[i].0 != deltas[j].0)
  }

  /** The JSON report: the queue and the category deltas. */
  datatype Report = Report(queue: seq<QueueRow>, categoryDeltas: seq<(string, real)>)

  /**
   * `main` up to writing the report: load both artifacts, build the queue
   * with `top_n` clamped to at least 1, then the category deltas. Nothing
   * is caught, so the first failure ends the script.
   */
  method TuningReport(baseline: Option<Json>, candidate: Option<Json>, topN: int) returns (r: Result<Report, Failure>)
    ensures baseline.None? || candidate.None? ==> r == Err(ValueError)
    ensures baseline.Some? && candidate.Some? && FailureRows(baseline.value).Err? ==>
      r == Err(FailureRows(baseline.value).error)
    ensures baseline.Some? && candidate.Some? && FailureRows(baseline.value).Ok? && FailureRows(candidate.value).Err? ==>
      r == Err(FailureRows(candidate.value).error)
    ensures (&& baseline.Some? && candidate.Some?
             && FailureRows(baseline.value).Ok? && FailureRows(candidate.value).Ok?
             && (CategoryRates(baseline.value).Err? || CategoryRates(candidate.value).Err?)) ==> r == Err(Crash)
    ensures r.Ok? <==>
      && baseline.Some? && candidate.Some?
      && FailureRows(baseline.value).Ok? && FailureRows(candidate.value).Ok?
      && CategoryRates(baseline.value).Ok? && CategoryRates(candidate.value).Ok?
    ensures r.Ok? ==>
      && QueueOf(ClusterMap(baseline.value), ClusterMap(candidate.value), ClampTopN(topN), r.value.queue)
      && DeltasOf(CategoryRates(baseline.value).value, CategoryRates(candidate.value).value, r.value.categoryDeltas)
  {
    var b := LoadJson(baseline);
    if b.Err? {
      return Err(b.error);
    }
    var c := LoadJson(candidate);
    if c.Err? {
      return Err(c.error);
    }
    var queue := BuildQueue(b.value, c.value, ClampTopN(topN));
    if queue.Err? {
      return Err(queue.error);
    }
    var baselineRates := CategoryRateMap(b.value);
    if baselineRates.Err? {
      return Err(baselineRates.error);
    }
    var candidateRates := CategoryRateMap(c.value);
    if candidateRates.Err? {
      return Err(candidateRates.error);
    }
    var deltas := CategoryDeltas(baselineRates.value, candidateRates.value);
    r := Ok(Report(queue.value, deltas));
  }
}
