/**
 * The A/B gate over two reading-rate artifacts
 * (scripts/compare_reading_rate_artifacts.py): both documents are
 * validated, their dataset fingerprints compared, and the candidate fails
 * when its weighted-global reading rate drops, or its median per-image
 * runtime grows, by more than the configured thresholds. The process exit
 * status is 2 for an invalid artifact, 1 for a failed gate and 0 for a
 * pass.
 */
module ArtifactGate {
  import opened Wrappers
  import opened Json
  import opened Sorting
  import opened Ranking
  import opened Dicts

  /** `d.get(key, default)` on a document already known to be a dict. */
  function Member(d: Json, key: string, default: Json): (v: Json)
    requires d.JObject?
    ensures key in d.fields ==> v == d.fields[key]
    ensures key !in d.fields ==> v == default
  {
    if key in d.fields then d.fields[key] else default
  }

  /** `sub` occurs in `s` as a contiguous run: Python's `sub in s` on strings. */
  predicate Substring(sub: string, s: string)
  {
    exists i :: 0 <= i <= |s| - |sub| && sub <= s[i..]
  }

  /**
   * Python's `key in data` on whatever the document parsed to: a key test on
   * a dict, an element test on a list, a substring test on a string; any
   * other value is not iterable and raises `TypeError`.
   */
  function Contains(data: Json, key: string): (r: Result<bool, Failure>)
    ensures r.Err? <==> !(data.JObject? || data.JArray? || data.JStr?)
    ensures r.Err? ==> r.error == Crash
    ensures data.JObject? ==> r == Ok(key in data.fields)
  {
    match data
    case JObject(fields) => Ok(key in fields)
    case JArray(items) => Ok(JStr(key) in items)
    case JStr(s) => Ok(Substring(key, s))
    case _ => Err(Crash)
  }

  /**
   * `load_artifact`: `None` stands for a file that is missing or is not
   * JSON, both reported as `ValueError`; a document without `"summary"` is
   * a `ValueError` too.
   */
  function LoadArtifact(doc: Option<Json>): (r: Result<Json, Failure>)
    ensures doc.None? ==> r == Err(ValueError)
    ensures r.Ok? ==> doc == Some(r.value)
    ensures doc.Some? && doc.value.JObject? ==>
      (r.Ok? <==> "summary" in doc.value.fields) && (r.Err? ==> r.error == ValueError)
  {
    match doc
    case None => Err(ValueError)
    case Some(data) =>
      match Contains(data, "summary")
      case Err(e) => Err(e)
      case Ok(present) => if present then Ok(data) else Err(ValueError)
  }

  /** The two numbers the gate compares. */
  datatype Metrics = Metrics(rate: real, medianMs: real)

  /** `data.get(key, {})`, the dict a lookup falls back to. */
  function SubObject(d: Json, key: string): Json
  {
    if d.JObject? && key in d.fields then d.fields[key] else JObject(map[])
  }

  /** `data.get(key)`, `None` when absent. */
  function Field(d: Json, key: string): Json
  {
    if d.JObject? && key in d.fields then d.fields[key] else JNull
  }

  /** The summary of an artifact, `{}` when it has none. */
  function Summary(data: Json): Json
  {
    SubObject(data, "summary")
  }

  /** The weighted-global rate an artifact reports, `None` when it has none. */
  function WeightedRate(data: Json): Json
  {
    Field(Summary(data), "weighted_global_rate_percent")
  }

  /** The median per-image runtime an artifact reports, `None` when it has none. */
  function MedianMs(data: Json): Json
  {
    Field(SubObject(Summary(data), "runtime"), "median_per_image_ms")
  }

  /** The document, its summary and its runtime section all have a `get` method. */
  predicate MetricsReachable(data: Json)
  {
    data.JObject? && Summary(data).JObject? && SubObject(Summary(data), "runtime").JObject?
  }

  /**
   * `read_metrics`: both values must be numbers (booleans included), else
   * `ValueError`; a summary or runtime section that is not a dict has no
   * `get` and raises before that.
   */
  function ReadMetrics(data: Json): (r: Result<Metrics, Failure>)
    ensures r.Ok? <==> MetricsReachable(data) && IsNumber(WeightedRate(data)) && IsNumber(MedianMs(data))
    ensures r.Ok? ==> r.value == Metrics(ToFloat(WeightedRate(data)), ToFloat(MedianMs(data)))
    ensures r.Err? ==> (r.error == Crash <==> !MetricsReachable(data))
    ensures r.Err? ==> r.error == Crash || r.error == ValueError
  {
    match Get(data, "summary", JObject(map[]))
    case Err(e) => Err(e)
    case Ok(summary) =>
      match Get(summary, "runtime", JObject(map[]))
      case Err(e) => Err(e)
      case Ok(runtime) =>
        match Get(summary, "weighted_global_rate_percent", JNull)
        case Err(e) => Err(e)
        case Ok(weighted) =>
          match Get(runtime, "median_per_image_ms", JNull)
          case Err(e) => Err(e)
          case Ok(median) =>
            if !IsNumber(weighted) then Err(ValueError)
            else if !IsNumber(median) then Err(ValueError)
            else Ok(Metrics(ToFloat(weighted), ToFloat(median)))
  }

  /** The fingerprint an artifact's metadata reports, `None` when it has none. */
  function FingerprintField(data: Json): Json
  {
    Field(SubObject(data, "metadata"), "dataset_fingerprint")
  }

  /** `read_fingerprint`: a non-empty string, else `ValueError`; metadata that is not a dict raises. */
  function ReadFingerprint(data: Json): (r: Result<string, Failure>)
    ensures r.Ok? <==> data.JObject? && SubObject(data, "metadata").JObject?
                       && FingerprintField(data).JStr? && |FingerprintField(data).s| > 0
    ensures r.Ok? ==> r.value == FingerprintField(data).s
    ensures r.Err? ==> (r.error == Crash <==> !(data.JObject? && SubObject(data, "metadata").JObject?))
    ensures r.Err? ==> r.error == Crash || r.error == ValueError
  {
    match Get(data, "metadata", JObject(map[]))
    case Err(e) => Err(e)
    case Ok(metadata) =>
      match Get(metadata, "dataset_fingerprint", JNull)
      case Err(e) => Err(e)
      case Ok(fp) =>
        if !fp.JStr? || |fp.s| == 0 then Err(ValueError) else Ok(fp.s)
  }

  /** What the validation block hands on when both artifacts are valid. */
  datatype Validated = Validated(
    baselineDoc: Json, candidateDoc: Json,
    baseline: Metrics, candidate: Metrics,
    baselineFp: string, candidateFp: string)

  /**
   * The six validations of `main`'s `try` block in their order: load the
   * baseline, load the candidate, read both metrics, read both
   * fingerprints. The first failure is the one reported.
   */
  function Validate(baseline: Option<Json>, candidate: Option<Json>): (r: Result<Validated, Failure>)
    ensures r.Ok? ==>
      && LoadArtifact(baseline) == Ok(r.value.baselineDoc)
      && LoadArtifact(candidate) == Ok(r.value.candidateDoc)
      && ReadMetrics(r.value.baselineDoc) == Ok(r.value.baseline)
      && ReadMetrics(r.value.candidateDoc) == Ok(r.value.candidate)
      && ReadFingerprint(r.value.baselineDoc) == Ok(r.value.baselineFp)
      && ReadFingerprint(r.value.candidateDoc) == Ok(r.value.candidateFp)
    ensures r.Err? ==> r.error == Crash || r.error == ValueError
  {
    match LoadArtifact(baseline)
    case Err(e) => Err(e)
    case Ok(b) =>
      match LoadArtifact(candidate)
      case Err(e) => Err(e)
      case Ok(c) =>
        match ReadMetrics(b)
        case Err(e) => Err(e)
        case Ok(bm) =>
          match ReadMetrics(c)
          case Err(e) => Err(e)
          case Ok(cm) =>
            match ReadFingerprint(b)
            case Err(e) => Err(e)
            case Ok(bf) =>
              match ReadFingerprint(c)
              case Err(e) => Err(e)
              case Ok(cf) => Ok(Validated(b, c, bm, cm, bf, cf))
  }

  /** A percentage, or `math.inf`. */
  datatype Regression = Finite(pct: real) | Infinite

  /**
   * The median runtime regression in percent: relative to the baseline when
   * the baseline median is positive; otherwise 0 when the candidate's is
   * not positive either, and infinite when it is.
   */
  function RuntimeRegression(baselineMs: real, candidateMs: real): Regression
  {
    if baselineMs <= 0.0 then
      (if candidateMs <= 0.0 then Finite(0.0) else Infinite)
    else
      Finite((candidateMs - baselineMs) / baselineMs * 100.0)
  }

  /** The three cases of the regression, and the sign of a relative one. */
  lemma RegressionCases(b: real, c: real)
    ensures b <= 0.0 && c <= 0.0 ==> RuntimeRegression(b, c) == Finite(0.0)
    ensures RuntimeRegression(b, c) == Infinite <==> b <= 0.0 && c > 0.0
    ensures b > 0.0 ==>
      && RuntimeRegression(b, c).Finite?
      && RuntimeRegression(b, c).pct * b == (c - b) * 100.0
      && (RuntimeRegression(b, c).pct > 0.0 <==> c > b)
  {
    if b > 0.0 {
      var p := RuntimeRegression(b, c).pct;
      var q := (c - b) / b;
      assert q * b == c - b;
      assert p == q * 100.0;
      assert p * b == (c - b) * 100.0;
      if c > b {
        assert p * b > 0.0;
      } else {
        assert p * b <= 0.0;
      }
    }
  }

  /** `regression > limit`: infinity exceeds every finite limit. */
  predicate Exceeds(r: Regression, limit: real)
  {
    match r
    case Finite(p) => p > limit
    case Infinite => true
  }

  /** The command-line options of the gate; both limits are finite. */
  datatype Options = Options(maxRateDropPp: real, maxRuntimeRegressionPct: real, allowDatasetMismatch: bool)

  /** The rate drop in percentage points. */
  function RateDrop(v: Validated): real
  {
    v.baseline.rate - v.candidate.rate
  }

  /** Either check of the gate fails. */
  predicate Fails(v: Validated, opts: Options)
  {
    RateDrop(v) > opts.maxRateDropPp
    || Exceeds(RuntimeRegression(v.baseline.medianMs, v.candidate.medianMs), opts.maxRuntimeRegressionPct)
  }

  /** An artifact compared against itself drops by nothing and regresses by nothing, so it passes non-negative limits. */
  lemma IdenticalArtifactsPass(doc: Json, opts: Options)
    requires Validate(Some(doc), Some(doc)).Ok?
    requires opts.maxRateDropPp >= 0.0 && opts.maxRuntimeRegressionPct >= 0.0
    ensures Validate(Some(doc), Some(doc)).value.baselineFp == Validate(Some(doc), Some(doc)).value.candidateFp
    ensures RateDrop(Validate(Some(doc), Some(doc)).value) == 0.0
    ensures RuntimeRegression(Validate(Some(doc), Some(doc)).value.baseline.medianMs,
                              Validate(Some(doc), Some(doc)).value.candidate.medianMs) == Finite(0.0)
    ensures !Fails(Validate(Some(doc), Some(doc)).value, opts)
  {
    var v := Validate(Some(doc), Some(doc)).value;
    assert v.baselineDoc == v.candidateDoc == doc;
    var m := v.baseline.medianMs;
    if m > 0.0 {
      assert (m - m) / m == 0.0;
    }
  }

  /** A category entry the gate counts: a dict with a string name and a numeric rate. */
  function CategoryEntry(e: Json): (r: Option<(string, real)>)
    ensures r.Some? <==> e.JObject? && Field(e, "name").JStr? && IsNumber(Field(e, "rate_percent"))
    ensures r.Some? ==> r.value == (Field(e, "name").s, ToFloat(Field(e, "rate_percent")))
  {
    if !e.JObject? then None
    else
      var name := Member(e, "name", JNull);
      var rate := Member(e, "rate_percent", JNull);
      if name.JStr? && IsNumber(rate) then Some((name.s, ToFloat(rate))) else None
  }

  /** What the loop does with each entry: store its rate under its name, or skip it. */
  function Counted(entries: seq<Json>): (r: seq<Option<(string, real)>>)
    ensures |r| == |entries| && forall i :: 0 <= i < |entries| ==> r[i] == CategoryEntry(entries[i])
  {
    seq(|entries|, i requires 0 <= i < |entries| => CategoryEntry(entries[i]))
  }

  /**
   * The rates `per_category_rates` collects: a name has a rate exactly when
   * some counted entry carries it, and its rate is that of the last such
   * entry.
   */
  lemma RatesOfLastWins(entries: seq<Json>)
    ensures forall k :: k in Fill(Counted(entries)) <==>
      exists i :: 0 <= i < |entries| && Stores(CategoryEntry(entries[i]), k)
    ensures forall k :: k in Fill(Counted(entries)) ==>
      exists i :: 0 <= i < |entries| && CategoryEntry(entries[i]) == Some((k, Fill(Counted(entries))[k]))
        && forall j :: i < j < |entries| ==> !Stores(CategoryEntry(entries[j]), k)
  {
    FillLastWins(Counted(entries));
  }

  /**
   * What `for entry in data.get("categories", [])` walks over. A dict
   * yields its keys and a string its characters, none of which is a dict,
   * so both contribute nothing; `None`, a boolean or a number is not
   * iterable and raises.
   */
  function CategoryEntries(data: Json): (r: Result<seq<Json>, Failure>)
    requires data.JObject?
    ensures r.Err? ==> r.error == Crash
    ensures "categories" !in data.fields ==> r == Ok([])
  {
    match Member(data, "categories", JArray([]))
    case JArray(items) => Ok(items)
    case JObject(_) => Ok([])
    case JStr(_) => Ok([])
    case _ => Err(Crash)
  }

  /** `per_category_rates`: the loop that fills the name-to-rate dict. */
  method PerCategoryRates(data: Json) returns (r: Result<map<string, real>, Failure>)
    requires data.JObject?
    ensures CategoryEntries(data).Err? ==> r == Err(Crash)
    ensures CategoryEntries(data).Ok? ==> r == Ok(Fill(Counted(CategoryEntries(data).value)))
  {
    var entries := CategoryEntries(data);
    if entries.Err? {
      return Err(Crash);
    }
    var items := entries.value;
    ghost var counted := Counted(items);
    var out: map<string, real> := map[];
    for i := 0 to |items|
      invariant out == Fill(counted[..i])
    {
      FillStep(counted, i);
      var entry := items[i];
      if entry.JObject? {
        var name := Member(entry, "name", JNull);
        var rate := Member(entry, "rate_percent", JNull);
        if name.JStr? && IsNumber(rate) {
          out := out[name.s := ToFloat(rate)];
        }
      }
    }
    assert counted[..|items|] == counted;
    r := Ok(out);
  }

  /** The candidate's rate of a shared name minus the baseline's. */
  function SharedDelta(baseline: map<string, real>, candidate: map<string, real>, name: string): real
    requires name in baseline && name in candidate
  {
    candidate[name] - baseline[name]
  }

  /**
   * The per-category lines: the names both artifacts rate, in ascending
   * order, each with the candidate's rate minus the baseline's.
   */
  method SharedDeltas(baseline: map<string, real>, candidate: map<string, real>)
    returns (rows: seq<(string, real)>)
    ensures forall i :: 0 <= i < |rows| ==>
      rows[i].0 in baseline && rows[i].0 in candidate
      && rows[i].1 == SharedDelta(baseline, candidate, rows[i].0)
    ensures forall k :: k in baseline && k in candidate <==> exists i :: 0 <= i < |rows| && rows[i].0 == k
    ensures forall i, j :: 0 <= i < j < |rows| ==> StrLe(rows[i].0, rows[j].0) && rows[i].0 != rows[j].0
  {
    var shared := SortedNames(baseline.Keys * candidate.Keys);
    assert forall j :: 0 <= j < |shared| ==> shared[j] in baseline.Keys * candidate.Keys;
    rows := [];
    for i := 0 to |shared|
      invariant |rows| == i
      invariant forall j :: 0 <= j < i ==>
        rows[j] == (shared[j], SharedDelta(baseline, candidate, shared[j]))
    {
      var name := shared[i];
      rows := rows + [(name, SharedDelta(baseline, candidate, name))];
    }
    forall k | k in baseline && k in candidate
      ensures exists i :: 0 <= i < |rows| && rows[i].0 == k
    {
      assert k in baseline.Keys * candidate.Keys;
      var i :| 0 <= i < |shared| && shared[i] == k;
      assert rows[i].0 == k;
    }
  }

  /** How the script ends: an exit status, or an exception other than `ValueError` that escapes `main`. */
  datatype Outcome = Exit(code: int) | Uncaught

  /** The fingerprints agree, or a mismatch is allowed. */
  predicate Proceeds(v: Validated, opts: Options)
  {
    v.baselineFp == v.candidateFp || opts.allowDatasetMismatch
  }

  /** The end of a comparison that gets past the fingerprints: a category list that cannot be iterated raises. */
  function Verdict(v: Validated, opts: Options): Outcome
    requires v.baselineDoc.JObject? && v.candidateDoc.JObject?
  {
    if CategoryEntries(v.baselineDoc).Err? || CategoryEntries(v.candidateDoc).Err? then Uncaught
    else Exit(if Fails(v, opts) then 1 else 0)
  }

  /**
   * `main` from the validation block on: exit 2 on any `ValueError`, exit
   * 1 on a fingerprint mismatch unless it is allowed, then both checks
   * accumulate into `failed` and decide between 1 and 0.
   */
  method Compare(baseline: Option<Json>, candidate: Option<Json>, opts: Options) returns (outcome: Outcome)
    ensures outcome == Exit(2) <==> Validate(baseline, candidate) == Err(ValueError)
    ensures Validate(baseline, candidate) == Err(Crash) ==> outcome == Uncaught
    ensures Validate(baseline, candidate).Ok? && !Proceeds(Validate(baseline, candidate).value, opts) ==>
      outcome == Exit(1)
    ensures Validate(baseline, candidate).Ok? && Proceeds(Validate(baseline, candidate).value, opts) ==>
      outcome == Verdict(Validate(baseline, candidate).value, opts)
  {
    var validated := Validate(baseline, candidate);
    if validated.Err? {
      if validated.error == ValueError {
        return Exit(2);
      }
      return Uncaught;
    }
    var v := validated.value;
    assert v.baselineDoc.JObject? && v.candidateDoc.JObject?;
    if v.baselineFp != v.candidateFp && !opts.allowDatasetMismatch {
      return Exit(1);
    }
    var rateDrop := v.baseline.rate - v.candidate.rate;
    var regression := RuntimeRegression(v.baseline.medianMs, v.candidate.medianMs);
    var baselineCategories := PerCategoryRates(v.baselineDoc);
    if baselineCategories.Err? {
      return Uncaught;
    }
    var candidateCategories := PerCategoryRates(v.candidateDoc);
    if candidateCategories.Err? {
      return Uncaught;
    }
    var deltas := SharedDeltas(baselineCategories.value, candidateCategories.value);
    var failed := false;
    if rateDrop > opts.maxRateDropPp {
      failed := true;
    }
    if Exceeds(regression, opts.maxRuntimeRegressionPct) {
      failed := true;
    }
    outcome := if failed then Exit(1) else Exit(0);
  }

  /** Booleans count as numbers: `true` and `false` read as a rate of 1 and a median of 0. */
  lemma BooleansAreNumbers(summary: map<string, Json>, runtime: map<string, Json>)
    requires "weighted_global_rate_percent" in summary && summary["weighted_global_rate_percent"] == JBool(true)
    requires "runtime" in summary && summary["runtime"] == JObject(runtime)
    requires "median_per_image_ms" in runtime && runtime["median_per_image_ms"] == JBool(false)
    ensures ReadMetrics(JObject(map["summary" := JObject(summary)])) == Ok(Metrics(1.0, 0.0))
  {
  }
}
