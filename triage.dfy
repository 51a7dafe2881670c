/**
 * The single-artifact triage report (scripts/triage_failure_clusters.py):
 * each `failure_clusters` row is normalised, given the pipeline stage most
 * likely at fault, and the rows are ranked heaviest QR weight first, then
 * by count, then by signature, of which the first `top_n` are reported.
 */
module Triage {
  import opened Wrappers
  import opened Json
  import opened Sorting
  import opened Ranking
  import opened ReportRows
  import FailureClusters

  /** The stage named for a signature `STAGE_HINTS` does not list. */
  const FallbackStage: string := "investigate mixed pipeline signals"

  /** `STAGE_HINTS`: the stage to look at for each signature the benchmark emits. */
  function ListedStage(sig: string): Option<string>
  {
    if sig == "no-finders" then Some("binarization/finder detection")
    else if sig == "no-groups" then Some("finder grouping / geometry consistency")
    else if sig == "transform-fail" then Some("transform construction/refinement")
    else if sig == "format-fail" then Some("sampling quality / format BCH extraction")
    else if sig == "rs-fail" then Some("Reed-Solomon correction / bitstream quality")
    else if sig == "payload-fail" then Some("mode parsing / payload integrity")
    else if sig == "over-budget-skip" then Some("decode budget manager thresholds")
    else if sig == "unknown-fail" then Some("mixed signals; inspect per-image telemetry")
    else None
  }

  /** `STAGE_HINTS.get(sig, "investigate mixed pipeline signals")`. */
  function StageHint(sig: string): (h: string)
    ensures ListedStage(sig).Some? ==> h == ListedStage(sig).value
    ensures ListedStage(sig).None? ==> h == FallbackStage
  {
    match ListedStage(sig)
    case Some(h) => h
    case None => FallbackStage
  }

  /** No listed stage reads like the fallback, so the fallback shows exactly for unlisted signatures. */
  lemma StageHintFallback(sig: string)
    ensures StageHint(sig) == FallbackStage <==> ListedStage(sig).None?
  {
  }

  /** Every signature the benchmark can file a miss under has a stage of its own. */
  lemma EverySignatureStaged(s: FailureClusters.Signature)
    ensures ListedStage(FailureClusters.Name(s)).Some?
    ensures StageHint(FailureClusters.Name(s)) != FallbackStage
  {
    StageHintFallback(FailureClusters.Name(s));
  }

  /** A row of the report: the normalised row and its stage. */
  datatype TriageRow = TriageRow(signature: string, count: int, qrWeight: int, examples: seq<string>, stageHint: string)

  /** The report row of a normalised row. */
  function Hinted(row: ArtifactRow): (r: TriageRow)
    ensures r.signature == row.signature && r.count == row.count && r.qrWeight == row.qrWeight
    ensures r.examples == row.examples && r.stageHint == StageHint(row.signature)
  {
    TriageRow(row.signature, row.count, row.qrWeight, row.examples, StageHint(row.signature))
  }

  /** The report rows of all normalised rows, in order. */
  function HintedAll(rows: seq<ArtifactRow>): (r: seq<TriageRow>)
    ensures |r| == |rows| && forall i :: 0 <= i < |rows| ==> r[i] == Hinted(rows[i])
  {
    seq(|rows|, i requires 0 <= i < |rows| => Hinted(rows[i]))
  }

  /** The sort key `(-qr_weight, -count, signature)`. */
  function TriageKey(r: TriageRow): RankKey
  {
    RankKey(r.qrWeight, r.count, r.signature)
  }

  /** A row without any of the four fields is an unknown failure with no misses and the unknown-failure stage. */
  lemma DefaultRow(row: Json)
    requires row.JObject?
    requires "signature" !in row.fields && "count" !in row.fields
    requires "qr_weight" !in row.fields && "examples" !in row.fields
    ensures NormalizeRow(row).Ok?
    ensures Hinted(NormalizeRow(row).value)
      == TriageRow("unknown-fail", 0, 0, [], "mixed signals; inspect per-image telemetry")
  {
    NormalizeDefaults(row);
  }

  /**
   * `build_rows`: the loop normalising each row and adding its stage, then
   * the in-place sort and the cut to `top_n`. A row that does not
   * normalise ends the script with its failure.
   */
  method BuildRows(artifact: Json, topN: nat) returns (r: Result<seq<TriageRow>, Failure>)
    ensures FailureRows(artifact).Err? ==> r == Err(FailureRows(artifact).error)
    ensures FailureRows(artifact).Ok? ==> r == Ok(Ranked(HintedAll(FailureRows(artifact).value), TriageKey, topN))
  {
    var got := Get(artifact, "failure_clusters", JArray([]));
    if got.Err? {
      return Err(got.error);
    }
    var listed := RowList(got.value);
    if listed.Err? {
      return Err(listed.error);
    }
    var rows := listed.value;
    var normalized: seq<TriageRow> := [];
    ghost var done: seq<ArtifactRow> := [];
    for i := 0 to |rows|
      invariant NormalizeAll(rows[..i]) == Ok(done)
      invariant normalized == HintedAll(done)
    {
      NormalizeStep(rows, i);
      var row := NormalizeRow(rows[i]);
      if row.Err? {
        NormalizePrefixFails(rows, i + 1);
        return Err(row.error);
      }
      done := done + [row.value];
      normalized := normalized + [Hinted(row.value)];
    }
    assert rows[..|rows|] == rows;
    r := Ok(Ranked(normalized, TriageKey, topN));
  }

  /**
   * What the ranked rows are: the first `top_n` of the normalised rows (all
   * of them when there are fewer), in key order, each a normalised row with
   * its own stage, and no row left out ranking before one kept.
   */
  lemma RankedRows(rows: seq<ArtifactRow>, topN: nat)
    ensures var r := Ranked(HintedAll(rows), TriageKey, topN);
      && |r| == Min(topN, |rows|)
      && (forall i, j :: 0 <= i < j < |r| ==> KeyLe(TriageKey(r[i]), TriageKey(r[j])))
      && (forall i :: 0 <= i < |r| ==> exists k :: 0 <= k < |rows| && r[i] == Hinted(rows[k]))
      && (forall i :: 0 <= i < |r| ==> r[i].stageHint == StageHint(r[i].signature))
  {
    var all := HintedAll(rows);
    var r := Ranked(all, TriageKey, topN);
    assert SortedBy(r, ByKey(TriageKey));
    forall i | 0 <= i < |r|
      ensures exists k :: 0 <= k < |rows| && r[i] == Hinted(rows[k])
    {
      assert r[i] in multiset(all);
      var k :| 0 <= k < |all| && all[k] == r[i];
    }
  }

  /** A normalised row left out of the report ranks after every row kept. */
  lemma LeftOutRanksLower(rows: seq<ArtifactRow>, topN: nat, x: TriageRow, k: nat)
    requires x in Ranked(HintedAll(rows), TriageKey, topN)
    requires k < |rows| && multiset(Ranked(HintedAll(rows), TriageKey, topN))[Hinted(rows[k])] < multiset(HintedAll(rows))[Hinted(rows[k])]
    ensures KeyLe(TriageKey(x), TriageKey(Hinted(rows[k])))
  {
    RankedKeepsBest(HintedAll(rows), TriageKey, topN, x, Hinted(rows[k]));
  }

  /** The JSON report: the clamped `top_n` and the ranked rows. */
  datatype TriageReport = TriageReport(topN: nat, clusters: seq<TriageRow>)

  /**
   * `main` without its file and argument plumbing: the artifact, or None
   * when it is missing or not JSON, and the `--top-n` value, clamped to at
   * least one for both the ranking and the report.
   */
  method Triage(doc: Option<Json>, topN: int) returns (r: Result<TriageReport, Failure>)
    ensures doc.None? ==> r == Err(ValueError)
    ensures doc.Some? && FailureRows(doc.value).Err? ==> r == Err(FailureRows(doc.value).error)
    ensures doc.Some? && FailureRows(doc.value).Ok? ==>
      r == Ok(TriageReport(ClampTopN(topN), Ranked(HintedAll(FailureRows(doc.value).value), TriageKey, ClampTopN(topN))))
  {
    var artifact := LoadJson(doc);
    if artifact.Err? {
      return Err(artifact.error);
    }
    var n := ClampTopN(topN);
    var rows := BuildRows(artifact.value, n);
    if rows.Err? {
      return Err(rows.error);
    }
    r := Ok(TriageReport(n, rows.value));
  }

  /** A report of a non-empty artifact always lists at least one row. */
  lemma ReportNotEmpty(rows: seq<ArtifactRow>, topN: int)
    requires |rows| > 0
    ensures |Ranked(HintedAll(rows), TriageKey, ClampTopN(topN))| >= 1
  {
  }

  /** A table line of the Markdown report: the rank from 1 and the first example, or a dash. */
  datatype TableLine = TableLine(rank: nat, signature: string, count: int, qrWeight: int, stage: string, example: string)

  /** The lines of the Markdown table, one per reported row. */
  function TableLines(rows: seq<TriageRow>): (t: seq<TableLine>)
    ensures |t| == |rows|
    ensures forall i :: 0 <= i < |rows| ==>
      && t[i].rank == i + 1 && t[i].signature == rows[i].signature
      && t[i].count == rows[i].count && t[i].qrWeight == rows[i].qrWeight && t[i].stage == rows[i].stageHint
    ensures forall i :: 0 <= i < |rows| ==>
      && (|rows[i].examples| == 0 ==> t[i].example == "-")
      && (|rows[i].examples| > 0 ==> t[i].example == rows[i].examples[0])
  {
    seq(|rows|, i requires 0 <= i < |rows| =>
      var row := rows[i];
      TableLine(i + 1, row.signature, row.count, row.qrWeight, row.stageHint, FirstExample(row.examples)))
  }
}
