/**
 * What the tuning and triage scripts share: reading an artifact without
 * checking its shape, and normalising each `failure_clusters` row with
 * `str()` and `int()` and the same defaults
 * (scripts/failure_signature_tuning_report.py `failure_map`,
 * scripts/triage_failure_clusters.py `build_rows`). Neither script catches
 * an exception, so any `Failure` ends it.
 */
module ReportRows {
  import opened Wrappers
  import opened Json

  /** `load_json` / `load_artifact`: `None` is a missing file or invalid JSON, raised as `ValueError`. */
  function LoadJson(doc: Option<Json>): (r: Result<Json, Failure>)
    ensures doc.None? <==> r == Err(ValueError)
    ensures doc.Some? ==> r == Ok(doc.value)
  {
    match doc
    case None => Err(ValueError)
    case Some(d) => Ok(d)
  }

  /** `d.get(key, default)` on a dict. */
  function Lookup(d: Json, key: string, default: Json): (v: Json)
    requires d.JObject?
    ensures key in d.fields ==> v == d.fields[key]
    ensures key !in d.fields ==> v == default
  {
    if key in d.fields then d.fields[key] else default
  }

  /**
   * The items of `for row in v` when every item then has `.get` called on
   * it. A non-empty string or dict yields strings, which have no `get`; a
   * number, a boolean or `None` is not iterable.
   */
  function RowList(v: Json): (r: Result<seq<Json>, Failure>)
    ensures v.JArray? ==> r == Ok(v.items)
    ensures r.Err? ==> r.error == Crash
    ensures r.Ok? && !v.JArray? ==> r.value == []
  {
    match v
    case JArray(items) => Ok(items)
    case JStr(s) => if |s| == 0 then Ok([]) else Err(Crash)
    case JObject(fields) => if |fields| == 0 then Ok([]) else Err(Crash)
    case _ => Err(Crash)
  }

  /** `[str(x) for x in items]`, stopping at the first item `str()` is not modelled for. */
  function StrAll(items: seq<Json>): (r: Result<seq<string>, Failure>)
    ensures r.Ok? <==> forall i :: 0 <= i < |items| ==> StrOf(items[i]).Ok?
    ensures r.Ok? ==> |r.value| == |items| && forall i :: 0 <= i < |items| ==> StrOf(items[i]) == Ok(r.value[i])
  {
    if |items| == 0 then Ok([])
    else
      var n := |items| - 1;
      match StrAll(items[..n])
      case Err(e) => Err(e)
      case Ok(front) =>
        match StrOf(items[n])
        case Err(e) => Err(e)
        case Ok(last) => Ok(front + [last])
  }

  /**
   * `[str(x) for x in v]`: a list item by item, a string character by
   * character; a non-empty dict yields its keys in file order, which a
   * `Json` object does not keep.
   */
  function ExampleList(v: Json): (r: Result<seq<string>, Failure>)
    ensures v.JArray? ==> r == StrAll(v.items)
    ensures v.JStr? ==> r.Ok? && |r.value| == |v.s| && forall i :: 0 <= i < |v.s| ==> r.value[i] == [v.s[i]]
    ensures v.JNull? || v.JBool? || v.JInt? || v.JFloat? ==> r == Err(Crash)
  {
    match v
    case JArray(items) => StrAll(items)
    case JStr(s) => Ok(seq(|s|, i requires 0 <= i < |s| => [s[i]]))
    case JObject(fields) => if |fields| == 0 then Ok([]) else Err(NotModelled)
    case _ => Err(Crash)
  }

  /** A `failure_clusters` row after normalisation. */
  datatype ArtifactRow = ArtifactRow(signature: string, count: int, qrWeight: int, examples: seq<string>)

  /** The signature a row without one is filed under. */
  const UnknownSignature: string := "unknown-fail"

  /**
   * One row normalised: `str(row.get("signature", "unknown-fail"))`,
   * `int(row.get("count", 0))`, `int(row.get("qr_weight", 0))` and the
   * examples, in that order; a row that is not a dict has no `get`.
   */
  function NormalizeRow(row: Json): Result<ArtifactRow, Failure>
  {
    if !row.JObject? then Err(Crash)
    else
      match StrOf(Lookup(row, "signature", JStr(UnknownSignature)))
      case Err(e) => Err(e)
      case Ok(sig) =>
        match ToInt(Lookup(row, "count", JInt(0)))
        case Err(e) => Err(e)
        case Ok(count) =>
          match ToInt(Lookup(row, "qr_weight", JInt(0)))
          case Err(e) => Err(e)
          case Ok(qrWeight) =>
            match ExampleList(Lookup(row, "examples", JArray([])))
            case Err(e) => Err(e)
            case Ok(examples) => Ok(ArtifactRow(sig, count, qrWeight, examples))
  }

  /** What normalisation does with each field: the row is kept exactly when all four convert. */
  lemma NormalizeRowFields(row: Json)
    ensures !row.JObject? ==> NormalizeRow(row) == Err(Crash)
    ensures NormalizeRow(row).Ok? <==>
      && row.JObject?
      && StrOf(Lookup(row, "signature", JStr(UnknownSignature))).Ok?
      && ToInt(Lookup(row, "count", JInt(0))).Ok?
      && ToInt(Lookup(row, "qr_weight", JInt(0))).Ok?
      && ExampleList(Lookup(row, "examples", JArray([]))).Ok?
    ensures NormalizeRow(row).Ok? ==>
      && StrOf(Lookup(row, "signature", JStr(UnknownSignature))) == Ok(NormalizeRow(row).value.signature)
      && ToInt(Lookup(row, "count", JInt(0))) == Ok(NormalizeRow(row).value.count)
      && ToInt(Lookup(row, "qr_weight", JInt(0))) == Ok(NormalizeRow(row).value.qrWeight)
      && ExampleList(Lookup(row, "examples", JArray([]))) == Ok(NormalizeRow(row).value.examples)
  {
  }

  /** A row that gives none of the four fields takes every default. */
  lemma NormalizeDefaults(row: Json)
    requires row.JObject?
    requires "signature" !in row.fields && "count" !in row.fields
    requires "qr_weight" !in row.fields && "examples" !in row.fields
    ensures NormalizeRow(row) == Ok(ArtifactRow(UnknownSignature, 0, 0, []))
  {
    assert StrAll([]) == Ok([]);
  }

  /** Every row normalised in order; the first row that fails stops the loop with its failure. */
  function NormalizeAll(rows: seq<Json>): (r: Result<seq<ArtifactRow>, Failure>)
    ensures r.Ok? <==> forall i :: 0 <= i < |rows| ==> NormalizeRow(rows[i]).Ok?
    ensures r.Ok? ==> |r.value| == |rows| && forall i :: 0 <= i < |rows| ==> NormalizeRow(rows[i]) == Ok(r.value[i])
    ensures r.Err? ==> exists i :: 0 <= i < |rows| && NormalizeRow(rows[i]) == Err(r.error)
  {
    var rs := Normalized(rows);
    CollectOk(rs)
  }

  /** The outcome of normalising each row. */
  function Normalized(rows: seq<Json>): (rs: seq<Result<ArtifactRow, Failure>>)
    ensures |rs| == |rows| && forall i :: 0 <= i < |rows| ==> rs[i] == NormalizeRow(rows[i])
  {
    seq(|rows|, i requires 0 <= i < |rows| => NormalizeRow(rows[i]))
  }

  /** The values of a sequence of outcomes, or the first failure among them. */
  function CollectOk(rs: seq<Result<ArtifactRow, Failure>>): (r: Result<seq<ArtifactRow>, Failure>)
    ensures r.Ok? <==> forall i :: 0 <= i < |rs| ==> rs[i].Ok?
    ensures r.Ok? ==> |r.value| == |rs| && forall i :: 0 <= i < |rs| ==> rs[i] == Ok(r.value[i])
    ensures r.Err? ==> exists i :: 0 <= i < |rs| && rs[i] == Err(r.error) && forall j :: 0 <= j < i ==> rs[j].Ok?
  {
    if |rs| == 0 then Ok([])
    else
      var n := |rs| - 1;
      assert forall i :: 0 <= i < n ==> rs[..n][i] == rs[i];
      match CollectOk(rs[..n])
      case Err(e) => Err(e)
      case Ok(front) =>
        match rs[n]
        case Err(e) => Err(e)
        case Ok(last) => Ok(front + [last])
  }

  /** The loop one row further: the rows so far and the next one normalised. */
  lemma NormalizeStep(rows: seq<Json>, i: nat)
    requires i < |rows| && NormalizeAll(rows[..i]).Ok?
    ensures NormalizeRow(rows[i]).Err? ==> NormalizeAll(rows[..i + 1]) == Err(NormalizeRow(rows[i]).error)
    ensures NormalizeRow(rows[i]).Ok? ==>
      NormalizeAll(rows[..i + 1]) == Ok(NormalizeAll(rows[..i]).value + [NormalizeRow(rows[i]).value])
  {
    var rs := Normalized(rows[..i + 1]);
    assert rs[..i] == Normalized(rows[..i]);
    assert rs[i] == NormalizeRow(rows[i]);
  }

  /** A failure among the first rows is the failure of all of them: the loop stops there. */
  lemma NormalizePrefixFails(rows: seq<Json>, k: nat)
    requires k <= |rows| && NormalizeAll(rows[..k]).Err?
    ensures NormalizeAll(rows) == NormalizeAll(rows[..k])
  {
    var rs := Normalized(rows);
    assert Normalized(rows[..k]) == rs[..k];
    CollectPrefixFails(rs, k);
  }

  lemma {:induction false} CollectPrefixFails(rs: seq<Result<ArtifactRow, Failure>>, k: nat)
    requires k <= |rs| && CollectOk(rs[..k]).Err?
    ensures CollectOk(rs) == CollectOk(rs[..k])
    decreases |rs| - k
  {
    if k < |rs| {
      assert rs[..k + 1][..k] == rs[..k];
      CollectPrefixFails(rs, k + 1);
    } else {
      assert rs[..k] == rs;
    }
  }

  /** The normalised rows of `artifact.get("failure_clusters", [])`, in file order. */
  function FailureRows(artifact: Json): Result<seq<ArtifactRow>, Failure>
  {
    match Get(artifact, "failure_clusters", JArray([]))
    case Err(e) => Err(e)
    case Ok(v) =>
      match RowList(v)
      case Err(e) => Err(e)
      case Ok(rows) => NormalizeAll(rows)
  }

  /** `row["examples"][0] if row["examples"] else "-"`: the first example, or a dash. */
  function FirstExample(examples: seq<string>): (s: string)
    ensures |examples| > 0 ==> s == examples[0]
    ensures |examples| == 0 ==> s == "-"
  {
    if |examples| > 0 then examples[0] else "-"
  }
}
