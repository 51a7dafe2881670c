/**
 * The JSON values the benchmark scripts read, and the Python operations
 * they apply to them: `dict.get` with a default, `isinstance(v, (int,
 * float))`, `float()`, `int()`, `str()` and iteration. A parsed document
 * is a value of `Json`; a script's uncaught exception is a `Failure`.
 */
module Json {
  import opened Wrappers
  import opened Text

  /** A parsed JSON value. Objects are looked up by key, never iterated in order. */
  datatype Json =
    | JNull
    | JBool(b: bool)
    | JInt(i: int)
    | JFloat(r: real)
    | JStr(s: string)
    | JArray(items: seq<Json>)
    | JObject(fields: map<string, Json>)

  /**
   * How a Python operation fails: a `ValueError`, which some scripts catch,
   * or any other exception (`AttributeError`, `TypeError`), which ends the
   * script. `NotModelled` stands for `str()` of a float, list or dict.
   */
  datatype Failure = ValueError | Crash | NotModelled

  /** `isinstance(v, (int, float))`; `bool` is a subclass of `int`, so booleans pass. */
  predicate IsNumber(v: Json)
  {
    v.JBool? || v.JInt? || v.JFloat?
  }

  /** `float(v)` of a number; `True` is 1.0. */
  function ToFloat(v: Json): (r: real)
    requires IsNumber(v)
    ensures v.JInt? ==> r == v.i as real
    ensures v.JFloat? ==> r == v.r
    ensures v.JBool? ==> r == if v.b then 1.0 else 0.0
  {
    match v
    case JBool(b) => if b then 1.0 else 0.0
    case JInt(i) => i as real
    case JFloat(r) => r
  }

  /** `d.get(key, default)`: only a dict has `get`; on anything else it raises. */
  function Get(d: Json, key: string, default: Json): (r: Result<Json, Failure>)
    ensures r.Err? <==> !d.JObject?
    ensures r.Ok? && key in d.fields ==> r.value == d.fields[key]
    ensures r.Ok? && key !in d.fields ==> r.value == default
  {
    if d.JObject? then Ok(if key in d.fields then d.fields[key] else default) else Err(Crash)
  }

  /** `int(r)` of a float: truncation toward zero. */
  function Trunc(r: real): (n: int)
    ensures r >= 0.0 ==> 0.0 <= n as real <= r < n as real + 1.0
    ensures r < 0.0 ==> n as real - 1.0 < r <= n as real <= 0.0
  {
    if r >= 0.0 then r.Floor else -((-r).Floor)
  }

  /** The decimal notation of an integer, `-` first when negative: `str(i)`. */
  function SignedDecimal(i: int): (s: string)
    ensures |s| > 0
  {
    if i < 0 then "-" + Decimal(-i) else Decimal(i)
  }

  /** `int(s)`: surrounding whitespace, an optional sign, and at least one digit. */
  function ParseInt(s: string): (r: Result<int, Failure>)
    ensures r.Err? ==> r.error == ValueError
  {
    var t := Trim(s);
    var negative := |t| > 0 && t[0] == '-';
    var ds := if |t| > 0 && (t[0] == '+' || t[0] == '-') then t[1..] else t;
    if |ds| == 0 || !AllDigits(ds) then Err(ValueError)
    else
      var v: int := DecimalValue(ds);
      Ok(if negative then -v else v)
  }

  /** `int(v)`: booleans are 0 and 1, floats truncate, strings are parsed; `None`, lists and dicts raise. */
  function ToInt(v: Json): (r: Result<int, Failure>)
    ensures v.JInt? ==> r == Ok(v.i)
    ensures v.JBool? ==> r == Ok(if v.b then 1 else 0)
    ensures v.JFloat? ==> r == Ok(Trunc(v.r))
    ensures v.JNull? || v.JArray? || v.JObject? ==> r == Err(Crash)
  {
    match v
    case JNull => Err(Crash)
    case JBool(b) => Ok(if b then 1 else 0)
    case JInt(i) => Ok(i)
    case JFloat(r) => Ok(Trunc(r))
    case JStr(s) => ParseInt(s)
    case JArray(_) => Err(Crash)
    case JObject(_) => Err(Crash)
  }

  /** `str(v)` for strings, integers, booleans and `None`. */
  function StrOf(v: Json): (r: Result<string, Failure>)
    ensures v.JStr? ==> r == Ok(v.s)
    ensures r.Err? <==> v.JFloat? || v.JArray? || v.JObject?
  {
    match v
    case JNull => Ok("None")
    case JBool(b) => Ok(if b then "True" else "False")
    case JInt(i) => Ok(SignedDecimal(i))
    case JFloat(_) => Err(NotModelled)
    case JStr(s) => Ok(s)
    case JArray(_) => Err(NotModelled)
    case JObject(_) => Err(NotModelled)
  }

  /** `int(str(i)) == i`: integer notation reads back. */
  lemma IntStrRoundTrip(i: int)
    ensures StrOf(JInt(i)).Ok? && ToInt(JStr(StrOf(JInt(i)).value)) == Ok(i)
  {
    ParseSignedDecimal(i);
  }

  lemma ParseSignedDecimal(i: int)
    ensures ParseInt(SignedDecimal(i)) == Ok(i)
  {
    var s := SignedDecimal(i);
    var d: nat := if i < 0 then -i else i;
    var ds := Decimal(d);
    DecimalRoundTrip(d);
    assert IsDigit(ds[0]) && IsDigit(ds[|ds| - 1]);
    assert i < 0 ==> s == "-" + ds;
    assert i >= 0 ==> s == ds;
    assert s[|s| - 1] == ds[|ds| - 1];
    TrimKeeps(s);
    assert i < 0 ==> s[1..] == ds;
  }
}
