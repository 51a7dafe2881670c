/**
 * The dataset helpers of src/tools/mod.rs: counting the codes a BoofCV
 * label file announces, grey-level and black-pixel statistics, the
 * `QR_BENCH_LIMIT` value, and the order in which dataset images are
 * visited. Reading files and the environment is left to the caller, who
 * passes the file's lines (`None` when it cannot be read), the variable's
 * value and the collected image paths.
 */
module Tools {
  import opened Wrappers
  import opened Text
  import opened Matrix
  import opened Sorting

  // ---------------------------------------------------------------------
  // Label files
  // ---------------------------------------------------------------------

  /** What a line of a label file is once trimmed. */
  datatype LineKind = Ignored | SetsMarker | Numbers(count: nat)

  /**
   * A blank line, a `#` comment, or a line with any token that is not a
   * float is ignored; `SETS` in any case is the marker; otherwise the line
   * holds `count` numbers.
   */
  function Classify(line: string): LineKind
  {
    var t := Trim(line);
    if |t| == 0 || t[0] == '#' then Ignored
    else if EqIgnoreAsciiCase(t, "SETS") then SetsMarker
    else
      var ts := Tokens(t);
      if |ts| > 0 && forall i :: 0 <= i < |ts| ==> IsFloat(ts[i]) then Numbers(|ts|) else Ignored
  }

  /** The kind of every line, in order. */
  function Kinds(lines: seq<string>): (ks: seq<LineKind>)
    ensures |ks| == |lines| && forall i :: 0 <= i < |lines| ==> ks[i] == Classify(lines[i])
  {
    seq(|lines|, i requires 0 <= i < |lines| => Classify(lines[i]))
  }

  /** A line of eight or more numbers: one code. */
  predicate IsQr(k: LineKind)
  {
    k.Numbers? && k.count >= 8
  }

  /** A line of exactly two numbers: one corner of a legacy layout. */
  predicate IsCorner(k: LineKind)
  {
    k == Numbers(2)
  }

  function QrLines(ks: seq<LineKind>): (n: nat)
    ensures n <= |ks|
  {
    if |ks| == 0 then 0 else (if IsQr(ks[0]) then 1 else 0) + QrLines(ks[1..])
  }

  function CornerLines(ks: seq<LineKind>): (n: nat)
    ensures n <= |ks|
  {
    if |ks| == 0 then 0 else (if IsCorner(ks[0]) then 1 else 0) + CornerLines(ks[1..])
  }

  /** The position of the first `SETS` line, if any. */
  function FirstSets(ks: seq<LineKind>): (r: Option<nat>)
    ensures r.Some? ==> r.value < |ks| && ks[r.value] == SetsMarker
    ensures r.Some? ==> forall j :: 0 <= j < r.value ==> ks[j] != SetsMarker
    ensures r.None? ==> forall j :: 0 <= j < |ks| ==> ks[j] != SetsMarker
  {
    if |ks| == 0 then None
    else if ks[0] == SetsMarker then Some(0)
    else
      assert forall j :: 1 <= j < |ks| ==> ks[j] == ks[1..][j - 1];
      match FirstSets(ks[1..])
      case None => None
      case Some(i) => Some(i + 1)
  }

  /**
   * The number of codes announced by lines of kinds `ks`: after a `SETS`
   * marker, the code lines that follow the first one; without it, the
   * code lines if there are any, otherwise one code per four corner lines.
   */
  function Announced(ks: seq<LineKind>): nat
  {
    match FirstSets(ks)
    case Some(i) => QrLines(ks[i + 1..])
    case None => if QrLines(ks) > 0 then QrLines(ks) else CornerLines(ks) / 4
  }

  /** The number of codes a label file with these lines announces. */
  function ExpectedQrCount(lines: seq<string>): nat
  {
    Announced(Kinds(lines))
  }

  /** `parse_numeric_token_count`: the number of tokens when there is one and every one parses as a float. */
  method ParseNumericTokenCount(line: string) returns (r: Option<nat>)
    ensures r.Some? <==> |Tokens(line)| > 0 && forall i :: 0 <= i < |Tokens(line)| ==> IsFloat(Tokens(line)[i])
    ensures r.Some? ==> r.value == |Tokens(line)|
  {
    r := CountFloatTokens(Tokens(line));
  }

  /** The loop of `parse_numeric_token_count` over the tokens: it stops at the first one that is not a float. */
  method CountFloatTokens(tokens: seq<string>) returns (r: Option<nat>)
    ensures r.Some? <==> |tokens| > 0 && forall i :: 0 <= i < |tokens| ==> IsFloat(tokens[i])
    ensures r.Some? ==> r.value == |tokens|
  {
    var count := 0;
    for k := 0 to |tokens|
      invariant count == k
      invariant forall i :: 0 <= i < k ==> IsFloat(tokens[i])
    {
      if !IsFloat(tokens[k]) {
        return None;
      }
      count := count + 1;
    }
    if count == 0 {
      return None;
    }
    return Some(count);
  }

  /** The kind of one line, as the loop body of `parse_expected_qr_count` decides it. */
  method ClassifyLine(line: string) returns (kind: LineKind)
    ensures kind == Classify(line)
  {
    var trimmed := Trim(line);
    if |trimmed| == 0 || trimmed[0] == '#' {
      return Ignored;
    }
    if EqIgnoreAsciiCase(trimmed, "SETS") {
      return SetsMarker;
    }
    var tokenCount := ParseNumericTokenCount(trimmed);
    if tokenCount.None? {
      return Ignored;
    }
    return Numbers(tokenCount.value);
  }

  /** The counters of the line loop of `parse_expected_qr_count`. */
  datatype Counters = Counters(sawSets: bool, postSetsQrLines: nat, preSetsQrLines: nat, preSetsCornerLines: nat)

  /**
   * The counters after lines of kinds `ks`: once a `SETS` line was seen,
   * the code lines after the first one; before it, the code and corner
   * lines, and nothing after a marker yet.
   */
  ghost predicate Counted(c: Counters, ks: seq<LineKind>)
  {
    match FirstSets(ks)
    case Some(i) => c.sawSets && c.postSetsQrLines == QrLines(ks[i + 1..])
    case None =>
      && !c.sawSets && c.postSetsQrLines == 0
      && c.preSetsQrLines == QrLines(ks) && c.preSetsCornerLines == CornerLines(ks)
  }

  /** A prefix one longer is the prefix and the next element. */
  lemma PrefixSnoc<T>(s: seq<T>, k: nat)
    requires k < |s|
    ensures s[..k + 1] == s[..k] + [s[k]]
  {
  }

  /** The counters before the first line. */
  lemma NoLinesCounted()
    ensures Counted(Counters(false, 0, 0, 0), [])
  {
  }

  /** The loop body of `parse_expected_qr_count` once the line's kind is known. */
  method CountLine(c: Counters, kind: LineKind, ghost ks: seq<LineKind>) returns (d: Counters)
    requires Counted(c, ks)
    ensures Counted(d, ks + [kind])
  {
    var one := [kind];
    assert one[1..] == [];
    FirstSetsAppend(ks, one);
    QrLinesAppend(ks, one);
    if FirstSets(ks).Some? {
      var i := FirstSets(ks).value;
      assert (ks + one)[i + 1..] == ks[i + 1..] + one;
      QrLinesAppend(ks[i + 1..], one);
    }
    d := c;
    match kind
    case Ignored =>
    case SetsMarker =>
      assert (ks + one)[|ks| + 1..] == [];
      d := d.(sawSets := true);
    case Numbers(tokenCount) =>
      if c.sawSets {
        if tokenCount >= 8 {
          d := d.(postSetsQrLines := c.postSetsQrLines + 1);
        }
      } else if tokenCount >= 8 {
        d := d.(preSetsQrLines := c.preSetsQrLines + 1);
      } else if tokenCount == 2 {
        d := d.(preSetsCornerLines := c.preSetsCornerLines + 1);
      }
  }

  /** The count the final counters give: the rule at the end of `parse_expected_qr_count`. */
  method CountersResult(c: Counters, ghost ks: seq<LineKind>) returns (count: nat)
    requires Counted(c, ks)
    ensures count == Announced(ks)
  {
    if c.sawSets {
      count := c.postSetsQrLines;
    } else {
      var legacyQrs := c.preSetsCornerLines / 4;
      if c.preSetsQrLines > 0 {
        count := c.preSetsQrLines;
      } else {
        count := legacyQrs;
      }
    }
  }

  /**
   * `parse_expected_qr_count` over the file's lines: the counters of the
   * line loop end up at the count the file announces, and an unreadable
   * file counts 0.
   */
  method ParseExpectedQrCount(content: Option<seq<string>>) returns (count: nat)
    ensures content.None? ==> count == 0
    ensures content.Some? ==> count == ExpectedQrCount(content.value)
  {
    if content.None? {
      return 0;
    }
    var lines := content.value;
    ghost var ks := Kinds(lines);
    var counters := Counters(false, 0, 0, 0);
    NoLinesCounted();
    for k := 0 to |lines|
      invariant Counted(counters, ks[..k])
    {
      var kind := ClassifyLine(lines[k]);
      PrefixSnoc(ks, k);
      counters := CountLine(counters, kind, ks[..k]);
    }
    assert ks[..|lines|] == ks;
    count := CountersResult(counters, ks);
  }

  /** A file never announces more codes than it has lines. */
  lemma ExpectedQrCountBound(lines: seq<string>)
    ensures ExpectedQrCount(lines) <= |lines|
  {
  }

  lemma {:induction false} QrLinesAppend(a: seq<LineKind>, b: seq<LineKind>)
    ensures QrLines(a + b) == QrLines(a) + QrLines(b)
    ensures CornerLines(a + b) == CornerLines(a) + CornerLines(b)
  {
    if |a| == 0 {
      assert a + b == b;
    } else {
      assert (a + b)[1..] == a[1..] + b;
      QrLinesAppend(a[1..], b);
    }
  }

  lemma {:induction false} FirstSetsAppend(a: seq<LineKind>, b: seq<LineKind>)
    ensures FirstSets(a + b) ==
      if FirstSets(a).Some? then FirstSets(a)
      else if FirstSets(b).Some? then Some(|a| + FirstSets(b).value) else None
  {
    if |a| == 0 {
      assert a + b == b;
    } else {
      assert (a + b)[1..] == a[1..] + b;
      FirstSetsAppend(a[1..], b);
    }
  }

  /** Kinds of joined lines are the joined kinds. */
  lemma KindsAppend(a: seq<string>, b: seq<string>)
    ensures Kinds(a + b) == Kinds(a) + Kinds(b)
  {
    assert forall i :: 0 <= i < |a| ==> (a + b)[i] == a[i];
    assert forall i :: |a| <= i < |a| + |b| ==> (a + b)[i] == b[i - |a|];
  }

  /** An ignored kind leaves the announced count unchanged wherever it appears. */
  lemma IgnoredKindNoEffect(a: seq<LineKind>, b: seq<LineKind>)
    ensures Announced(a + [Ignored] + b) == Announced(a + b)
  {
    if FirstSets(a).Some? {
      var i := FirstSets(a).value;
      FirstSetsAppend(a, [Ignored] + b);
      FirstSetsAppend(a, b);
      assert a + [Ignored] + b == a + ([Ignored] + b);
      AnnouncedAfterMarker(a + [Ignored] + b, i);
      AnnouncedAfterMarker(a + b, i);
      IgnoredAfterMarker(a, b, i);
    } else if FirstSets(b).Some? {
      var j := FirstSets(b).value;
      FirstSetsAppend(a, [Ignored]);
      AnnouncedPastPrefix(a + [Ignored], b, j);
      AnnouncedPastPrefix(a, b, j);
    } else {
      IgnoredWithoutMarker(a, b);
    }
  }

  /** Past a prefix without a marker, the count is that of the lines after the first marker of the rest. */
  lemma AnnouncedPastPrefix(x: seq<LineKind>, b: seq<LineKind>, j: nat)
    requires FirstSets(x).None? && FirstSets(b) == Some(j)
    ensures Announced(x + b) == QrLines(b[j + 1..])
  {
    FirstSetsAppend(x, b);
    AnnouncedAfterMarker(x + b, |x| + j);
    SliceAfter(x, b, j + 1);
  }

  /** No marker at all: the code and corner lines are counted with the ignored kind among them. */
  lemma IgnoredWithoutMarker(a: seq<LineKind>, b: seq<LineKind>)
    requires FirstSets(a).None? && FirstSets(b).None?
    ensures Announced(a + [Ignored] + b) == Announced(a + b)
  {
    var tail: seq<LineKind> := [Ignored] + b;
    assert a + [Ignored] + b == a + tail;
    IgnoredHead(b);
    FirstSetsAppend(a, tail);
    FirstSetsAppend(a, b);
    QrLinesAppend(a, tail);
    QrLinesAppend(a, b);
  }

  /** A leading ignored kind adds no marker, code line or corner line. */
  lemma IgnoredHead(b: seq<LineKind>)
    ensures FirstSets(b).None? ==> FirstSets([Ignored] + b).None?
    ensures QrLines([Ignored] + b) == QrLines(b)
    ensures CornerLines([Ignored] + b) == CornerLines(b)
  {
    assert ([Ignored] + b)[1..] == b;
  }

  lemma AnnouncedAfterMarker(ks: seq<LineKind>, i: nat)
    requires FirstSets(ks) == Some(i)
    ensures Announced(ks) == QrLines(ks[i + 1..])
  {
  }

  lemma SliceAfter(x: seq<LineKind>, b: seq<LineKind>, k: nat)
    requires k <= |b|
    ensures (x + b)[|x| + k..] == b[k..]
  {
  }

  /** An ignored kind after position `i` does not change the code lines after `i`. */
  lemma IgnoredAfterMarker(a: seq<LineKind>, b: seq<LineKind>, i: nat)
    requires i < |a|
    ensures QrLines((a + [Ignored] + b)[i + 1..]) == QrLines((a + b)[i + 1..])
  {
    var tail: seq<LineKind> := [Ignored] + b;
    assert tail[1..] == b;
    assert (a + [Ignored] + b)[i + 1..] == a[i + 1..] + tail;
    assert (a + b)[i + 1..] == a[i + 1..] + b;
    QrLinesAppend(a[i + 1..], tail);
    QrLinesAppend(a[i + 1..], b);
  }

  /** Blank, comment and non-numeric lines leave the count unchanged wherever they appear. */
  lemma IgnoredLineNoEffect(a: seq<string>, line: string, b: seq<string>)
    requires Classify(line) == Ignored
    ensures ExpectedQrCount(a + [line] + b) == ExpectedQrCount(a + b)
  {
    KindsAppend(a + [line], b);
    KindsAppend(a, [line]);
    KindsAppend(a, b);
    assert Kinds([line]) == [Ignored];
    IgnoredKindNoEffect(Kinds(a), Kinds(b));
  }

  /** Lines before the first `SETS` marker do not count, whatever they hold. */
  lemma SetsHeaderIgnored(header: seq<LineKind>, body: seq<LineKind>)
    requires FirstSets(header).None?
    ensures Announced(header + [SetsMarker] + body) == QrLines(body)
  {
    var tail: seq<LineKind> := [SetsMarker] + body;
    assert header + [SetsMarker] + body == header + tail;
    FirstSetsAppend(header, tail);
    assert FirstSets(tail) == Some(0) by {
      assert tail[0] == SetsMarker;
    }
    assert (header + tail)[|header| + 1..] == body;
  }

  /** In the legacy layout, four more corner lines announce one more code. */
  lemma LegacyCorners(ks: seq<LineKind>)
    requires FirstSets(ks).None? && QrLines(ks) == 0
    ensures Announced(ks + [Numbers(2), Numbers(2), Numbers(2), Numbers(2)]) == Announced(ks) + 1
  {
    var corners: seq<LineKind> := [Numbers(2), Numbers(2), Numbers(2), Numbers(2)];
    assert corners[1..][1..][1..][1..] == [];
    QrLinesAppend(ks, corners);
    FirstSetsAppend(ks, corners);
  }

  /** Words joined by spaces start with the first word and end with the last. */
  lemma {:induction false} UnwordsEnds(words: seq<string>)
    requires |words| > 0 && forall i :: 0 <= i < |words| ==> Word(words[i])
    ensures Word(words[0]) && Word(words[|words| - 1])
    ensures |Unwords(words)| > 0
    ensures Unwords(words)[0] == words[0][0]
    ensures Unwords(words)[|Unwords(words)| - 1] == words[|words| - 1][|words[|words| - 1]| - 1]
  {
    if |words| > 1 {
      UnwordsEnds(words[1..]);
    }
  }

  /** A trimmed line that is not a comment or the marker and whose tokens are all floats holds that many numbers. */
  lemma ClassifyNumbers(t: string)
    requires Trim(t) == t && |t| > 0 && t[0] != '#' && !EqIgnoreAsciiCase(t, "SETS")
    requires |Tokens(t)| > 0 && forall i :: 0 <= i < |Tokens(t)| ==> IsFloat(Tokens(t)[i])
    ensures Classify(t) == Numbers(|Tokens(t)|)
  {
  }

  /** A line starting with a digit is not the marker. */
  lemma DigitNotSets(t: string)
    requires |t| > 0 && IsDigit(t[0])
    ensures t[0] != '#' && !EqIgnoreAsciiCase(t, "SETS")
  {
    assert LowerChar(t[0]) != LowerChar("SETS"[0]);
  }

  /** A line of float words, the first starting with a digit, holds that many numbers. */
  lemma NumericLine(words: seq<string>)
    requires |words| > 0 && forall i :: 0 <= i < |words| ==> Word(words[i]) && IsFloat(words[i])
    requires Word(words[0]) && IsDigit(words[0][0])
    ensures Classify(Unwords(words)) == Numbers(|words|)
  {
    var s := Unwords(words);
    UnwordsEnds(words);
    TrimKeeps(s);
    TokensUnwords(words);
    DigitNotSets(s);
    ClassifyNumbers(s);
  }

  /** A comment line is ignored. */
  lemma CommentLine(s: string)
    requires |s| > 0 && s[0] == '#' && !IsSpace(s[|s| - 1])
    ensures Classify(s) == Ignored
  {
    TrimKeeps(s);
  }

  /** `n.0`, the notation of the coordinates in the source's sample label files. */
  function PointText(n: nat): string
  {
    Decimal(n) + ".0"
  }

  /** A coordinate is a word, a float, and starts with a digit. */
  lemma PointWord(n: nat)
    ensures Word(PointText(n)) && IsFloat(PointText(n)) && IsDigit(PointText(n)[0])
  {
    assert Decimal(0) == "0";
    assert PointText(n) == Decimal(n) + "." + Decimal(0);
    FractionIsFloat(n, 0);
  }

  /** The coordinates `ns` as words. */
  function Coordinates(ns: seq<nat>): (ws: seq<string>)
    ensures |ws| == |ns| && forall i :: 0 <= i < |ns| ==> ws[i] == PointText(ns[i])
  {
    seq(|ns|, i requires 0 <= i < |ns| => PointText(ns[i]))
  }

  /** A line of coordinates separated by spaces holds that many numbers. */
  lemma CoordinateLine(ns: seq<nat>)
    requires |ns| > 0
    ensures Classify(Unwords(Coordinates(ns))) == Numbers(|ns|)
  {
    var ws := Coordinates(ns);
    forall i | 0 <= i < |ws|
      ensures Word(ws[i]) && IsFloat(ws[i])
    {
      PointWord(ns[i]);
    }
    PointWord(ns[0]);
    NumericLine(ws);
  }

  /** `SETS` alone on a line is the marker. */
  lemma SetsLine()
    ensures Classify("SETS") == SetsMarker
  {
    TrimKeeps("SETS");
  }

  /** Each row of coordinates as a line of words. */
  function CoordinateLines(rows: seq<seq<nat>>): (lines: seq<string>)
    ensures |lines| == |rows| && forall i :: 0 <= i < |rows| ==> lines[i] == Unwords(Coordinates(rows[i]))
  {
    seq(|rows|, i requires 0 <= i < |rows| => Unwords(Coordinates(rows[i])))
  }

  /** Rows of eight or more coordinates are code lines, one per row. */
  lemma {:induction false} CodeRows(rows: seq<seq<nat>>)
    requires forall i :: 0 <= i < |rows| ==> |rows[i]| >= 8
    ensures FirstSets(Kinds(CoordinateLines(rows))).None?
    ensures QrLines(Kinds(CoordinateLines(rows))) == |rows|
  {
    if |rows| > 0 {
      CoordinateLine(rows[0]);
      assert CoordinateLines(rows) == [Unwords(Coordinates(rows[0]))] + CoordinateLines(rows[1..]);
      KindsAppend([Unwords(Coordinates(rows[0]))], CoordinateLines(rows[1..]));
      var ks := Kinds([Unwords(Coordinates(rows[0]))]);
      assert ks[1..] == [];
      CodeRows(rows[1..]);
      QrLinesAppend(ks, Kinds(CoordinateLines(rows[1..])));
      FirstSetsAppend(ks, Kinds(CoordinateLines(rows[1..])));
    }
  }

  /** Rows of two coordinates are corner lines, one per row. */
  lemma {:induction false} CornerRows(rows: seq<seq<nat>>)
    requires forall i :: 0 <= i < |rows| ==> |rows[i]| == 2
    ensures FirstSets(Kinds(CoordinateLines(rows))).None?
    ensures QrLines(Kinds(CoordinateLines(rows))) == 0
    ensures CornerLines(Kinds(CoordinateLines(rows))) == |rows|
  {
    if |rows| > 0 {
      CoordinateLine(rows[0]);
      assert CoordinateLines(rows) == [Unwords(Coordinates(rows[0]))] + CoordinateLines(rows[1..]);
      KindsAppend([Unwords(Coordinates(rows[0]))], CoordinateLines(rows[1..]));
      var ks := Kinds([Unwords(Coordinates(rows[0]))]);
      assert ks[1..] == [];
      CornerRows(rows[1..]);
      QrLinesAppend(ks, Kinds(CoordinateLines(rows[1..])));
      FirstSetsAppend(ks, Kinds(CoordinateLines(rows[1..])));
    }
  }

  /**
   * The first sample generalised: an ignored line, the marker and rows of
   * eight or more coordinates announce one code per row. The sample has
   * the comment `# list of hand selected 2D points`, `SETS`, and rows
   * `1.0` to `8.0` and `9.0` to `16.0`.
   */
  lemma SetsLayoutSample(comment: string, marker: string, rows: seq<seq<nat>>)
    requires Classify(comment) == Ignored && Classify(marker) == SetsMarker
    requires forall i :: 0 <= i < |rows| ==> |rows[i]| >= 8
    ensures ExpectedQrCount([comment, marker] + CoordinateLines(rows)) == |rows|
  {
    KindsOfTwo(comment, marker);
    KindsAppend([comment, marker], CoordinateLines(rows));
    CodeRows(rows);
    MarkerAfterIgnored(Kinds(CoordinateLines(rows)));
  }

  /** After an ignored line and the marker, the code lines count. */
  lemma MarkerAfterIgnored(body: seq<LineKind>)
    ensures Announced([Ignored, SetsMarker] + body) == QrLines(body)
  {
    assert FirstSets([Ignored]).None?;
    assert [Ignored, SetsMarker] + body == [Ignored] + [SetsMarker] + body;
    SetsHeaderIgnored([Ignored], body);
  }

  /** The kinds of two lines. */
  lemma KindsOfTwo(a: string, b: string)
    ensures Kinds([a, b]) == [Classify(a), Classify(b)]
  {
  }

  /**
   * The second sample generalised: an ignored line and rows of two
   * coordinates announce one code per four rows. The sample has the
   * comment and eight rows, from `10.0 20.0` to `71.0 81.0`.
   */
  lemma LegacyLayoutSample(comment: string, rows: seq<seq<nat>>)
    requires Classify(comment) == Ignored
    requires forall i :: 0 <= i < |rows| ==> |rows[i]| == 2
    ensures ExpectedQrCount([comment] + CoordinateLines(rows)) == |rows| / 4
  {
    var hk := Kinds([comment]);
    assert hk == [Ignored];
    KindsAppend([comment], CoordinateLines(rows));
    CornerRows(rows);
    var body := Kinds(CoordinateLines(rows));
    assert hk[1..] == [];
    QrLinesAppend(hk, body);
    FirstSetsAppend(hk, body);
  }

  /**
   * Words that do not start a number, a comment or the marker make the
   * line ignored.
   */
  lemma TextLine(words: seq<string>)
    requires |words| > 0 && forall i :: 0 <= i < |words| ==> Word(words[i])
    requires Word(words[0]) && !IsFloat(words[0]) && words[0][0] != '#' && LowerChar(words[0][0]) != 's'
    ensures Classify(Unwords(words)) == Ignored
  {
    var s := Unwords(words);
    UnwordsEnds(words);
    TrimKeeps(s);
    TokensUnwords(words);
    NotSetsMarker(s);
    NonNumericIgnored(s);
  }

  /** A word that does not start with `s` in either case is not the marker. */
  lemma NotSetsMarker(s: string)
    requires |s| > 0 && LowerChar(s[0]) != 's'
    ensures !EqIgnoreAsciiCase(s, "SETS")
  {
    assert LowerChar(s[0]) != LowerChar("SETS"[0]);
  }

  /** A trimmed line, neither comment nor marker, whose first token is not a float is ignored. */
  lemma NonNumericIgnored(s: string)
    requires Trim(s) == s && |s| > 0 && s[0] != '#' && !EqIgnoreAsciiCase(s, "SETS")
    requires |Tokens(s)| > 0 && !IsFloat(Tokens(s)[0])
    ensures Classify(s) == Ignored
  {
  }

  /**
   * The third sample generalised: two ignored lines announce nothing. The
   * sample has `foo bar baz` and `# comment only`.
   */
  lemma InvalidContentSample(line: string, comment: string)
    requires Classify(line) == Ignored && Classify(comment) == Ignored
    ensures ExpectedQrCount([line, comment]) == 0
  {
    KindsOfTwo(line, comment);
    NothingAnnounced([Ignored, Ignored]);
  }

  /** The comments and the marker of the samples. */
  lemma SampleHeaderLines()
    ensures Classify("# list of hand selected 2D points") == Ignored
    ensures Classify("# comment only") == Ignored
    ensures Classify("SETS") == SetsMarker
  {
    CommentLine("# list of hand selected 2D points");
    CommentLine("# comment only");
    SetsLine();
  }

  /** A line starting with the word `foo`, as `foo bar baz` of the third sample, is ignored. */
  lemma SampleTextLine(rest: seq<string>)
    requires forall i :: 0 <= i < |rest| ==> Word(rest[i])
    ensures Classify(Unwords(["foo"] + rest)) == Ignored
  {
    assert Word("foo");
    NonFloatWord();
    ConsWords("foo", rest);
    TextLine(["foo"] + rest);
  }

  /** A word before words gives words. */
  lemma ConsWords(w: string, rest: seq<string>)
    requires Word(w) && forall i :: 0 <= i < |rest| ==> Word(rest[i])
    ensures forall i :: 0 <= i < |rest| + 1 ==> Word(([w] + rest)[i])
  {
    forall i | 0 <= i < |rest| + 1
      ensures Word(([w] + rest)[i])
    {
      if i > 0 {
        assert ([w] + rest)[i] == rest[i - 1];
      }
    }
  }

  /** Lines that are all ignored announce nothing. */
  lemma {:induction false} NothingAnnounced(ks: seq<LineKind>)
    requires forall i :: 0 <= i < |ks| ==> ks[i] == Ignored
    ensures Announced(ks) == 0
  {
    if |ks| > 0 {
      NothingAnnounced(ks[1..]);
    }
  }

  // ---------------------------------------------------------------------
  // Image statistics
  // ---------------------------------------------------------------------

  /** `GrayStats`: the smallest, largest and mean grey level. */
  datatype GrayStats = GrayStats(min: u8, max: u8, avg: u8)

  /** The sum of the grey levels. */
  function Sum(s: seq<u8>): nat
  {
    if |s| == 0 then 0 else Sum(s[..|s| - 1]) + s[|s| - 1]
  }

  /** Levels between `lo` and `hi` sum to between `lo` and `hi` times their number. */
  lemma {:induction false} SumBounds(s: seq<u8>, lo: int, hi: int)
    requires forall i :: 0 <= i < |s| ==> lo <= s[i] <= hi
    ensures lo * |s| <= Sum(s) <= hi * |s|
  {
    if |s| > 0 {
      var n := |s| - 1;
      SumBounds(s[..n], lo, hi);
      assert lo * |s| == lo * n + lo && hi * |s| == hi * n + hi;
    }
  }

  /** A quotient by `n` of a value between `lo * n` and `hi * n` lies between `lo` and `hi`. */
  lemma DivBetween(sum: nat, n: nat, lo: int, hi: int)
    requires n > 0 && lo * n <= sum <= hi * n
    ensures lo <= sum / n <= hi
  {
    var q := sum / n;
    assert q * n <= sum < (q + 1) * n;
    assert (hi + 1) * n == hi * n + n;
    MulCancel(q, hi + 1, n);
    MulCancel(lo, q + 1, n);
  }

  /** `a * n < b * n` with `n` positive gives `a < b`. */
  lemma MulCancel(a: int, b: int, n: nat)
    requires n > 0 && a * n < b * n
    ensures a < b
  {
  }

  /**
   * `grayscale_stats`: for a non-empty image the least and greatest level
   * and the floor of the mean, which lies between them; an empty image
   * gives (255, 0, 0).
   */
  method GrayscaleStats(gray: seq<u8>) returns (stats: GrayStats)
    ensures |gray| == 0 ==> stats == GrayStats(255, 0, 0)
    ensures |gray| > 0 ==> stats.min in gray && stats.max in gray
    ensures forall i :: 0 <= i < |gray| ==> stats.min <= gray[i] <= stats.max
    ensures |gray| > 0 ==> stats.avg == Sum(gray) / |gray| && stats.min <= stats.avg <= stats.max
  {
    var min: u8 := 255;
    var max: u8 := 0;
    var sum := 0;
    ghost var minAt, maxAt := 0, 0;
    for i := 0 to |gray|
      invariant i == 0 ==> min == 255 && max == 0
      invariant i > 0 ==> minAt < i && maxAt < i && gray[minAt] == min && gray[maxAt] == max
      invariant forall j :: 0 <= j < i ==> min <= gray[j] <= max
      invariant sum == Sum(gray[..i])
    {
      assert gray[..i + 1][..i] == gray[..i];
      if i == 0 || gray[i] < min {
        minAt := i;
      }
      if i == 0 || gray[i] > max {
        maxAt := i;
      }
      min := Min(min, gray[i]);
      max := Max(max, gray[i]);
      sum := sum + gray[i];
    }
    assert gray[..|gray|] == gray;
    var avg: u8 := 0;
    if |gray| > 0 {
      SumBounds(gray, min, max);
      DivBetween(sum, |gray|, min, max);
      avg := sum / |gray|;
    }
    stats := GrayStats(min, max, avg);
  }

  /** `BinaryStats`; the ratio is a real number here, not an `f64`. */
  datatype BinaryStats = BinaryStats(blackPixels: nat, totalPixels: nat, blackRatio: real)

  /** The black cells among the first `n` of row `y`. */
  function RowBlack(g: Grid, y: int, n: nat): nat
    requires Wf(g)
  {
    if n == 0 then 0 else RowBlack(g, y, n - 1) + if Cell(g, n - 1, y) then 1 else 0
  }

  /** The black cells of the first `m` rows. */
  function BlackRows(g: Grid, m: nat): nat
    requires Wf(g)
  {
    if m == 0 then 0 else BlackRows(g, m - 1) + RowBlack(g, m - 1, g.width)
  }

  lemma {:induction false} RowBlackBound(g: Grid, y: int, n: nat)
    requires Wf(g)
    ensures RowBlack(g, y, n) <= n
  {
    if n > 0 {
      RowBlackBound(g, y, n - 1);
    }
  }

  /** A grid never has more black cells than cells. */
  lemma {:induction false} BlackRowsBound(g: Grid, m: nat)
    requires Wf(g)
    ensures BlackRows(g, m) <= m * g.width
  {
    if m > 0 {
      BlackRowsBound(g, m - 1);
      RowBlackBound(g, m - 1, g.width);
      assert m * g.width == (m - 1) * g.width + g.width;
    }
  }

  /** The black cells of a whole grid are at most its cells. */
  lemma BlackCellsBound(g: Grid)
    requires Wf(g)
    ensures BlackRows(g, g.height) <= g.width * g.height
  {
    BlackRowsBound(g, g.height);
    assert g.height * g.width == g.width * g.height;
  }

  /** A new matrix has no black cell. */
  lemma {:induction false} BlankNoBlack(w: nat, h: nat, m: nat)
    ensures BlackRows(Blank(w, h), m) == 0
  {
    if m > 0 {
      BlankNoBlack(w, h, m - 1);
      BlankRowNoBlack(w, h, m - 1, w);
    }
  }

  lemma {:induction false} BlankRowNoBlack(w: nat, h: nat, y: int, n: nat)
    ensures RowBlack(Blank(w, h), y, n) == 0
  {
    if n > 0 {
      BlankRowNoBlack(w, h, y, n - 1);
    }
  }

  /** Blackening a white cell of row `y` adds one to that row's count past it. */
  lemma {:induction false} RowSetBlack(g: Grid, x: nat, y: nat, n: nat)
    requires Wf(g) && InBounds(g, x, y) && !Cell(g, x, y)
    ensures RowBlack(SetCell(g, x, y, true), y, n) == RowBlack(g, y, n) + if x < n then 1 else 0
  {
    if n > 0 {
      RowSetBlack(g, x, y, n - 1);
    }
  }

  /** Blackening a cell of another row leaves a row's count unchanged. */
  lemma {:induction false} RowSetOther(g: Grid, x: nat, y: nat, v: bool, y': int, n: nat)
    requires Wf(g) && y' != y
    ensures RowBlack(SetCell(g, x, y, v), y', n) == RowBlack(g, y', n)
  {
    if n > 0 {
      RowSetOther(g, x, y, v, y', n - 1);
    }
  }

  /** Blackening one white cell adds exactly one black cell. */
  lemma {:induction false} SetBlackAddsOne(g: Grid, x: nat, y: nat, m: nat)
    requires Wf(g) && InBounds(g, x, y) && !Cell(g, x, y)
    ensures BlackRows(SetCell(g, x, y, true), m) == BlackRows(g, m) + if y < m then 1 else 0
  {
    if m > 0 {
      SetBlackAddsOne(g, x, y, m - 1);
      if m - 1 == y {
        RowSetBlack(g, x, y, g.width);
      } else {
        RowSetOther(g, x, y, true, m - 1, g.width);
      }
    }
  }

  /**
   * `binary_stats`: the black cells counted row by row, the number of
   * cells, and their ratio, 0 for an empty matrix.
   */
  method ComputeBinaryStats(binary: BitMatrix) returns (stats: BinaryStats)
    requires binary.Valid()
    ensures stats.totalPixels == binary.width * binary.height
    ensures stats.blackPixels == BlackRows(binary.grid, binary.height) <= stats.totalPixels
    ensures stats.totalPixels == 0 ==> stats.blackRatio == 0.0
    ensures stats.totalPixels > 0 ==> stats.blackRatio * stats.totalPixels as real == stats.blackPixels as real
    ensures 0.0 <= stats.blackRatio <= 1.0
  {
    ghost var g := binary.grid;
    var black := 0;
    for y := 0 to binary.height
      invariant black == BlackRows(g, y)
    {
      var n := CountRowBlack(binary, y);
      black := black + n;
    }
    var total := binary.width * binary.height;
    BlackCellsBound(g);
    stats := BinaryStats(black, total, BlackRatio(black, total));
  }

  /** `black as f64 / total as f64`, or 0 for no cells. */
  function BlackRatio(black: nat, total: nat): (r: real)
    requires black <= total
    ensures total == 0 ==> r == 0.0
    ensures total > 0 ==> r * total as real == black as real
    ensures 0.0 <= r <= 1.0
  {
    if total == 0 then 0.0
    else
      RatioBounds(black, total);
      black as real / total as real
  }

  /** The black cells of row `y`, read one by one. */
  method CountRowBlack(binary: BitMatrix, y: nat) returns (n: nat)
    requires binary.Valid()
    ensures n == RowBlack(binary.grid, y, binary.grid.width)
  {
    n := 0;
    for x := 0 to binary.width
      invariant n == RowBlack(binary.grid, y, x)
    {
      var b := binary.Get(x, y);
      if b {
        n := n + 1;
      }
    }
  }

  /** A count over a positive total is a ratio in [0, 1] that scales back to the count. */
  lemma RatioBounds(count: nat, total: nat)
    requires 0 < total && count <= total
    ensures (count as real / total as real) * total as real == count as real
    ensures 0.0 <= count as real / total as real <= 1.0
  {
  }

  // ---------------------------------------------------------------------
  // Benchmark limit and dataset order
  // ---------------------------------------------------------------------

  /** `usize::MAX` on a 64-bit target. */
  const UsizeMax: nat := 0xFFFF_FFFF_FFFF_FFFF

  /**
   * `bench_limit_from_env` on the value of `QR_BENCH_LIMIT` (`None` when
   * unset): a positive `usize`, or `None` for the whole dataset.
   */
  function BenchLimit(env: Option<string>): (r: Option<nat>)
    ensures r.Some? ==> 0 < r.value <= UsizeMax
    ensures env.None? ==> r.None?
    ensures env.Some? && ParseUnsigned(env.value, UsizeMax).None? ==> r.None?
  {
    match env
    case None => None
    case Some(value) =>
      match ParseUnsigned(value, UsizeMax)
      case None => None
      case Some(v) => if v == 0 then None else Some(v)
  }

  /** Every positive `usize` written in decimal, with or without `+`, is that limit; 0 is no limit. */
  lemma BenchLimitDecimal(n: nat)
    requires n <= UsizeMax
    ensures BenchLimit(Some(Decimal(n))) == if n == 0 then None else Some(n)
    ensures BenchLimit(Some("+" + Decimal(n))) == if n == 0 then None else Some(n)
  {
    ParseDecimal(n, UsizeMax);
  }

  /** Values beyond `usize::MAX`, empty values and non-digits are no limit. */
  lemma BenchLimitInvalid(n: nat, s: string)
    requires n > UsizeMax
    requires exists i :: 0 <= i < |s| && !IsDigit(s[i]) && (i > 0 || s[i] != '+')
    ensures BenchLimit(Some(Decimal(n))) == None
    ensures BenchLimit(Some("")) == None && BenchLimit(Some(s)) == None
  {
    DecimalRoundTrip(n);
  }

  /** A dataset image path, as its components. */
  type Path = seq<string>

  /** `PathBuf`'s order: component by component. */
  function PathLe(a: Path, b: Path): bool
  {
    LexLe(a, b, StrLe)
  }

  lemma PathTotalOrder()
    ensures TotalOrder(PathLe)
  {
    StrTotalOrder();
    forall a: Path, b: Path
      ensures PathLe(a, b) || PathLe(b, a)
    {
      LexTotal(a, b, StrLe);
    }
    forall a: Path, b: Path, c: Path | PathLe(a, b) && PathLe(b, c)
      ensures PathLe(a, c)
    {
      LexTransitive(a, b, c, StrLe);
    }
    forall a: Path, b: Path | PathLe(a, b) && PathLe(b, a)
      ensures a == b
    {
      LexAntisymmetric(a, b, StrLe);
    }
  }

  /**
   * The sort and truncation of `dataset_iter`: the images in path order,
   * the first `limit` of them when a limit is given, and never a kept path
   * after a dropped one.
   */
  function DatasetOrder(images: seq<Path>, limit: Option<nat>): (r: seq<Path>)
    ensures SortedBy(r, PathLe) && multiset(r) <= multiset(images)
    ensures |r| == if limit.Some? && limit.value < |images| then limit.value else |images|
    ensures forall p, q :: p in images && p !in r && q in r ==> PathLe(q, p)
  {
    PathTotalOrder();
    var sorted := SortBy(images, PathLe);
    var n := if limit.Some? && limit.value < |sorted| then limit.value else |sorted|;
    KeptBeforeDropped(sorted, n, images);
    sorted[..n]
  }

  /** The first `n` of a sorted arrangement of `images` come no later than the rest. */
  lemma KeptBeforeDropped(sorted: seq<Path>, n: nat, images: seq<Path>)
    requires TotalOrder(PathLe) && SortedBy(sorted, PathLe) && multiset(sorted) == multiset(images) && n <= |sorted|
    ensures SortedBy(sorted[..n], PathLe) && multiset(sorted[..n]) <= multiset(images)
    ensures forall p, q :: p in images && p !in sorted[..n] && q in sorted[..n] ==> PathLe(q, p)
  {
    assert sorted == sorted[..n] + sorted[n..];
    forall p, q | p in images && p !in sorted[..n] && q in sorted[..n]
      ensures PathLe(q, p)
    {
      assert p in multiset(sorted);
      var j :| 0 <= j < |sorted| && sorted[j] == p;
      var i :| 0 <= i < n && sorted[..n][i] == q;
      assert j >= n;
    }
  }
}
