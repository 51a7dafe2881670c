/**
 * The slice of Rust's `str` API the label-file and environment parsing
 * rely on: `char::is_whitespace`, `trim`, `split_whitespace`,
 * `eq_ignore_ascii_case`, and the `FromStr` grammars of `usize` and `f64`.
 */
module Text {
  import opened Wrappers

  /** Unicode White_Space, the class `char::is_whitespace` tests. */
  predicate IsSpace(c: char)
  {
    var n := c as int;
    n == 0x20 || 0x09 <= n <= 0x0D || n == 0x85 || n == 0xA0 || n == 0x1680
    || 0x2000 <= n <= 0x200A || n == 0x2028 || n == 0x2029 || n == 0x202F
    || n == 0x205F || n == 0x3000
  }

  predicate AllSpace(s: string)
  {
    forall i :: 0 <= i < |s| ==> IsSpace(s[i])
  }

  /** A token of `split_whitespace`: non-empty, with no whitespace in it. */
  predicate Word(s: string)
  {
    |s| > 0 && forall i :: 0 <= i < |s| ==> !IsSpace(s[i])
  }

  /** The number of leading whitespace characters of `s`. */
  function SpaceRun(s: string): (n: nat)
    ensures n <= |s| && AllSpace(s[..n]) && (n == |s| || !IsSpace(s[n]))
  {
    if |s| == 0 || !IsSpace(s[0]) then 0
    else
      var n := 1 + SpaceRun(s[1..]);
      assert s[..n] == [s[0]] + s[1..][..n - 1];
      n
  }

  /** The number of trailing whitespace characters of `s`. */
  function SpaceRunEnd(s: string): (n: nat)
    ensures n <= |s| && AllSpace(s[|s| - n..]) && (n == |s| || !IsSpace(s[|s| - 1 - n]))
  {
    if |s| == 0 || !IsSpace(s[|s| - 1]) then 0
    else
      var n := 1 + SpaceRunEnd(s[..|s| - 1]);
      assert s[|s| - n..] == s[..|s| - 1][|s| - n..] + [s[|s| - 1]];
      n
  }

  /** `trim`: `s` without its leading and trailing whitespace. */
  function Trim(s: string): (r: string)
    ensures |r| == 0 <==> AllSpace(s)
    ensures |r| == 0 || (!IsSpace(r[0]) && !IsSpace(r[|r| - 1]))
  {
    var t := s[SpaceRun(s)..];
    var r := t[..|t| - SpaceRunEnd(t)];
    assert |t| == 0 ==> s == s[..SpaceRun(s)];
    assert |t| > 0 ==> |r| > 0;
    r
  }

  /** A string with no whitespace at either end trims to itself. */
  lemma TrimKeeps(s: string)
    requires |s| > 0 && !IsSpace(s[0]) && !IsSpace(s[|s| - 1])
    ensures Trim(s) == s
  {
    assert SpaceRun(s) == 0 && s[0..] == s;
    assert SpaceRunEnd(s) == 0 && s[..|s|] == s;
  }

  /** Trimming twice is trimming once. */
  lemma TrimIdempotent(s: string)
    ensures Trim(Trim(s)) == Trim(s)
  {
    if |Trim(s)| > 0 {
      TrimKeeps(Trim(s));
    }
  }

  /** The longest prefix of `s` without whitespace. */
  function WordPrefix(s: string): (w: string)
    ensures |w| <= |s| && w == s[..|w|]
    ensures forall i :: 0 <= i < |w| ==> !IsSpace(w[i])
    ensures |w| == |s| || IsSpace(s[|w|])
  {
    if |s| == 0 || IsSpace(s[0]) then "" else [s[0]] + WordPrefix(s[1..])
  }

  /** `split_whitespace`: the maximal runs of non-whitespace, in order. */
  function Tokens(s: string): (ts: seq<string>)
    ensures forall i :: 0 <= i < |ts| ==> Word(ts[i])
    ensures |ts| == 0 <==> AllSpace(s)
    decreases |s|
  {
    var t := s[SpaceRun(s)..];
    if |t| == 0 then
      assert s == s[..SpaceRun(s)];
      []
    else
      var w := WordPrefix(t);
      assert !AllSpace(s) by {
        assert !IsSpace(s[SpaceRun(s)]);
      }
      [w] + Tokens(t[|w|..])
  }

  /** `words.join(" ")`. */
  function Unwords(words: seq<string>): string
  {
    if |words| == 0 then ""
    else if |words| == 1 then words[0]
    else words[0] + " " + Unwords(words[1..])
  }

  /** A word followed by whitespace or nothing is the word prefix. */
  lemma {:induction false} WordPrefixOf(w: string, rest: string)
    requires forall i :: 0 <= i < |w| ==> !IsSpace(w[i])
    requires |rest| == 0 || IsSpace(rest[0])
    ensures WordPrefix(w + rest) == w
    decreases |w|
  {
    if |w| > 0 {
      assert (w + rest)[1..] == w[1..] + rest;
      WordPrefixOf(w[1..], rest);
      assert [w[0]] + w[1..] == w;
    } else {
      assert w + rest == rest;
    }
  }

  /** One word splits into itself. */
  lemma TokensWord(w: string)
    requires Word(w)
    ensures Tokens(w) == [w]
  {
    WordPrefixOf(w, "");
    assert w + "" == w;
    assert SpaceRun(w) == 0 && w[0..] == w;
    assert w[|w|..] == "";
  }

  /** A word, a space and the rest split into the word and the rest's tokens. */
  lemma TokensCons(w: string, rest: string)
    requires Word(w)
    ensures Tokens(w + " " + rest) == [w] + Tokens(rest)
  {
    var s := w + " " + rest;
    assert s == w + (" " + rest);
    WordPrefixOf(w, " " + rest);
    assert SpaceRun(s) == 0 && s[0..] == s;
    assert s[|w|..] == " " + rest;
    var t := " " + rest;
    assert SpaceRun(t) == 1 + SpaceRun(rest) by {
      assert t[1..] == rest;
    }
    assert t[SpaceRun(t)..] == rest[SpaceRun(rest)..];
  }

  /** Splitting words joined by single spaces gives the words back. */
  lemma {:induction false} TokensUnwords(words: seq<string>)
    requires forall i :: 0 <= i < |words| ==> Word(words[i])
    ensures Tokens(Unwords(words)) == words
  {
    if |words| == 1 {
      TokensWord(words[0]);
    } else if |words| > 1 {
      assert forall i :: 0 <= i < |words| - 1 ==> words[1..][i] == words[i + 1];
      TokensUnwords(words[1..]);
      TokensUnwordsStep(words);
    }
  }

  /** The step of `TokensUnwords`: the first word, then the tokens of the rest. */
  lemma TokensUnwordsStep(words: seq<string>)
    requires |words| > 1 && Word(words[0]) && Tokens(Unwords(words[1..])) == words[1..]
    ensures Tokens(Unwords(words)) == words
  {
    var rest := Unwords(words[1..]);
    assert Unwords(words) == words[0] + " " + rest;
    TokensCons(words[0], rest);
    assert [words[0]] + words[1..] == words;
  }

  /** `to_ascii_lowercase` of one character. */
  function LowerChar(c: char): char
  {
    if 'A' <= c <= 'Z' then (c as int + 32) as char else c
  }

  /** `eq_ignore_ascii_case`: equal once ASCII letters are lower-cased. */
  predicate EqIgnoreAsciiCase(a: string, b: string)
  {
    |a| == |b| && forall i :: 0 <= i < |a| ==> LowerChar(a[i]) == LowerChar(b[i])
  }

  /** ASCII case folding leaves equality of ASCII strings. */
  lemma EqIgnoreAsciiCaseSamples()
    ensures EqIgnoreAsciiCase("SETS", "SETS") && EqIgnoreAsciiCase("sets", "SETS") && EqIgnoreAsciiCase("SeTs", "SETS")
    ensures !EqIgnoreAsciiCase("SET", "SETS") && !EqIgnoreAsciiCase("SETZ", "SETS")
  {
    assert LowerChar('Z') == 'z' && LowerChar('S') == 's';
    assert LowerChar("SETZ"[3]) != LowerChar("SETS"[3]);
  }

  predicate IsDigit(c: char)
  {
    '0' <= c <= '9'
  }

  predicate AllDigits(s: string)
  {
    forall i :: 0 <= i < |s| ==> IsDigit(s[i])
  }

  /** The value of a run of decimal digits (most significant first). */
  function DecimalValue(ds: string): nat
    requires AllDigits(ds)
  {
    if |ds| == 0 then 0
    else DecimalValue(ds[..|ds| - 1]) * 10 + (ds[|ds| - 1] as int - '0' as int)
  }

  /** The shortest decimal notation of `n`. */
  function Decimal(n: nat): (s: string)
    ensures |s| > 0 && AllDigits(s)
  {
    var d := ('0' as int + n % 10) as char;
    if n < 10 then [d] else Decimal(n / 10) + [d]
  }

  /** Reading the notation of `n` gives `n`. */
  lemma {:induction false} DecimalRoundTrip(n: nat)
    ensures DecimalValue(Decimal(n)) == n
  {
    var s := Decimal(n);
    if n >= 10 {
      assert s[..|s| - 1] == Decimal(n / 10);
      DecimalRoundTrip(n / 10);
    }
  }

  /**
   * `str::parse` for an unsigned integer type whose largest value is
   * `max`: an optional `+`, then at least one decimal digit and nothing
   * else, and a value no larger than `max`.
   */
  function ParseUnsigned(s: string, max: nat): (r: Option<nat>)
    ensures r.Some? ==> r.value <= max
    ensures |s| == 0 ==> r.None?
    ensures (exists i :: 0 <= i < |s| && !IsDigit(s[i]) && (i > 0 || s[i] != '+')) ==> r.None?
  {
    var ds := if |s| > 0 && s[0] == '+' then s[1..] else s;
    if |ds| == 0 || !AllDigits(ds) then None
    else
      var v := DecimalValue(ds);
      if v <= max then Some(v) else None
  }

  /** The notation of every representable value parses back to it. */
  lemma ParseDecimal(n: nat, max: nat)
    requires n <= max
    ensures ParseUnsigned(Decimal(n), max) == Some(n)
    ensures ParseUnsigned("+" + Decimal(n), max) == Some(n)
  {
    DecimalRoundTrip(n);
    assert ("+" + Decimal(n))[1..] == Decimal(n);
  }

  /** The number of leading decimal digits of `s`. */
  function DigitRun(s: string): (n: nat)
    ensures n <= |s| && AllDigits(s[..n]) && (n == |s| || !IsDigit(s[n]))
  {
    if |s| == 0 || !IsDigit(s[0]) then 0
    else
      var n := 1 + DigitRun(s[1..]);
      assert s[..n] == [s[0]] + s[1..][..n - 1];
      n
  }

  /** An exponent part: `e` or `E`, an optional sign, at least one digit. */
  predicate IsExponent(s: string)
  {
    && |s| >= 2 && (s[0] == 'e' || s[0] == 'E')
    && var ds := if s[1] == '+' || s[1] == '-' then s[2..] else s[1..];
       |ds| > 0 && AllDigits(ds)
  }

  /** A decimal mantissa with at least one digit around an optional point, then an optional exponent. */
  predicate IsDecimalFloat(u: string)
  {
    var i := DigitRun(u);
    if i < |u| && u[i] == '.' then
      var j := DigitRun(u[i + 1..]);
      i + j > 0 && (i + 1 + j == |u| || IsExponent(u[i + 1 + j..]))
    else
      i > 0 && (i == |u| || IsExponent(u[i..]))
  }

  /**
   * `str::parse::<f64>` succeeds: an optional sign, then `inf`,
   * `infinity` or `nan` in any case, or a decimal number.
   */
  predicate IsFloat(t: string)
  {
    var u := if |t| > 0 && (t[0] == '+' || t[0] == '-') then t[1..] else t;
    EqIgnoreAsciiCase(u, "inf") || EqIgnoreAsciiCase(u, "infinity") || EqIgnoreAsciiCase(u, "nan")
    || IsDecimalFloat(u)
  }

  /** The decimal notation of `n` is a float. */
  lemma IntegerIsFloat(n: nat)
    ensures IsFloat(Decimal(n))
  {
    var a := Decimal(n);
    DigitRunAll(a);
    assert IsDigit(a[0]);
    assert IsDecimalFloat(a);
  }

  /** `n.m` in decimal notation is a float. */
  lemma FractionIsFloat(n: nat, m: nat)
    ensures IsFloat(Decimal(n) + "." + Decimal(m))
  {
    var a := Decimal(n);
    FractionIsDecimal(a, Decimal(m));
    assert (a + "." + Decimal(m))[0] == a[0];
    UnsignedIsFloat(a + "." + Decimal(m));
  }

  /** Digits, a point and digits make a decimal float when there is a digit before the point. */
  lemma FractionIsDecimal(a: string, b: string)
    requires |a| > 0 && AllDigits(a) && AllDigits(b)
    ensures IsDecimalFloat(a + "." + b)
  {
    var s := a + "." + b;
    assert s == a + ("." + b);
    DigitRunPrefix(a, "." + b);
    assert s[|a|] == '.';
    assert s[|a| + 1..] == b;
    DigitRunAll(b);
  }

  /** A decimal float that starts with a digit, and so has no sign, is a float. */
  lemma UnsignedIsFloat(s: string)
    requires |s| > 0 && IsDigit(s[0]) && IsDecimalFloat(s)
    ensures IsFloat(s)
  {
  }

  lemma {:induction false} DigitRunAll(s: string)
    requires AllDigits(s)
    ensures DigitRun(s) == |s|
  {
    if |s| > 0 {
      DigitRunAll(s[1..]);
    }
  }

  lemma {:induction false} DigitRunPrefix(a: string, b: string)
    requires AllDigits(a) && (|b| == 0 || !IsDigit(b[0]))
    ensures DigitRun(a + b) == |a|
  {
    if |a| > 0 {
      assert (a + b)[1..] == a[1..] + b;
      DigitRunPrefix(a[1..], b);
    } else {
      assert a + b == b;
    }
  }

  /** Words `f64` parsing accepts. */
  lemma FloatSamples()
    ensures IsFloat("1.0") && IsFloat("-2.5e3") && IsFloat(".5") && IsFloat("7.")
  {
    assert DigitRun("1.0") == 1 && DigitRun("0") == 1;
    assert DigitRun("2.5e3") == 1 && DigitRun("5e3") == 1;
    assert IsExponent("e3");
    assert DigitRun(".5") == 0 && DigitRun("5") == 1;
    assert DigitRun("7.") == 1 && DigitRun("") == 0;
  }

  /** Infinity and not-a-number, in any case and with a sign. */
  lemma SpecialFloatSamples()
    ensures IsFloat("+inf") && IsFloat("NaN") && IsFloat("-Infinity")
  {
    assert "+inf"[1..] == "inf" && EqIgnoreAsciiCase("inf", "inf");
    assert LowerChar('N') == 'n' && EqIgnoreAsciiCase("NaN", "nan");
    assert "-Infinity"[1..] == "Infinity" && LowerChar('I') == 'i' && EqIgnoreAsciiCase("Infinity", "infinity");
  }

  /** A word is not a float. */
  lemma NonFloatWord()
    ensures !IsFloat("foo")
  {
    assert DigitRun("foo") == 0 && LowerChar('f') == 'f';
  }

  /** Malformed numbers `f64` parsing refuses. */
  lemma NonFloatSamples()
    ensures !IsFloat(".") && !IsFloat("1e") && !IsFloat("") && !IsFloat("1.2.3")
  {
    assert DigitRun(".") == 0 && DigitRun("") == 0;
    assert DigitRun("1e") == 1 && !IsExponent("e");
    assert DigitRun("1.2.3") == 1 && DigitRun("2.3") == 1 && !IsExponent(".3");
  }
}
