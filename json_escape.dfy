/**
 * The string escaper the benchmark tool writes its JSON artifact with
 * (src/bin/qrtool.rs, `json_escape`), and the string-literal reading of
 * RFC 8259 section 7 that undoes it.
 */
module JsonEscape {
  import opened Wrappers

  /** A character the escaper rewrites: a quote, a backslash or a C0 control character. */
  predicate NeedsEscape(c: char)
  {
    c == '"' || c == '\\' || (c as int) < 0x20
  }

  /** A lowercase hexadecimal digit. */
  function HexDigit(d: nat): (c: char)
    requires d < 16
  {
    if d < 10 then ('0' as int + d) as char else ('a' as int + d - 10) as char
  }

  /** `{:04x}`: four lowercase hexadecimal digits, most significant first. */
  function Hex4(n: nat): (s: string)
    requires n < 0x10000
    ensures |s| == 4
  {
    [HexDigit(n / 0x1000), HexDigit(n / 0x100 % 16), HexDigit(n / 0x10 % 16), HexDigit(n % 16)]
  }

  /** What one input character becomes in the output. */
  function EscapeChar(c: char): (s: string)
    ensures |s| >= 1
    ensures |s| == 1 <==> !NeedsEscape(c)
    ensures !NeedsEscape(c) ==> s == [c]
  {
    if c == '"' then "\\\""
    else if c == '\\' then "\\\\"
    else if c == '\n' then "\\n"
    else if c == '\r' then "\\r"
    else if c == '\t' then "\\t"
    else if (c as int) < 0x20 then "\\u" + Hex4(c as int)
    else [c]
  }

  /** The escaped form of `s`, character by character. */
  function Escaped(s: string): string
  {
    if |s| == 0 then "" else EscapeChar(s[0]) + Escaped(s[1..])
  }

  lemma {:induction false} EscapedAppend(a: string, b: string)
    ensures Escaped(a + b) == Escaped(a) + Escaped(b)
  {
    if |a| > 0 {
      assert (a + b)[0] == a[0] && (a + b)[1..] == a[1..] + b;
      EscapedAppend(a[1..], b);
    } else {
      assert a + b == b;
    }
  }

  /** `json_escape`: the loop over the input's characters. */
  method Escape(input: string) returns (out: string)
    ensures out == Escaped(input)
  {
    out := "";
    var i := 0;
    while i < |input|
      invariant i <= |input|
      invariant out == Escaped(input[..i])
    {
      var c := input[i];
      ghost var before := out;
      if c == '"' {
        out := out + "\\\"";
      } else if c == '\\' {
        out := out + "\\\\";
      } else if c == '\n' {
        out := out + "\\n";
      } else if c == '\r' {
        out := out + "\\r";
      } else if c == '\t' {
        out := out + "\\t";
      } else if (c as int) < 0x20 {
        out := out + "\\u" + Hex4(c as int);
      } else {
        out := out + [c];
      }
      assert out == before + EscapeChar(c);
      assert input[..i + 1] == input[..i] + [c];
      EscapedAppend(input[..i], [c]);
      i := i + 1;
    }
    assert input[..i] == input;
  }

  /** The value of a hexadecimal digit of either case. */
  function HexValue(c: char): (r: Option<nat>)
    ensures r.Some? ==> r.value < 16
  {
    if '0' <= c <= '9' then Some(c as int - '0' as int)
    else if 'a' <= c <= 'f' then Some(c as int - 'a' as int + 10)
    else if 'A' <= c <= 'F' then Some(c as int - 'A' as int + 10)
    else None
  }

  /** The value of four hexadecimal digits. */
  function HexValue4(s: string): (r: Option<nat>)
    requires |s| == 4
    ensures r.Some? ==> r.value < 0x10000
  {
    match (HexValue(s[0]), HexValue(s[1]), HexValue(s[2]), HexValue(s[3]))
    case (Some(a), Some(b), Some(c), Some(d)) => Some(((a * 16 + b) * 16 + c) * 16 + d)
    case _ => None
  }

  /** The character a two-character escape `\e` stands for. */
  function SimpleEscape(e: char): Option<char>
  {
    if e == '"' then Some('"')
    else if e == '\\' then Some('\\')
    else if e == '/' then Some('/')
    else if e == 'b' then Some(8 as char)
    else if e == 'f' then Some(12 as char)
    else if e == 'n' then Some('\n')
    else if e == 'r' then Some('\r')
    else if e == 't' then Some('\t')
    else None
  }

  function Prepend(c: char, r: Option<string>): Option<string>
  {
    match r
    case None => None
    case Some(s) => Some([c] + s)
  }

  /**
   * The characters the body of a JSON string literal stands for, or None
   * when it is not a valid body: a raw quote or control character, an
   * unknown escape, or a `\u` escape that names a surrogate.
   */
  function Unescape(s: string): (r: Option<string>)
    decreases |s|
  {
    if |s| == 0 then Some("")
    else if s[0] == '"' || (s[0] as int) < 0x20 then None
    else if s[0] != '\\' then Prepend(s[0], Unescape(s[1..]))
    else if |s| == 1 then None
    else if s[1] == 'u' then
      if |s| < 6 then None
      else
        match HexValue4(s[2..6])
        case None => None
        case Some(v) =>
          if 0xD800 <= v < 0xE000 then None else Prepend(v as char, Unescape(s[6..]))
    else
      match SimpleEscape(s[1])
      case None => None
      case Some(c) => Prepend(c, Unescape(s[2..]))
  }

  lemma HexDigitValue(d: nat)
    requires d < 16
    ensures HexValue(HexDigit(d)) == Some(d)
  {
  }

  /** Four digits read back to the value they were written from. */
  lemma Hex4RoundTrip(n: nat)
    requires n < 0x10000
    ensures HexValue4(Hex4(n)) == Some(n)
  {
    var s := Hex4(n);
    HexDigitValue(n / 0x1000);
    HexDigitValue(n / 0x100 % 16);
    HexDigitValue(n / 0x10 % 16);
    HexDigitValue(n % 16);
    assert ((n / 0x1000 * 16 + n / 0x100 % 16) * 16 + n / 0x10 % 16) * 16 + n % 16 == n;
  }

  /** Reading the escape of `c` in front of `t` gives `c` in front of what `t` reads as. */
  lemma UnescapeChar(c: char, t: string)
    ensures Unescape(EscapeChar(c) + t) == Prepend(c, Unescape(t))
  {
    var s := EscapeChar(c) + t;
    if !NeedsEscape(c) {
      assert s[0] == c && s[1..] == t;
    } else if (c as int) < 0x20 && c != '\n' && c != '\r' && c != '\t' {
      assert s[..2] == "\\u" && s[2..6] == Hex4(c as int) && s[6..] == t;
      Hex4RoundTrip(c as int);
    } else {
      assert s[2..] == t;
    }
  }

  /** RFC 8259 reading undoes the escaper: the output is a valid string body that stands for the input. */
  lemma {:induction false} EscapeRoundTrip(s: string)
    ensures Unescape(Escaped(s)) == Some(s)
  {
    if |s| > 0 {
      EscapeRoundTrip(s[1..]);
      UnescapeChar(s[0], Escaped(s[1..]));
      assert s == [s[0]] + s[1..];
    }
  }

  /** Each character contributes at least itself, and exactly itself when it needs no escape. */
  lemma {:induction false} EscapedLength(s: string)
    ensures |Escaped(s)| >= |s|
    ensures |Escaped(s)| == |s| <==> forall i :: 0 <= i < |s| ==> !NeedsEscape(s[i])
  {
    if |s| > 0 {
      EscapedLength(s[1..]);
      if forall i :: 0 <= i < |s| - 1 ==> !NeedsEscape(s[1..][i]) {
        assert forall i :: 0 < i < |s| ==> !NeedsEscape(s[i]) by {
          forall i | 0 < i < |s| ensures !NeedsEscape(s[i]) {
            assert s[i] == s[1..][i - 1];
          }
        }
      } else {
        var k :| 0 <= k < |s| - 1 && NeedsEscape(s[1..][k]);
        assert NeedsEscape(s[k + 1]);
      }
    }
  }

  /** The output equals the input exactly when nothing in it needs escaping. */
  lemma {:induction false} EscapeIdentity(s: string)
    ensures Escaped(s) == s <==> forall i :: 0 <= i < |s| ==> !NeedsEscape(s[i])
  {
    EscapedLength(s);
    if forall i :: 0 <= i < |s| ==> !NeedsEscape(s[i]) {
      PlainUnchanged(s);
    }
  }

  lemma {:induction false} PlainUnchanged(s: string)
    requires forall i :: 0 <= i < |s| ==> !NeedsEscape(s[i])
    ensures Escaped(s) == s
  {
    if |s| > 0 {
      assert !NeedsEscape(s[0]);
      assert forall i :: 0 <= i < |s| - 1 ==> !NeedsEscape(s[1..][i]) by {
        forall i | 0 <= i < |s| - 1 ensures !NeedsEscape(s[1..][i]) {
          assert s[1..][i] == s[i + 1];
        }
      }
      PlainUnchanged(s[1..]);
      assert s == [s[0]] + s[1..];
    }
  }

  /** A sample: a quote, a backslash, a newline and an escape character. */
  lemma EscapeSamples()
    ensures EscapeChar(27 as char) == "\\u001b"
    ensures Escaped("a\"b") == "a\\\"b"
  {
    assert "a\"b"[1..] == "\"b" && "a\"b"[1..][1..] == "b";
  }
}
