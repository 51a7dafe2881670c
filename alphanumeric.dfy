/**
 * Alphanumeric mode (src/decoder/modes/alphanumeric.rs): pairs of
 * characters from 11 bits as value / 45 and value % 45, a trailing single
 * character from 6 bits. A value outside the 45-character table emits
 * nothing but still uses its bits.
 */
module Alphanumeric {
  import opened Wrappers
  import opened Bits

  /** Entry `i` of `ALPHANUMERIC_TABLE`: the digits, the capital letters, then space $ % * + - . / : */
  function TableChar(i: nat): (c: char)
    requires i < 45
  {
    if i < 10 then ('0' as int + i) as char
    else if i < 36 then ('A' as int + (i - 10)) as char
    else Symbols[i - 36]
  }

  const Symbols: seq<char> := " $%*+-./:"

  /** Bits that `n` characters occupy. */
  function AlphanumericBits(n: nat): nat
  {
    11 * (n / 2) + 6 * (n % 2)
  }

  /** The characters an 11-bit pair value emits. */
  function PairText(value: nat): (s: seq<char>)
    ensures |s| == 0 || |s| == 2
  {
    if value / 45 < 45 && value % 45 < 45 then [TableChar(value / 45), TableChar(value % 45)] else []
  }

  /** The character a 6-bit value emits. */
  function SingleText(value: nat): (s: seq<char>)
    ensures |s| <= 1
  {
    if value < 45 then [TableChar(value)] else []
  }

  /** The reference decoding from bit `idx` with `remaining` characters left. */
  function Groups(bits: seq<bool>, idx: nat, remaining: nat): Option<(seq<char>, nat)>
    decreases remaining
  {
    if remaining == 0 then Some(([], idx))
    else if remaining >= 2 then
      if idx + 11 > |bits| then None
      else
        match Groups(bits, idx + 11, remaining - 2)
        case None => None
        case Some((rest, end)) => Some((PairText(PackBits(bits[idx..idx + 11])) + rest, end))
    else
      if idx + 6 > |bits| then None
      else
        match Groups(bits, idx + 6, remaining - 1)
        case None => None
        case Some((rest, end)) => Some((SingleText(PackBits(bits[idx..idx + 6])) + rest, end))
  }

  function Attach(prefix: seq<char>, r: Option<(seq<char>, nat)>): Option<(seq<char>, nat)>
  {
    match r
    case None => None
    case Some((s, e)) => Some((prefix + s, e))
  }

  lemma AttachTwice(a: seq<char>, b: seq<char>, r: Option<(seq<char>, nat)>)
    ensures Attach(a, Attach(b, r)) == Attach(a + b, r)
  {
    if r.Some? {
      assert a + (b + r.value.0) == (a + b) + r.value.0;
    }
  }

  lemma AttachEmpty(r: Option<(seq<char>, nat)>)
    ensures Attach([], r) == r
  {
    if r.Some? {
      assert [] + r.value.0 == r.value.0;
    }
  }

  /** One pair of the reference decoding. */
  lemma PairStep(bits: seq<bool>, idx: nat, remaining: nat)
    requires remaining >= 2 && idx + 11 <= |bits|
    ensures Groups(bits, idx, remaining) == Attach(PairText(PackBits(bits[idx..idx + 11])), Groups(bits, idx + 11, remaining - 2))
  {
  }

  /** The trailing single character of the reference decoding. */
  lemma SingleStep(bits: seq<bool>, idx: nat, remaining: nat)
    requires remaining == 1 && idx + 6 <= |bits|
    ensures Groups(bits, idx, remaining) == Attach(SingleText(PackBits(bits[idx..idx + 6])), Groups(bits, idx + 6, 0))
  {
  }

  /** `AlphanumericDecoder::decode`: the characters and the number of bits used. */
  method Decode(bits: seq<bool>, characterCount: nat) returns (r: Option<(seq<char>, nat)>)
    ensures r == Groups(bits, 0, characterCount)
  {
    var result: seq<char> := [];
    var bitIdx := 0;
    var charsRemaining := characterCount;
    AttachEmpty(Groups(bits, 0, characterCount));
    while charsRemaining > 0
      invariant Groups(bits, 0, characterCount) == Attach(result, Groups(bits, bitIdx, charsRemaining))
    {
      if charsRemaining >= 2 {
        if bitIdx + 11 > |bits| {
          return None;
        }
        var value := ReadValue(bits, bitIdx, 11);
        var firstChar := value / 45;
        var secondChar := value % 45;
        var text: seq<char> := [];
        if firstChar < 45 && secondChar < 45 {
          text := [TableChar(firstChar), TableChar(secondChar)];
        }
        PairStep(bits, bitIdx, charsRemaining);
        AttachTwice(result, text, Groups(bits, bitIdx + 11, charsRemaining - 2));
        result := result + text;
        bitIdx := bitIdx + 11;
        charsRemaining := charsRemaining - 2;
      } else {
        if bitIdx + 6 > |bits| {
          return None;
        }
        var value := ReadValue(bits, bitIdx, 6);
        var text: seq<char> := [];
        if value < 45 {
          text := [TableChar(value)];
        }
        SingleStep(bits, bitIdx, charsRemaining);
        AttachTwice(result, text, Groups(bits, bitIdx + 6, charsRemaining - 1));
        result := result + text;
        bitIdx := bitIdx + 6;
        charsRemaining := charsRemaining - 1;
      }
    }
    r := Some((result, bitIdx));
    assert result + [] == result;
  }

  /** A successful decoding uses exactly `AlphanumericBits(n)` bits and emits at most `n` characters. */
  lemma {:induction false} GroupsConsumed(bits: seq<bool>, idx: nat, n: nat)
    requires Groups(bits, idx, n).Some?
    ensures Groups(bits, idx, n).value.1 == idx + AlphanumericBits(n)
    ensures |Groups(bits, idx, n).value.0| <= n
    decreases n
  {
    if n >= 2 {
      GroupsConsumed(bits, idx + 11, n - 2);
      assert AlphanumericBits(n) == 11 + AlphanumericBits(n - 2);
    } else if n == 1 {
      GroupsConsumed(bits, idx + 6, 0);
    }
  }

  /** Decoding fails exactly when the characters need more bits than remain. */
  lemma {:induction false} GroupsFailIff(bits: seq<bool>, idx: nat, n: nat)
    requires idx <= |bits|
    ensures Groups(bits, idx, n).None? <==> idx + AlphanumericBits(n) > |bits|
    decreases n
  {
    if n >= 2 {
      assert AlphanumericBits(n) == 11 + AlphanumericBits(n - 2);
      if idx + 11 <= |bits| {
        GroupsFailIff(bits, idx + 11, n - 2);
      }
    }
  }

  /** A pair value past the table (45 * 45 and above) emits nothing but still uses 11 bits. */
  lemma OutOfRangePair(bits: seq<bool>, idx: nat, n: nat)
    requires n >= 2 && idx + 11 <= |bits| && PackBits(bits[idx..idx + 11]) >= 45 * 45
    ensures Groups(bits, idx, n) == Groups(bits, idx + 11, n - 2)
  {
    var value := PackBits(bits[idx..idx + 11]);
    assert value / 45 >= 45;
    match Groups(bits, idx + 11, n - 2)
    case None =>
    case Some((rest, end)) =>
      assert PairText(value) + rest == rest;
  }

  /** Eleven bits with a count of two are one pair. */
  lemma OnePair(bits: seq<bool>)
    requires |bits| == 11
    ensures Groups(bits, 0, 2) == Some((PairText(PackBits(bits)), 11))
  {
    assert bits[0..11] == bits;
    assert Groups(bits, 11, 0) == Some(([], 11));
    assert PairText(PackBits(bits)) + [] == PairText(PackBits(bits));
  }

  /** Eleven bits holding 45 * a + b decode to table entries a and b. */
  lemma PairValue(bits: seq<bool>, a: nat, b: nat)
    requires |bits| == 11 && a < 45 && b < 45 && PackBits(bits) == 45 * a + b
    ensures Groups(bits, 0, 2) == Some(([TableChar(a), TableChar(b)], 11))
  {
    OnePair(bits);
    DivModUnique(45 * a + b, 45, a, b);
  }

  /** Encoding two table indices as 45 * a + b in 11 bits decodes to those two characters. */
  lemma PairRoundTrip(a: nat, b: nat)
    requires a < 45 && b < 45
    ensures Groups(UnpackBits(45 * a + b, 11), 0, 2) == Some(([TableChar(a), TableChar(b)], 11))
  {
    var x := 45 * a + b;
    PackUnpack(x, 11);
    assert Pow2(11) == 2048;
    DivModUnique(x, 2048, 0, x);
    PairValue(UnpackBits(x, 11), a, b);
  }

  /** The unit test: 451 in 11 bits decodes to "A1". */
  lemma SampleA1()
    ensures Groups(UnpackBits(451, 11), 0, 2) == Some(("A1", 11))
  {
    PairRoundTrip(10, 1);
  }
}
