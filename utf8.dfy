/**
 * UTF-8 as Rust's standard library reads and writes it (RFC 3629): the
 * strict `String::from_utf8` used by the byte-mode decoder, the lossy
 * `String::from_utf8_lossy` used by the payload parser (one U+FFFD per
 * maximal invalid prefix), and `str::as_bytes`.
 */
module Utf8 {
  import opened Wrappers
  import opened Bits

  /** A continuation byte 10xxxxxx. */
  predicate IsCont(b: int)
  {
    0x80 <= b <= 0xBF
  }

  /** The byte at `i`, or 0 (never a continuation byte) past the end. */
  function ByteAt(b: seq<u8>, i: nat): int
  {
    if i < |b| then b[i] else 0
  }

  /** Length of the sequence a lead byte starts; 0 for a byte no sequence starts with. */
  function Width(b0: int): nat
  {
    if b0 < 0x80 then 1
    else if 0xC2 <= b0 <= 0xDF then 2
    else if 0xE0 <= b0 <= 0xEF then 3
    else if 0xF0 <= b0 <= 0xF4 then 4
    else 0
  }

  /** The range of the second byte after lead `b0`, which rules out overlong forms, surrogates and values past U+10FFFF. */
  function SecondLo(b0: int): int
  {
    if b0 == 0xE0 then 0xA0 else if b0 == 0xF0 then 0x90 else 0x80
  }

  function SecondHi(b0: int): int
  {
    if b0 == 0xED then 0x9F else if b0 == 0xF4 then 0x8F else 0xBF
  }

  /** One decoding step: a scalar value and its length, or the length of a maximal invalid prefix. */
  datatype Step = Scalar(c: char, len: nat) | Invalid(len: nat)

  function StepAt(b: seq<u8>, i: nat): (r: Step)
    requires i < |b|
    ensures 1 <= r.len <= |b| - i
    ensures r.Scalar? ==> r.len == Width(b[i])
  {
    var b0: int := b[i];
    var w := Width(b0);
    if w == 1 then Scalar(b0 as char, 1)
    else if w == 0 then Invalid(1)
    else
      var b1 := ByteAt(b, i + 1);
      if !(SecondLo(b0) <= b1 <= SecondHi(b0)) then Invalid(1)
      else if w == 2 then Scalar(((b0 - 0xC0) * 64 + (b1 - 0x80)) as char, 2)
      else
        var b2 := ByteAt(b, i + 2);
        if !IsCont(b2) then Invalid(2)
        else if w == 3 then Scalar(((b0 - 0xE0) * 4096 + (b1 - 0x80) * 64 + (b2 - 0x80)) as char, 3)
        else
          var b3 := ByteAt(b, i + 3);
          if !IsCont(b3) then Invalid(3)
          else Scalar(((b0 - 0xF0) * 0x40000 + (b1 - 0x80) * 4096 + (b2 - 0x80) * 64 + (b3 - 0x80)) as char, 4)
  }

  /** `String::from_utf8`: None as soon as one sequence is invalid. */
  function Decode(b: seq<u8>): Option<seq<char>>
    decreases |b|
  {
    if |b| == 0 then Some([])
    else
      match StepAt(b, 0)
      case Invalid(_) => None
      case Scalar(c, len) =>
        match Decode(b[len..])
        case None => None
        case Some(rest) => Some([c] + rest)
  }

  /** `String::from_utf8_lossy`: each maximal invalid prefix becomes one U+FFFD. */
  function DecodeLossy(b: seq<u8>): seq<char>
    decreases |b|
  {
    if |b| == 0 then []
    else
      match StepAt(b, 0)
      case Invalid(len) => [0xFFFD as char] + DecodeLossy(b[len..])
      case Scalar(c, len) => [c] + DecodeLossy(b[len..])
  }

  /** The encoding of one scalar value. */
  function EncodeChar(c: char): (r: seq<u8>)
    ensures 1 <= |r| <= 4
  {
    var cp := c as int;
    if cp < 0x80 then [cp]
    else if cp < 0x800 then [0xC0 + cp / 64, 0x80 + cp % 64]
    else if cp < 0x10000 then [0xE0 + cp / 4096, 0x80 + (cp / 64) % 64, 0x80 + cp % 64]
    else [0xF0 + cp / 0x40000, 0x80 + (cp / 4096) % 64, 0x80 + (cp / 64) % 64, 0x80 + cp % 64]
  }

  /** `str::as_bytes`. */
  function Encode(s: seq<char>): seq<u8>
  {
    if |s| == 0 then [] else EncodeChar(s[0]) + Encode(s[1..])
  }

  /** Every character is ASCII. */
  predicate IsAscii(s: seq<char>)
  {
    forall i :: 0 <= i < |s| ==> s[i] as int < 0x80
  }

  /** The bytes of an ASCII string are its code points. */
  lemma {:induction false} EncodeAscii(s: seq<char>)
    requires IsAscii(s)
    ensures |Encode(s)| == |s|
    ensures forall i :: 0 <= i < |s| ==> Encode(s)[i] == s[i] as int
  {
    if |s| > 0 {
      EncodeAscii(s[1..]);
    }
  }

  lemma {:induction false} EncodeAppend(s: seq<char>, t: seq<char>)
    ensures Encode(s + t) == Encode(s) + Encode(t)
  {
    if |s| > 0 {
      EncodeAppend(s[1..], t);
      assert (s + t)[0] == s[0];
      assert (s + t)[1..] == s[1..] + t;
      assert Encode(s + t) == EncodeChar(s[0]) + (Encode(s[1..]) + Encode(t));
    } else {
      assert s + t == t;
    }
  }

  /** The three-byte encoding of `cp` decodes back to `cp`. */
  lemma Encode3(cp: int)
    requires 0x800 <= cp < 0x10000 && !(0xD800 <= cp < 0xE000)
    ensures Width(0xE0 + cp / 4096) == 3
    ensures SecondLo(0xE0 + cp / 4096) <= 0x80 + (cp / 64) % 64 <= SecondHi(0xE0 + cp / 4096)
    ensures IsCont(0x80 + cp % 64)
    ensures (cp / 4096) * 4096 + ((cp / 64) % 64) * 64 + cp % 64 == cp
  {
    var a, r := cp / 4096, cp % 4096;
    var m, l := r / 64, r % 64;
    DivModUnique(cp, 64, a * 64 + m, l);
    DivModUnique(cp / 64, 64, a, m);
  }

  /** The four-byte encoding of `cp` decodes back to `cp`. */
  lemma Encode4(cp: int)
    requires 0x10000 <= cp < 0x110000
    ensures Width(0xF0 + cp / 0x40000) == 4
    ensures SecondLo(0xF0 + cp / 0x40000) <= 0x80 + (cp / 4096) % 64 <= SecondHi(0xF0 + cp / 0x40000)
    ensures IsCont(0x80 + (cp / 64) % 64) && IsCont(0x80 + cp % 64)
    ensures (cp / 0x40000) * 0x40000 + ((cp / 4096) % 64) * 4096 + ((cp / 64) % 64) * 64 + cp % 64 == cp
  {
    var a, r := cp / 0x40000, cp % 0x40000;
    var h, r' := r / 4096, r % 4096;
    var m, l := r' / 64, r' % 64;
    DivModUnique(cp, 64, a * 4096 + h * 64 + m, l);
    DivModUnique(cp / 64, 64, a * 64 + h, m);
    DivModUnique(cp, 4096, a * 64 + h, r');
    DivModUnique(cp / 4096, 64, a, h);
  }

  /** Decoding the encoding of `c` in front of anything reads `c` back. */
  lemma EncodeCharStep(c: char, rest: seq<u8>)
    ensures StepAt(EncodeChar(c) + rest, 0) == Scalar(c, |EncodeChar(c)|)
  {
    var cp := c as int;
    if cp >= 0x10000 {
      Encode4(cp);
    } else if cp >= 0x800 {
      Encode3(cp);
    }
  }

  /** A two-byte step reads back its own bytes. */
  lemma Decode2(b0: int, b1: int)
    requires 0xC2 <= b0 <= 0xDF && IsCont(b1)
    ensures ((b0 - 0xC0) * 64 + (b1 - 0x80)) / 64 == b0 - 0xC0
    ensures ((b0 - 0xC0) * 64 + (b1 - 0x80)) % 64 == b1 - 0x80
  {
    DivModUnique((b0 - 0xC0) * 64 + (b1 - 0x80), 64, b0 - 0xC0, b1 - 0x80);
  }

  /** A three-byte step reads back its own bytes. */
  lemma Decode3(b0: int, b1: int, b2: int)
    requires 0xE0 <= b0 <= 0xEF && IsCont(b1) && IsCont(b2)
    ensures ((b0 - 0xE0) * 4096 + (b1 - 0x80) * 64 + (b2 - 0x80)) / 4096 == b0 - 0xE0
    ensures (((b0 - 0xE0) * 4096 + (b1 - 0x80) * 64 + (b2 - 0x80)) / 64) % 64 == b1 - 0x80
    ensures ((b0 - 0xE0) * 4096 + (b1 - 0x80) * 64 + (b2 - 0x80)) % 64 == b2 - 0x80
  {
    var cp := (b0 - 0xE0) * 4096 + (b1 - 0x80) * 64 + (b2 - 0x80);
    DivModUnique(cp, 4096, b0 - 0xE0, (b1 - 0x80) * 64 + (b2 - 0x80));
    DivModUnique(cp, 64, (b0 - 0xE0) * 64 + (b1 - 0x80), b2 - 0x80);
    DivModUnique(cp / 64, 64, b0 - 0xE0, b1 - 0x80);
  }

  /** A four-byte step reads back its own bytes. */
  lemma Decode4(b0: int, b1: int, b2: int, b3: int)
    requires 0xF0 <= b0 <= 0xF4 && IsCont(b1) && IsCont(b2) && IsCont(b3)
    ensures ((b0 - 0xF0) * 0x40000 + (b1 - 0x80) * 4096 + (b2 - 0x80) * 64 + (b3 - 0x80)) / 0x40000 == b0 - 0xF0
    ensures (((b0 - 0xF0) * 0x40000 + (b1 - 0x80) * 4096 + (b2 - 0x80) * 64 + (b3 - 0x80)) / 4096) % 64 == b1 - 0x80
    ensures (((b0 - 0xF0) * 0x40000 + (b1 - 0x80) * 4096 + (b2 - 0x80) * 64 + (b3 - 0x80)) / 64) % 64 == b2 - 0x80
    ensures ((b0 - 0xF0) * 0x40000 + (b1 - 0x80) * 4096 + (b2 - 0x80) * 64 + (b3 - 0x80)) % 64 == b3 - 0x80
  {
    var cp := (b0 - 0xF0) * 0x40000 + (b1 - 0x80) * 4096 + (b2 - 0x80) * 64 + (b3 - 0x80);
    DivModUnique(cp, 0x40000, b0 - 0xF0, (b1 - 0x80) * 4096 + (b2 - 0x80) * 64 + (b3 - 0x80));
    DivModUnique(cp, 4096, (b0 - 0xF0) * 64 + (b1 - 0x80), (b2 - 0x80) * 64 + (b3 - 0x80));
    DivModUnique(cp / 4096, 64, b0 - 0xF0, b1 - 0x80);
    DivModUnique(cp, 64, ((b0 - 0xF0) * 64 + (b1 - 0x80)) * 64 + (b2 - 0x80), b3 - 0x80);
    DivModUnique(cp / 64, 64, (b0 - 0xF0) * 64 + (b1 - 0x80), b2 - 0x80);
  }

  /** A scalar step reads back exactly the bytes the value encodes to. */
  lemma StepEncodes(b: seq<u8>)
    requires |b| > 0 && StepAt(b, 0).Scalar?
    ensures EncodeChar(StepAt(b, 0).c) == b[..StepAt(b, 0).len]
  {
    var b0: int := b[0];
    if Width(b0) == 2 {
      Decode2(b0, b[1]);
    } else if Width(b0) == 3 {
      Decode3(b0, b[1], b[2]);
    } else if Width(b0) == 4 {
      Decode4(b0, b[1], b[2], b[3]);
    }
  }

  /** Strict decoding inverts `as_bytes`. */
  lemma {:induction false} DecodeEncode(s: seq<char>)
    ensures Decode(Encode(s)) == Some(s)
  {
    if |s| > 0 {
      var e := EncodeChar(s[0]);
      EncodeCharStep(s[0], Encode(s[1..]));
      DecodeEncode(s[1..]);
      assert (e + Encode(s[1..]))[|e|..] == Encode(s[1..]);
      assert [s[0]] + s[1..] == s;
    }
  }

  /** A successful strict decode starts with a scalar step. */
  lemma DecodeScalar(b: seq<u8>)
    requires |b| > 0 && Decode(b).Some?
    ensures StepAt(b, 0).Scalar? && Decode(b[StepAt(b, 0).len..]).Some?
    ensures Decode(b).value == [StepAt(b, 0).c] + Decode(b[StepAt(b, 0).len..]).value
  {
  }

  /** Whatever strict decoding accepts encodes back to the same bytes. */
  lemma {:induction false} EncodeDecode(b: seq<u8>)
    requires Decode(b).Some?
    ensures Encode(Decode(b).value) == b
  {
    if |b| > 0 {
      DecodeScalar(b);
      EncodeDecode(b[StepAt(b, 0).len..]);
      EncodeDecodeStep(b);
    }
  }

  /** The step of `EncodeDecode`: the first scalar's bytes, then the rest's. */
  lemma EncodeDecodeStep(b: seq<u8>)
    requires |b| > 0 && Decode(b).Some?
    requires StepAt(b, 0).Scalar? && Decode(b[StepAt(b, 0).len..]).Some?
    requires Encode(Decode(b[StepAt(b, 0).len..]).value) == b[StepAt(b, 0).len..]
    ensures Encode(Decode(b).value) == b
  {
    var st := StepAt(b, 0);
    DecodeScalar(b);
    StepEncodes(b);
    var tail := Decode(b[st.len..]).value;
    var s := [st.c] + tail;
    assert s[0] == st.c && s[1..] == tail;
    assert Encode(s) == EncodeChar(st.c) + Encode(tail);
    assert b == b[..st.len] + b[st.len..];
  }

  /** On valid input the lossy decoder agrees with the strict one. */
  lemma {:induction false} LossyAgrees(b: seq<u8>)
    requires Decode(b).Some?
    ensures DecodeLossy(b) == Decode(b).value
  {
    if |b| > 0 {
      LossyAgrees(b[StepAt(b, 0).len..]);
    }
  }

  /** On invalid input the lossy decoder emits at least one U+FFFD. */
  lemma {:induction false} LossyMarksInvalid(b: seq<u8>)
    requires Decode(b).None?
    ensures 0xFFFD as char in DecodeLossy(b)
  {
    var st := StepAt(b, 0);
    if st.Scalar? {
      LossyMarksInvalid(b[st.len..]);
    }
  }

  /** ASCII bytes decode, strictly and lossily, to the same code points. */
  lemma {:induction false} DecodeAscii(b: seq<u8>)
    requires forall i :: 0 <= i < |b| ==> b[i] < 0x80
    ensures Decode(b).Some? && |Decode(b).value| == |b|
    ensures forall i :: 0 <= i < |b| ==> Decode(b).value[i] as int == b[i]
  {
    if |b| > 0 {
      DecodeAscii(b[1..]);
    }
  }
}
