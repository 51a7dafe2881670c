/**
 * The data-segment parser of src/decoder/qr_decoder/payload.rs: a bit
 * reader over the data codewords' bits, the character-count widths, and
 * the loop that reads a 4-bit mode indicator and one segment after another
 * until the terminator (mode 0) or fewer than four bits remain.
 *
 * Mode 1 (numeric) and 2 (alphanumeric) hand the rest of the bits to the
 * mode decoders and skip the bits they used; mode 4 (byte) reads `count`
 * bytes and keeps them as data, with a lossy UTF-8 rendering as text;
 * mode 7 (ECI) reads a one-, two- or three-byte designator and ignores it;
 * mode 8 (Kanji) turns 13-bit values into Shift JIS byte pairs. Any other
 * mode fails the whole payload.
 */
module Payload {
  import opened Wrappers
  import opened Bits
  import Utf8
  import Numeric
  import Alphanumeric
  import ByteMode

  /** `0x1_0000_0000`: `read_bits` accumulates in a `u32`. */
  const Word: nat := 0x1_0000_0000

  /** `BitReader`: a cursor over a fixed bit sequence. */
  class BitReader {
    const bits: seq<bool>
    var idx: nat

    predicate Valid()
      reads this
    {
      idx <= |bits|
    }

    /** `BitReader::new`. */
    constructor (bits: seq<bool>)
      ensures this.bits == bits && idx == 0 && Valid()
    {
      this.bits := bits;
      idx := 0;
    }

    /** `remaining`: the bits after the cursor, or 0 past the end. */
    function Remaining(): (r: nat)
      reads this
      ensures idx <= |bits| ==> r + idx == |bits|
      ensures idx > |bits| ==> r == 0
    {
      SatSub(|bits|, idx)
    }

    /** `advance`: move the cursor by `n`, stopping at the end. */
    method Advance(n: nat)
      modifies this
      ensures idx == Min(old(idx) + n, |bits|)
      ensures old(Valid()) ==> Valid()
    {
      idx := Min(idx + n, |bits|);
    }

    /**
     * `read_bits`: None, and the cursor unmoved, when fewer than `n` bits
     * remain; otherwise the next `n` bits, first one most significant,
     * reduced modulo 2^32 as `(val << 1) | bit` on a `u32` does.
     */
    method ReadBits(n: nat) returns (r: Option<u32>)
      modifies this
      ensures old(idx) + n > |bits| ==> r == None && idx == old(idx)
      ensures old(idx) + n <= |bits| ==>
        r == Some(PackBits(bits[old(idx)..old(idx) + n]) % Word) && idx == old(idx) + n
    {
      if idx + n > |bits| {
        return None;
      }
      ghost var start := idx;
      ghost var cells := bits[start..start + n];
      var val: u32 := 0;
      for k := 0 to n
        invariant idx == start + k
        invariant val == PackBits(cells[..k]) % Word
      {
        PackBitsStep(cells, k);
        WrapStep(PackBits(cells[..k]), bits[idx]);
        val := (2 * val) % Word + BitValue(bits[idx]);
        idx := idx + 1;
      }
      assert cells[..n] == cells;
      r := Some(val);
    }
  }

  /** Shifting left by one in a `u32` and setting bit 0 is the 2^32-residue of `2x + bit`. */
  lemma WrapStep(x: nat, b: bool)
    ensures (2 * (x % Word)) % Word + BitValue(b) == (2 * x + BitValue(b)) % Word
    ensures (2 * (x % Word)) % Word + BitValue(b) < Word
  {
    var q := x / Word;
    var r := x % Word;
    var t := (2 * r) / Word;
    var s := (2 * r) % Word;
    assert t == 0 || t == 1;
    assert s + BitValue(b) < Word;
    DivModUnique(2 * x + BitValue(b), Word, 2 * q + t, s + BitValue(b));
  }

  /** Reads of at most 16 bits, the widest the parser makes, do not wrap. */
  lemma NoWrap(s: seq<bool>)
    requires |s| <= 16
    ensures PackBits(s) % Word == PackBits(s)
  {
    PackBitsBound(s);
    Pow2Mono(|s|, 16);
    assert Pow2(8) == 0x100;
    assert Pow2(16) == 0x1_0000;
  }

  lemma {:induction false} Pow2Mono(a: nat, b: nat)
    requires a <= b
    ensures Pow2(a) <= Pow2(b)
    decreases b
  {
    if a < b {
      Pow2Mono(a, b - 1);
    }
  }

  /** `char_count_bits`: the width of a segment's character count. */
  function CharCountBits(mode: nat, version: u8): (r: nat)
    ensures r <= 16
    ensures r == 0 <==> !(mode == 1 || mode == 2 || mode == 4)
  {
    if mode == 1 then (if version <= 9 then 10 else if version <= 26 then 12 else 14)
    else if mode == 2 then (if version <= 9 then 9 else if version <= 26 then 11 else 13)
    else if mode == 4 then (if version <= 9 then 8 else 16)
    else 0
  }

  /**
   * The count widths agree with Table 3 of ISO/IEC 18004 for the three
   * version ranges 1-9, 10-26 and 27-40, and never shrink as the version
   * grows.
   */
  lemma CharCountTable(mode: nat, v: u8, w: u8)
    requires v <= w
    ensures CharCountBits(mode, v) <= CharCountBits(mode, w)
    ensures 1 <= v <= 9 ==> CharCountBits(1, v) == 10 && CharCountBits(2, v) == 9 && CharCountBits(4, v) == 8
    ensures 10 <= v <= 26 ==> CharCountBits(1, v) == 12 && CharCountBits(2, v) == 11 && CharCountBits(4, v) == 16
    ensures 27 <= v <= 40 ==> CharCountBits(1, v) == 14 && CharCountBits(2, v) == 13 && CharCountBits(4, v) == 16
  {
  }

  /** Kanji (mode 8) has no count width here, so its count is always 0. */
  lemma KanjiCountIsEmpty(v: u8)
    ensures CharCountBits(8, v) == 0
  {
  }

  /** A numeric or alphanumeric decoding as a segment: its UTF-8 bytes, its text and the cursor after it. */
  function TextSegment(bits: seq<bool>, start: nat, decoded: Option<(seq<char>, nat)>): (r: Option<(seq<u8>, seq<char>, nat)>)
    requires start <= |bits|
    ensures r.Some? ==> start <= r.value.2 <= |bits|
    ensures r.Some? <==> decoded.Some?
  {
    match decoded
    case None => None
    case Some((s, used)) => Some((Utf8.Encode(s), s, Min(start + used, |bits|)))
  }

  /** A byte segment: `count` bytes, kept as data and rendered as lossy UTF-8. */
  function ByteSegment(bits: seq<bool>, start: nat, count: nat): (r: Option<(seq<u8>, seq<char>, nat)>)
    requires start <= |bits|
    ensures r.Some? <==> start + 8 * count <= |bits|
  {
    if start + 8 * count > |bits| then None
    else
      var bytes := ByteMode.Bytes(bits[start..], count);
      Some((bytes, Utf8.DecodeLossy(bytes), start + 8 * count))
  }

  /** The cursor after an ECI designator of one, two or three bytes, chosen by the first byte's top bits. */
  function EciEnd(bits: seq<bool>, i: nat): (r: Option<nat>)
    requires i <= |bits|
  {
    if i + 8 > |bits| then None
    else
      var first := PackBits(bits[i..i + 8]);
      if (first / 0x80) % 2 == 0 then Some(i + 8)
      else if i + 16 > |bits| then None
      else
        var eci := (first % 0x80) * 0x100 + PackBits(bits[i + 8..i + 16]);
        if (eci / 0x4000) % 2 == 0 then Some(i + 16)
        else if i + 24 > |bits| then None
        else Some(i + 24)
  }

  /** The Shift JIS code a 13-bit Kanji value stands for: 0xC0 * high + low, shifted back into one of two ranges. */
  function KanjiCode(value: nat): (code: nat)
    requires value < 0x2000
    ensures code < 0x1_0000
  {
    var intermediate := (value / 0xC0) * 0x100 + value % 0xC0;
    if intermediate < 0x1F00 then intermediate + 0x8140 else intermediate + 0xC140
  }

  /** The code as two bytes, high byte first. */
  function KanjiPair(value: nat): (r: seq<u8>)
    requires value < 0x2000
    ensures |r| == 2
  {
    [KanjiCode(value) / 0x100, KanjiCode(value) % 0x100]
  }

  /** The 13-bit value at bit `i`. */
  function KanjiValue(bits: seq<bool>, i: nat): (r: nat)
    requires i + 13 <= |bits|
    ensures r < 0x2000
  {
    PackBitsBound(bits[i..i + 13]);
    assert Pow2(13) == 0x2000;
    PackBits(bits[i..i + 13])
  }

  /** The Shift JIS bytes of `count` Kanji values from bit `i`. */
  function KanjiBytes(bits: seq<bool>, i: nat, count: nat): (r: seq<u8>)
    requires i + 13 * count <= |bits|
    ensures |r| == 2 * count
  {
    if count == 0 then []
    else KanjiBytes(bits, i, count - 1) + KanjiPair(KanjiValue(bits, i + 13 * (count - 1)))
  }

  function KanjiSegment(bits: seq<bool>, start: nat, count: nat): (r: Option<(seq<u8>, seq<char>, nat)>)
    requires start <= |bits|
    ensures r.Some? <==> start + 13 * count <= |bits|
  {
    if start + 13 * count > |bits| then None
    else
      var bytes := KanjiBytes(bits, start, count);
      Some((bytes, Utf8.DecodeLossy(bytes), start + 13 * count))
  }

  /**
   * One segment after its mode indicator, which ended at `i`: its data
   * bytes, its text and the cursor after it, or None when it fails.
   */
  function Segment(bits: seq<bool>, version: u8, i: nat, mode: nat): (r: Option<(seq<u8>, seq<char>, nat)>)
    requires i <= |bits|
    ensures r.Some? ==> i <= r.value.2 <= |bits|
  {
    if mode == 1 || mode == 2 || mode == 4 || mode == 8 then
      var width := CharCountBits(mode, version);
      if i + width > |bits| then None
      else
        var count := PackBits(bits[i..i + width]);
        var start := i + width;
        if mode == 1 then TextSegment(bits, start, Numeric.Groups(bits[start..], 0, count))
        else if mode == 2 then TextSegment(bits, start, Alphanumeric.Groups(bits[start..], 0, count))
        else if mode == 4 then ByteSegment(bits, start, count)
        else KanjiSegment(bits, start, count)
    else if mode == 7 then
      match EciEnd(bits, i)
      case None => None
      case Some(next) => Some(([], [], next))
    else None
  }

  /** Data and text in front of a parse result. */
  function Prepend(data: seq<u8>, text: seq<char>, r: Option<(seq<u8>, seq<char>)>): Option<(seq<u8>, seq<char>)>
  {
    match r
    case None => None
    case Some((d, t)) => Some((data + d, text + t))
  }

  lemma PrependTwice(d1: seq<u8>, t1: seq<char>, d2: seq<u8>, t2: seq<char>, r: Option<(seq<u8>, seq<char>)>)
    ensures Prepend(d1, t1, Prepend(d2, t2, r)) == Prepend(d1 + d2, t1 + t2, r)
  {
    if r.Some? {
      assert d1 + (d2 + r.value.0) == (d1 + d2) + r.value.0;
      assert t1 + (t2 + r.value.1) == (t1 + t2) + r.value.1;
    }
  }

  lemma PrependEmpty(r: Option<(seq<u8>, seq<char>)>)
    ensures Prepend([], [], r) == r
  {
    if r.Some? {
      assert [] + r.value.0 == r.value.0;
      assert [] + r.value.1 == r.value.1;
    }
  }

  lemma PrependDone(data: seq<u8>, text: seq<char>)
    ensures Prepend(data, text, Some(([], []))) == Some((data, text))
  {
    assert data + [] == data && text + [] == text;
  }

  /** The reference parse of the segments from bit `i`: all data bytes and all text, or None. */
  function Parse(bits: seq<bool>, version: u8, i: nat): Option<(seq<u8>, seq<char>)>
    requires i <= |bits|
    decreases |bits| - i
  {
    if |bits| - i < 4 then Some(([], []))
    else
      var mode := PackBits(bits[i..i + 4]);
      if mode == 0 then Some(([], []))
      else
        match Segment(bits, version, i + 4, mode)
        case None => None
        case Some((d, t, next)) => Prepend(d, t, Parse(bits, version, next))
  }

  /** A method's segment result and cursor agree with a reference segment. */
  predicate Matches(r: Option<(seq<u8>, seq<char>)>, cursor: nat, spec: Option<(seq<u8>, seq<char>, nat)>)
  {
    match spec
    case None => r.None?
    case Some((d, t, next)) => r == Some((d, t)) && cursor == next
  }

  /** Reads a character count of `width <= 16` bits. */
  method ReadCount(reader: BitReader, width: nat) returns (r: Option<nat>)
    requires reader.Valid() && width <= 16
    modifies reader
    ensures reader.Valid()
    ensures old(reader.idx) + width > |reader.bits| ==> r.None?
    ensures old(reader.idx) + width <= |reader.bits| ==>
      r == Some(PackBits(reader.bits[old(reader.idx)..old(reader.idx) + width])) && reader.idx == old(reader.idx) + width
    ensures r.Some? ==> r.value < Pow2(width)
  {
    var c := reader.ReadBits(width);
    if c.None? {
      return None;
    }
    NoWrap(reader.bits[old(reader.idx)..old(reader.idx) + width]);
    PackBitsBound(reader.bits[old(reader.idx)..old(reader.idx) + width]);
    r := Some(c.value);
  }

  /** Modes 1 and 2: the count, then the mode decoder on the rest of the bits. */
  method ReadText(reader: BitReader, version: u8, mode: nat) returns (r: Option<(seq<u8>, seq<char>)>)
    requires mode == 1 || mode == 2
    requires reader.Valid()
    modifies reader
    ensures reader.Valid()
    ensures Matches(r, reader.idx, Segment(reader.bits, version, old(reader.idx), mode))
  {
    var bits := reader.bits;
    ghost var at := reader.idx;
    var c := ReadCount(reader, CharCountBits(mode, version));
    if c.None? {
      return None;
    }
    var count := c.value;
    var start := reader.idx;
    var decoded;
    if mode == 1 {
      decoded := Numeric.Decode(bits[start..], count);
    } else {
      decoded := Alphanumeric.Decode(bits[start..], count);
    }
    assert Segment(bits, version, at, mode) == TextSegment(bits, start, decoded);
    if decoded.None? {
      return None;
    }
    var text := decoded.value.0;
    var used := decoded.value.1;
    reader.Advance(used);
    r := Some((Utf8.Encode(text), text));
  }

  /** Mode 4: the count, then the bytes. */
  method ReadBytes(reader: BitReader, version: u8) returns (r: Option<(seq<u8>, seq<char>)>)
    requires reader.Valid()
    modifies reader
    ensures reader.Valid()
    ensures Matches(r, reader.idx, Segment(reader.bits, version, old(reader.idx), 4))
  {
    var c := ReadCount(reader, CharCountBits(4, version));
    if c.None? {
      return None;
    }
    ghost var start := reader.idx;
    var bytes := ReadByteValues(reader, c.value);
    if bytes.None? {
      return None;
    }
    SliceBytes(reader.bits, start, c.value);
    r := Some((bytes.value, Utf8.DecodeLossy(bytes.value)));
  }

  /** `count` 8-bit reads. */
  method ReadByteValues(reader: BitReader, count: nat) returns (r: Option<seq<u8>>)
    requires reader.Valid()
    modifies reader
    ensures reader.Valid()
    ensures old(reader.idx) + 8 * count > |reader.bits| ==> r.None?
    ensures old(reader.idx) + 8 * count <= |reader.bits| ==>
      r == Some(Octets(reader.bits, old(reader.idx), count)) && reader.idx == old(reader.idx) + 8 * count
  {
    var bits := reader.bits;
    ghost var start := reader.idx;
    var bytes: seq<u8> := [];
    for k := 0 to count
      invariant reader.Valid() && reader.idx == start + 8 * k
      invariant bytes == Octets(bits, start, k)
    {
      var b := ReadCount(reader, 8);
      if b.None? {
        return None;
      }
      assert b.value == Octet(bits, start + 8 * k);
      var byte: u8 := b.value;
      bytes := bytes + [byte];
    }
    r := Some(bytes);
  }

  /** The `count` octets from bit `start`. */
  function Octets(bits: seq<bool>, start: nat, count: nat): (r: seq<u8>)
    requires start + 8 * count <= |bits|
    ensures |r| == count
  {
    if count == 0 then [] else Octets(bits, start, count - 1) + [Octet(bits, start + 8 * (count - 1))]
  }

  /** The bytes of a suffix are the octets read from the suffix's start. */
  lemma {:induction false} SliceBytes(bits: seq<bool>, start: nat, count: nat)
    requires start + 8 * count <= |bits|
    ensures ByteMode.Bytes(bits[start..], count) == Octets(bits, start, count)
  {
    forall j | 0 <= j < count
      ensures Octets(bits, start, count)[j] == Octet(bits[start..], 8 * j)
    {
      OctetsAt(bits, start, count, j);
      assert bits[start..][8 * j..8 * j + 8] == bits[start + 8 * j..start + 8 * j + 8];
    }
  }

  lemma {:induction false} OctetsAt(bits: seq<bool>, start: nat, count: nat, j: nat)
    requires start + 8 * count <= |bits| && j < count
    ensures Octets(bits, start, count)[j] == Octet(bits, start + 8 * j)
  {
    if j < count - 1 {
      OctetsAt(bits, start, count - 1, j);
    }
  }

  /** Mode 7: an ECI designator, read and ignored. */
  method ReadEci(reader: BitReader, version: u8) returns (r: Option<(seq<u8>, seq<char>)>)
    requires reader.Valid()
    modifies reader
    ensures reader.Valid()
    ensures Matches(r, reader.idx, Segment(reader.bits, version, old(reader.idx), 7))
  {
    var e := ReadCount(reader, 8);
    if e.None? {
      return None;
    }
    var eci := e.value;
    if eci / 0x80 % 2 != 0 {
      var second := ReadCount(reader, 8);
      if second.None? {
        return None;
      }
      eci := (eci % 0x80) * 0x100 + second.value;
      if eci / 0x4000 % 2 != 0 {
        var third := ReadCount(reader, 8);
        if third.None? {
          return None;
        }
      }
    }
    r := Some(([], []));
  }

  /** Mode 8: the count, then the Kanji values. */
  method ReadKanji(reader: BitReader, version: u8) returns (r: Option<(seq<u8>, seq<char>)>)
    requires reader.Valid()
    modifies reader
    ensures reader.Valid()
    ensures Matches(r, reader.idx, Segment(reader.bits, version, old(reader.idx), 8))
  {
    var c := ReadCount(reader, CharCountBits(8, version));
    if c.None? {
      return None;
    }
    var sjis := ReadKanjiValues(reader, c.value);
    if sjis.None? {
      return None;
    }
    r := Some((sjis.value, Utf8.DecodeLossy(sjis.value)));
  }

  /** `count` 13-bit values, each turned into a Shift JIS pair. */
  method ReadKanjiValues(reader: BitReader, count: nat) returns (r: Option<seq<u8>>)
    requires reader.Valid()
    modifies reader
    ensures reader.Valid()
    ensures old(reader.idx) + 13 * count > |reader.bits| ==> r.None?
    ensures old(reader.idx) + 13 * count <= |reader.bits| ==>
      r == Some(KanjiBytes(reader.bits, old(reader.idx), count)) && reader.idx == old(reader.idx) + 13 * count
  {
    var bits := reader.bits;
    ghost var start := reader.idx;
    var sjis: seq<u8> := [];
    for k := 0 to count
      invariant reader.Valid() && reader.idx == start + 13 * k
      invariant sjis == KanjiBytes(bits, start, k)
    {
      var v := ReadCount(reader, 13);
      if v.None? {
        return None;
      }
      var value := v.value;
      assert value == KanjiValue(bits, start + 13 * k);
      var pair := ShiftJisPair(value);
      sjis := sjis + pair;
    }
    r := Some(sjis);
  }

  /** One 13-bit value to its two Shift JIS bytes, through the intermediate code. */
  method ShiftJisPair(value: nat) returns (pair: seq<u8>)
    requires value < 0x2000
    ensures pair == KanjiPair(value)
  {
    var intermediate := (value / 0xC0) * 0x100 + value % 0xC0;
    if intermediate < 0x1F00 {
      intermediate := intermediate + 0x8140;
    } else {
      intermediate := intermediate + 0xC140;
    }
    assert intermediate == KanjiCode(value);
    pair := [intermediate / 0x100, intermediate % 0x100];
  }

  /** The `match mode` of the segment loop. */
  method ReadSegment(reader: BitReader, version: u8, mode: nat) returns (r: Option<(seq<u8>, seq<char>)>)
    requires reader.Valid()
    modifies reader
    ensures reader.Valid()
    ensures Matches(r, reader.idx, Segment(reader.bits, version, old(reader.idx), mode))
  {
    if mode == 1 || mode == 2 {
      r := ReadText(reader, version, mode);
    } else if mode == 4 {
      r := ReadBytes(reader, version);
    } else if mode == 7 {
      r := ReadEci(reader, version);
    } else if mode == 8 {
      r := ReadKanji(reader, version);
    } else {
      r := None;
    }
  }

  /** `decode_payload_from_bits`: all segments' data bytes and text. */
  method DecodePayloadFromBits(bits: seq<bool>, version: u8) returns (r: Option<(seq<u8>, seq<char>)>)
    ensures r == Parse(bits, version, 0)
  {
    var reader := new BitReader(bits);
    var data: seq<u8> := [];
    var content: seq<char> := [];
    PrependEmpty(Parse(bits, version, 0));
    while true
      invariant reader.bits == bits && reader.Valid()
      invariant Parse(bits, version, 0) == Prepend(data, content, Parse(bits, version, reader.idx))
      decreases |bits| - reader.idx
    {
      if reader.Remaining() < 4 {
        break;
      }
      ghost var at := reader.idx;
      // four bits remain, so this read succeeds
      var m := ReadCount(reader, 4);
      var mode := m.value;
      if mode == 0 {
        break;
      }
      var segment := ReadSegment(reader, version, mode);
      if segment.None? {
        return None;
      }
      PrependTwice(data, content, segment.value.0, segment.value.1, Parse(bits, version, reader.idx));
      data := data + segment.value.0;
      content := content + segment.value.1;
    }
    assert data + [] == data && content + [] == content;
    r := Some((data, content));
  }

  /** `decode_payload`: the data codewords' bits, most significant first, then the segment loop. */
  method DecodePayload(dataCodewords: seq<u8>, version: u8) returns (r: Option<(seq<u8>, seq<char>)>)
    ensures r == Parse(Expand(dataCodewords), version, 0)
  {
    var bits: seq<bool> := [];
    for k := 0 to |dataCodewords|
      invariant bits == Expand(dataCodewords[..k])
    {
      var byte := dataCodewords[k];
      ghost var before := bits;
      // `for i in (0..8).rev()` pushes bit i of the byte, i = 7 - j
      for j := 0 to 8
        invariant bits == before + UnpackBits(byte, 8)[..j]
      {
        var i := 7 - j;
        UnpackBitsAt(byte, 8, j);
        assert UnpackBits(byte, 8)[..j + 1] == UnpackBits(byte, 8)[..j] + [UnpackBits(byte, 8)[j]];
        bits := bits + [(byte / Pow2(i)) % 2 != 0];
      }
      assert UnpackBits(byte, 8)[..8] == UnpackBits(byte, 8);
      assert dataCodewords[..k + 1][..k] == dataCodewords[..k];
    }
    assert dataCodewords[..|dataCodewords|] == dataCodewords;
    r := DecodePayloadFromBits(bits, version);
  }

  /** Bit `j` of `UnpackBits(x, n)` is bit `n - 1 - j` of `x`. */
  lemma {:induction false} UnpackBitsAt(x: nat, n: nat, j: nat)
    requires j < n
    ensures UnpackBits(x, n)[j] == ((x / Pow2(n - 1 - j)) % 2 != 0)
  {
    if j < n - 1 {
      UnpackBitsAt(x / 2, n - 1, j);
      HalveDiv(x, Pow2(n - 2 - j));
    }
  }

  lemma HalveDiv(x: nat, p: nat)
    requires p > 0
    ensures (x / 2) / p == x / (2 * p)
  {
    var q := (x / 2) / p;
    var r := (x / 2) % p;
    assert x == q * (2 * p) + (2 * r + x % 2);
    DivModUnique(x, 2 * p, q, 2 * r + x % 2);
  }

  /** `bits_to_codewords`: every whole group of eight bits as a byte, first bit most significant; a partial tail is dropped. */
  function Codewords(bits: seq<bool>): (r: seq<u8>)
    ensures |r| == |bits| / 8
  {
    seq(|bits| / 8, k requires 0 <= k < |bits| / 8 => Octet(bits, 8 * k))
  }

  method BitsToCodewords(bits: seq<bool>) returns (codewords: seq<u8>)
    ensures codewords == Codewords(bits)
  {
    codewords := [];
    var idx := 0;
    while idx + 8 <= |bits|
      invariant idx == 8 * |codewords| <= |bits|
      invariant codewords == seq(|codewords|, k requires 0 <= k < |codewords| => Octet(bits, 8 * k))
      decreases |bits| - idx
    {
      var value := ReadValue(bits, idx, 8);
      assert value == Octet(bits, idx);
      var byte: u8 := value;
      codewords := codewords + [byte];
      idx := idx + 8;
    }
    DivModUnique(|bits|, 8, |codewords|, |bits| - idx);
  }

  /** The value of bits read least significant first. */
  function PackLsb(s: seq<bool>): nat
  {
    if |s| == 0 then 0 else BitValue(s[0]) + 2 * PackLsb(s[1..])
  }

  lemma {:induction false} PackLsbBound(s: seq<bool>)
    ensures PackLsb(s) < Pow2(|s|)
  {
    if |s| > 0 {
      PackLsbBound(s[1..]);
    }
  }

  /** Appending a bit adds it at weight 2^|s|. */
  lemma {:induction false} PackLsbSnoc(s: seq<bool>, b: bool)
    ensures PackLsb(s + [b]) == PackLsb(s) + BitValue(b) * Pow2(|s|)
  {
    if |s| > 0 {
      assert (s + [b])[1..] == s[1..] + [b];
      PackLsbSnoc(s[1..], b);
    } else {
      assert (s + [b])[1..] == [];
    }
  }

  /** The octet at `i` with its first bit least significant. */
  function OctetLsb(bits: seq<bool>, i: nat): (r: u8)
    requires i + 8 <= |bits|
    ensures r == PackLsb(bits[i..i + 8])
  {
    PackLsbBound(bits[i..i + 8]);
    assert Pow2(8) == 256;
    PackLsb(bits[i..i + 8])
  }

  /** `bits_to_codewords_lsb`: as `Codewords`, but the first bit of each group is bit 0. */
  function CodewordsLsb(bits: seq<bool>): (r: seq<u8>)
    ensures |r| == |bits| / 8
  {
    seq(|bits| / 8, k requires 0 <= k < |bits| / 8 => OctetLsb(bits, 8 * k))
  }

  method BitsToCodewordsLsb(bits: seq<bool>) returns (codewords: seq<u8>)
    ensures codewords == CodewordsLsb(bits)
  {
    codewords := [];
    var idx := 0;
    while idx + 8 <= |bits|
      invariant idx == 8 * |codewords| <= |bits|
      invariant codewords == seq(|codewords|, k requires 0 <= k < |codewords| => OctetLsb(bits, 8 * k))
      decreases |bits| - idx
    {
      ghost var start := idx;
      var byte := 0;
      for bit := 0 to 8
        invariant idx == start + bit
        invariant byte == PackLsb(bits[start..idx]) < Pow2(bit)
      {
        PackLsbSnoc(bits[start..idx], bits[idx]);
        assert bits[start..idx + 1] == bits[start..idx] + [bits[idx]];
        if bits[idx] {
          // bit `bit` of `byte` is still clear, so `byte |= 1 << bit` adds 2^bit
          byte := byte + Pow2(bit);
        }
        idx := idx + 1;
      }
      assert Pow2(8) == 256;
      codewords := codewords + [byte];
    }
    DivModUnique(|bits|, 8, |codewords|, |bits| - idx);
  }

  /** A sequence in reverse order, as `Vec::reverse` leaves it. */
  function Reversed<T>(s: seq<T>): (r: seq<T>)
    ensures |r| == |s|
  {
    if |s| == 0 then [] else Reversed(s[1..]) + [s[0]]
  }

  /** Reading least significant first is reading the reversed bits most significant first. */
  lemma {:induction false} PackLsbReversed(s: seq<bool>)
    ensures PackLsb(s) == PackBits(Reversed(s))
  {
    if |s| > 0 {
      PackLsbReversed(s[1..]);
      PackBitsSnoc(Reversed(s[1..]), s[0]);
    }
  }

  /** Each least-significant-first codeword is the most-significant-first value of its eight bits reversed. */
  lemma LsbIsReversedOctet(bits: seq<bool>, k: nat)
    requires k < |bits| / 8
    ensures CodewordsLsb(bits)[k] == PackBits(Reversed(bits[8 * k..8 * k + 8]))
  {
    PackLsbReversed(bits[8 * k..8 * k + 8]);
  }

  /** Codewords expanded to bits and regrouped are the same codewords. */
  lemma CodewordsOfExpand(b: seq<u8>)
    ensures Codewords(Expand(b)) == b
  {
    forall k | 0 <= k < |b|
      ensures Codewords(Expand(b))[k] == b[k]
    {
      OctetOfExpand(b, k);
    }
  }

  /** Whole bytes' worth of bits regrouped into codewords and expanded again are the same bits. */
  lemma ExpandOfCodewords(bits: seq<bool>)
    requires |bits| % 8 == 0
    ensures Expand(Codewords(bits)) == bits
  {
    var c := Codewords(bits);
    var e := Expand(c);
    forall p | 0 <= p < |bits|
      ensures e[p] == bits[p]
    {
      var k := p / 8;
      var j := p % 8;
      ExpandChunk(c, k);
      UnpackPack(bits[8 * k..8 * k + 8]);
      assert e[8 * k..8 * k + 8][j] == e[p];
      assert bits[8 * k..8 * k + 8][j] == bits[p];
    }
  }

  /** A terminator, or fewer than four bits, ends the parse with nothing more. */
  lemma ParseStops(bits: seq<bool>, version: u8, i: nat)
    requires i <= |bits|
    requires |bits| - i < 4 || bits[i..i + 4] == UnpackBits(0, 4)
    ensures Parse(bits, version, i) == Some(([], []))
  {
    if |bits| - i >= 4 {
      PackUnpack(0, 4);
    }
  }

  /** A mode indicator other than 0, 1, 2, 4, 7 and 8 fails the whole payload. */
  lemma UnknownModeFails(bits: seq<bool>, version: u8, i: nat)
    requires i + 4 <= |bits|
    requires PackBits(bits[i..i + 4]) !in {0, 1, 2, 4, 7, 8}
    ensures Parse(bits, version, i) == None
  {
  }

  /** With no count width, a Kanji indicator is skipped and nothing else is read. */
  lemma KanjiSkipsOnlyIndicator(bits: seq<bool>, version: u8, i: nat)
    requires i + 4 <= |bits| && PackBits(bits[i..i + 4]) == 8
    ensures Parse(bits, version, i) == Parse(bits, version, i + 4)
  {
    KanjiSegmentEmpty(bits, version, i + 4);
    ParseStep(bits, version, i, 8, [], [], i + 4);
    PrependEmpty(Parse(bits, version, i + 4));
  }

  /** A kanji segment has no count field, so it reads no characters and leaves the cursor where it was. */
  lemma KanjiSegmentEmpty(bits: seq<bool>, version: u8, start: nat)
    requires start <= |bits|
    ensures Segment(bits, version, start, 8) == Some(([], [], start))
  {
    assert CharCountBits(8, version) == 0;
    assert bits[start..start] == [];
    assert PackBits([]) == 0;
    assert Utf8.DecodeLossy([]) == [];
    assert KanjiSegment(bits, start, 0) == Some(([], [], start));
  }

  /**
   * An ECI designator is one byte when its first bit is 0, two when its
   * first bits are 10 and three when they are 11 (section 7.4.2 of
   * ISO/IEC 18004).
   */
  lemma EciWidths(bits: seq<bool>, i: nat)
    requires i + 24 <= |bits|
    ensures var first := PackBits(bits[i..i + 8]);
      EciEnd(bits, i) == Some(if first < 0x80 then i + 8 else if first < 0xC0 then i + 16 else i + 24)
  {
    var first := PackBits(bits[i..i + 8]);
    var second := PackBits(bits[i + 8..i + 16]);
    PackBitsBound(bits[i..i + 8]);
    PackBitsBound(bits[i + 8..i + 16]);
    assert Pow2(8) == 0x100;
    DivModUnique(first, 0x80, if first < 0x80 then 0 else 1, first % 0x80);
    var low := first % 0x80;
    DivModUnique(low * 0x100 + second, 0x4000, low / 0x40, (low % 0x40) * 0x100 + second);
    assert low / 0x40 < 2;
  }

  /**
   * A Shift JIS code from the two Kanji ranges, compacted as section 7.4.6
   * of ISO/IEC 18004 describes (subtract 0x8140 or 0xC140, then 0xC0 times
   * the high byte plus the low byte), comes back out of `KanjiCode`.
   */
  lemma KanjiRoundTrip(code: nat)
    requires (0x8140 <= code <= 0x9FFC || 0xE040 <= code <= 0xEBBF) && 0x40 <= code % 0x100 <= 0xFC
    ensures var base := if code < 0xE040 then code - 0x8140 else code - 0xC140;
      var value := (base / 0x100) * 0xC0 + base % 0x100;
      value < 0x2000 && KanjiCode(value) == code
  {
    var base := if code < 0xE040 then code - 0x8140 else code - 0xC140;
    var hi := base / 0x100;
    var lo := base % 0x100;
    assert lo < 0xC0;
    var value := hi * 0xC0 + lo;
    DivModUnique(value, 0xC0, hi, lo);
    assert (value / 0xC0) * 0x100 + value % 0xC0 == base;
  }

  /** The value of `n` bits that spell `x`, for `x` below 2^n. */
  lemma ValueOf(s: seq<bool>, x: nat, n: nat)
    requires s == UnpackBits(x, n) && x < Pow2(n)
    ensures PackBits(s) == x
  {
    PackUnpack(x, n);
    DivModUnique(x, Pow2(n), 0, x);
  }

  /** The bytes read from a bit sequence depend only on its first `8 * count` bits. */
  lemma BytesPrefix(x: seq<bool>, count: nat)
    requires 8 * count <= |x|
    ensures ByteMode.Bytes(x, count) == ByteMode.Bytes(x[..8 * count], count)
  {
    forall k | 0 <= k < count
      ensures Octet(x, 8 * k) == Octet(x[..8 * count], 8 * k)
    {
      assert x[8 * k..8 * k + 8] == x[..8 * count][8 * k..8 * k + 8];
    }
  }

  /** One segment of the parse. */
  lemma ParseStep(bits: seq<bool>, version: u8, i: nat, mode: nat, data: seq<u8>, text: seq<char>, next: nat)
    requires i + 4 <= |bits| && PackBits(bits[i..i + 4]) == mode != 0
    requires Segment(bits, version, i + 4, mode) == Some((data, text, next))
    ensures next <= |bits|
    ensures Parse(bits, version, i) == Prepend(data, text, Parse(bits, version, next))
  {
  }

  /**
   * A byte segment as an encoder writes it for versions 1-9 (indicator
   * 4, the byte count in 8 bits, then the bytes) parses to those bytes and their lossy
   * text, and the parse carries on after it.
   */
  lemma ByteSegmentAt(bits: seq<bool>, version: u8, i: nat, bytes: seq<u8>)
    requires version <= 9 && |bytes| < 0x100
    requires i + 12 + 8 * |bytes| <= |bits|
    requires PackBits(bits[i..i + 4]) == 4
    requires PackBits(bits[i + 4..i + 12]) == |bytes|
    requires bits[i + 12..i + 12 + 8 * |bytes|] == Expand(bytes)
    ensures Parse(bits, version, i) == Prepend(bytes, Utf8.DecodeLossy(bytes), Parse(bits, version, i + 12 + 8 * |bytes|))
  {
    var j := i + 4;
    assert bits[j + 8..j + 8 + 8 * |bytes|] == Expand(bytes);
    ByteSegmentOf(bits, version, j, bytes);
    ParseStep(bits, version, i, 4, bytes, Utf8.DecodeLossy(bytes), i + 12 + 8 * |bytes|);
  }

  lemma ByteSegmentOf(bits: seq<bool>, version: u8, i: nat, bytes: seq<u8>)
    requires version <= 9
    requires i + 8 + 8 * |bytes| <= |bits|
    requires PackBits(bits[i..i + 8]) == |bytes|
    requires bits[i + 8..i + 8 + 8 * |bytes|] == Expand(bytes)
    ensures Segment(bits, version, i, 4) == Some((bytes, Utf8.DecodeLossy(bytes), i + 8 + 8 * |bytes|))
  {
    assert CharCountBits(4, version) == 8;
    ByteSegmentBytes(bits, i + 8, bytes);
  }

  /** The byte segment body over the expansion of `bytes` reads `bytes` back. */
  lemma ByteSegmentBytes(bits: seq<bool>, start: nat, bytes: seq<u8>)
    requires start + 8 * |bytes| <= |bits|
    requires bits[start..start + 8 * |bytes|] == Expand(bytes)
    ensures ByteSegment(bits, start, |bytes|) == Some((bytes, Utf8.DecodeLossy(bytes), start + 8 * |bytes|))
  {
    var rest := bits[start..];
    BytesPrefix(rest, |bytes|);
    assert rest[..8 * |bytes|] == Expand(bytes);
    ByteMode.BytesOfExpand(bytes);
  }

  /**
   * A numeric segment of three digits for versions 1-9 (indicator 1, the
   * count 3 in 10 bits, then the value in 10 bits) parses to the value's
   * three digits, as text and as their UTF-8 bytes.
   */
  lemma NumericTripleAt(bits: seq<bool>, version: u8, i: nat, value: nat)
    requires version <= 9 && value < 1000
    requires i + 24 <= |bits|
    requires PackBits(bits[i..i + 4]) == 1
    requires PackBits(bits[i + 4..i + 14]) == 3
    requires PackBits(bits[i + 14..i + 24]) == value
    ensures Parse(bits, version, i)
         == Prepend(Utf8.Encode(Numeric.ZeroPadded(value, 3)), Numeric.ZeroPadded(value, 3), Parse(bits, version, i + 24))
  {
    NumericTripleOf(bits, version, i + 4, value);
    var text := Numeric.ZeroPadded(value, 3);
    ParseStep(bits, version, i, 1, Utf8.Encode(text), text, i + 24);
  }

  lemma NumericTripleOf(bits: seq<bool>, version: u8, i: nat, value: nat)
    requires version <= 9
    requires i + 20 <= |bits|
    requires PackBits(bits[i..i + 10]) == 3
    requires PackBits(bits[i + 10..i + 20]) == value
    ensures var text := Numeric.ZeroPadded(value, 3);
      Segment(bits, version, i, 1) == Some((Utf8.Encode(text), text, i + 20))
  {
    var rest := bits[i + 10..];
    assert rest[0..10] == bits[i + 10..i + 20];
    Numeric.GroupsStep(rest, 0, 3);
    var text := Numeric.ZeroPadded(value, 3);
    assert text + [] == text;
    assert Numeric.Groups(rest, 0, 3) == Some((text, 10));
  }

  /**
   * An alphanumeric segment of two characters for versions 1-9 (indicator
   * 2, the count 2 in 9 bits, then 45a + b in 11 bits) parses to table
   * entries a and b.
   */
  lemma AlphanumericPairAt(bits: seq<bool>, version: u8, i: nat, a: nat, b: nat)
    requires version <= 9 && a < 45 && b < 45
    requires i + 24 <= |bits|
    requires PackBits(bits[i..i + 4]) == 2
    requires PackBits(bits[i + 4..i + 13]) == 2
    requires PackBits(bits[i + 13..i + 24]) == 45 * a + b
    ensures var text := [Alphanumeric.TableChar(a), Alphanumeric.TableChar(b)];
      Parse(bits, version, i) == Prepend(Utf8.Encode(text), text, Parse(bits, version, i + 24))
  {
    AlphanumericPairOf(bits, version, i + 4, a, b);
    var text := [Alphanumeric.TableChar(a), Alphanumeric.TableChar(b)];
    ParseStep(bits, version, i, 2, Utf8.Encode(text), text, i + 24);
  }

  lemma AlphanumericPairOf(bits: seq<bool>, version: u8, i: nat, a: nat, b: nat)
    requires version <= 9 && a < 45 && b < 45
    requires i + 20 <= |bits|
    requires PackBits(bits[i..i + 9]) == 2
    requires PackBits(bits[i + 9..i + 20]) == 45 * a + b
    ensures var text := [Alphanumeric.TableChar(a), Alphanumeric.TableChar(b)];
      Segment(bits, version, i, 2) == Some((Utf8.Encode(text), text, i + 20))
  {
    var rest := bits[i + 9..];
    assert rest[0..11] == bits[i + 9..i + 20];
    Alphanumeric.PairStep(rest, 0, 2);
    var text := [Alphanumeric.TableChar(a), Alphanumeric.TableChar(b)];
    DivModUnique(45 * a + b, 45, a, b);
    assert Alphanumeric.PairText(45 * a + b) == text;
    assert text + [] == text;
    assert Alphanumeric.Groups(rest, 0, 2) == Some((text, 11));
  }

  lemma MultipleOfEight(n: nat, k: nat)
    requires n == 8 * k
    ensures n % 8 == 0
  {
  }

  /** The five parts of a concatenation, by position. */
  lemma Slices5(a: seq<bool>, b: seq<bool>, c: seq<bool>, d: seq<bool>, e: seq<bool>)
    ensures (a + b + c + d + e)[0..|a|] == a
    ensures (a + b + c + d + e)[|a|..|a| + |b|] == b
    ensures (a + b + c + d + e)[|a| + |b|..|a| + |b| + |c|] == c
    ensures (a + b + c + d + e)[|a| + |b| + |c|..|a| + |b| + |c| + |d|] == d
    ensures (a + b + c + d + e)[|a| + |b| + |c| + |d|..] == e
    ensures (a + b + c + d + e)[|a| + |b| + |c| + |d|..|a| + |b| + |c| + |d| + |e|] == e
  {
  }

  lemma Regroup(h: seq<bool>, a: seq<bool>, b: seq<bool>, c: seq<bool>, d: seq<bool>)
    ensures h + a + b + c + d == h + (a + b + c + d)
  {
  }

  /** The four parts of a concatenation, by position. */
  lemma Slices4(a: seq<bool>, b: seq<bool>, c: seq<bool>, d: seq<bool>)
    ensures (a + b + c + d)[0..|a|] == a
    ensures (a + b + c + d)[|a|..|a| + |b|] == b
    ensures (a + b + c + d)[|a| + |b|..|a| + |b| + |c|] == c
    ensures (a + b + c + d)[|a| + |b| + |c|..|a| + |b| + |c| + |d|] == d
  {
  }

  /**
   * The unit test for byte mode: indicator 4, count 2, the bytes of "HI"
   * and a terminator, written as `push_bits` writes them (`UnpackBits`),
   * grouped into codewords and parsed for version 1.
   */
  lemma SampleByteHI()
    ensures Parse(Expand(Codewords(UnpackBits(4, 4) + UnpackBits(2, 8) + UnpackBits(0x48, 8) + UnpackBits(0x49, 8) + UnpackBits(0, 4))), 1, 0)
         == Some(([0x48, 0x49], "HI"))
  {
    assert Pow2(4) == 16 && Pow2(8) == 256;
    ValueOf(UnpackBits(4, 4), 4, 4);
    ValueOf(UnpackBits(2, 8), 2, 8);
    ValueOf(UnpackBits(0x48, 8), 0x48, 8);
    ValueOf(UnpackBits(0x49, 8), 0x49, 8);
    ValueOf(UnpackBits(0, 4), 0, 4);
    HIFields(UnpackBits(4, 4), UnpackBits(2, 8), UnpackBits(0x48, 8), UnpackBits(0x49, 8), UnpackBits(0, 4));
  }

  /** Five fields of the byte sample's widths and values parse as the sample does once grouped into codewords. */
  lemma HIFields(a: seq<bool>, b: seq<bool>, c: seq<bool>, d: seq<bool>, e: seq<bool>)
    requires |a| == 4 && |b| == 8 && |c| == 8 && |d| == 8 && |e| == 4
    requires PackBits(a) == 4 && PackBits(b) == 2 && PackBits(c) == 0x48 && PackBits(d) == 0x49 && PackBits(e) == 0
    ensures Parse(Expand(Codewords(a + b + c + d + e)), 1, 0) == Some(([0x48, 0x49], "HI"))
  {
    var bits := a + b + c + d + e;
    assert |bits| == 32;
    MultipleOfEight(|bits|, 4);
    ExpandOfCodewords(bits);
    Slices5(a, b, c, d, e);
    HIParse(bits);
  }

  lemma HIParse(bits: seq<bool>)
    requires |bits| == 32 && PackBits(bits[0..4]) == 4 && PackBits(bits[4..12]) == 2
    requires PackBits(bits[12..20]) == 0x48 && PackBits(bits[20..28]) == 0x49 && PackBits(bits[28..32]) == 0
    ensures Parse(bits, 1, 0) == Some(([0x48, 0x49], "HI"))
  {
    OctetsBack(bits, 12, [0x48, 0x49]);
    ByteSegmentAt(bits, 1, 0, [0x48, 0x49]);
    AsciiText([0x48, 0x49], "HI");
    UnpackPack(bits[28..32]);
    ParseStops(bits, 1, 28);
    PrependDone([0x48, 0x49], "HI");
  }

  /** A four-bit field of value 0 ends the parse, whatever the version. */
  lemma Terminated(bits: seq<bool>, i: nat)
    requires i + 4 <= |bits| && PackBits(bits[i..i + 4]) == 0
    ensures Parse(bits, 1, i) == Some(([], []))
  {
    UnpackPack(bits[i..i + 4]);
    ParseStops(bits, 1, i);
  }

  /** Bits whose octets from `i` are the bytes of `b` are the expansion of `b`. */
  lemma {:induction false} OctetsBack(bits: seq<bool>, i: nat, b: seq<u8>)
    requires i + 8 * |b| <= |bits|
    requires forall k :: 0 <= k < |b| ==> PackBits(bits[i + 8 * k..i + 8 * k + 8]) == b[k]
    ensures bits[i..i + 8 * |b|] == Expand(b)
  {
    if |b| > 0 {
      var n := |b| - 1;
      OctetsBack(bits, i, b[..n]);
      var chunk := bits[i + 8 * n..i + 8 * n + 8];
      UnpackPack(chunk);
      assert bits[i..i + 8 * |b|] == bits[i..i + 8 * n] + chunk;
    }
  }

  /** ASCII bytes read lossily are the characters with those code points. */
  lemma AsciiText(b: seq<u8>, t: seq<char>)
    requires |b| == |t| && forall i :: 0 <= i < |b| ==> b[i] < 0x80 && t[i] as int == b[i]
    ensures Utf8.DecodeLossy(b) == t && Utf8.Encode(t) == b
  {
    Utf8.DecodeAscii(b);
    Utf8.LossyAgrees(b);
    assert Utf8.Decode(b).value == t;
    assert Utf8.IsAscii(t);
    Utf8.EncodeAscii(t);
  }

  /** The unit test for numeric mode: indicator 1, count 3, the value 123, a terminator and four bits of padding. */
  lemma SampleNumeric123()
    ensures Parse(Expand(Codewords(UnpackBits(1, 4) + UnpackBits(3, 10) + UnpackBits(123, 10) + UnpackBits(0, 4) + UnpackBits(0, 4))), 1, 0)
         == Some(([0x31, 0x32, 0x33], "123"))
  {
    assert Pow2(4) == 16 && Pow2(10) == 1024;
    ValueOf(UnpackBits(1, 4), 1, 4);
    ValueOf(UnpackBits(3, 10), 3, 10);
    ValueOf(UnpackBits(123, 10), 123, 10);
    ValueOf(UnpackBits(0, 4), 0, 4);
    NumericFields(UnpackBits(1, 4), UnpackBits(3, 10), UnpackBits(123, 10), UnpackBits(0, 4), UnpackBits(0, 4));
  }

  /** Five fields of the numeric sample's widths and values parse as the sample does once grouped into codewords. */
  lemma NumericFields(a: seq<bool>, b: seq<bool>, c: seq<bool>, d: seq<bool>, e: seq<bool>)
    requires |a| == 4 && |b| == 10 && |c| == 10 && |d| == 4 && |e| == 4
    requires PackBits(a) == 1 && PackBits(b) == 3 && PackBits(c) == 123 && PackBits(d) == 0
    ensures Parse(Expand(Codewords(a + b + c + d + e)), 1, 0) == Some(([0x31, 0x32, 0x33], "123"))
  {
    var bits := a + b + c + d + e;
    assert |bits| == 32;
    MultipleOfEight(|bits|, 4);
    ExpandOfCodewords(bits);
    Slices5(a, b, c, d, e);
    NumericParse(bits);
  }

  lemma NumericParse(bits: seq<bool>)
    requires |bits| == 32 && PackBits(bits[0..4]) == 1 && PackBits(bits[4..14]) == 3
    requires PackBits(bits[14..24]) == 123 && PackBits(bits[24..28]) == 0
    ensures Parse(bits, 1, 0) == Some(([0x31, 0x32, 0x33], "123"))
  {
    NumericTripleAt(bits, 1, 0, 123);
    Text123();
    Terminated(bits, 24);
    PrependDone([0x31, 0x32, 0x33], "123");
  }

  /** The unit test for alphanumeric mode: indicator 2, count 2, 461 = 45 * 10 + 11 ("AB"), a terminator and padding. */
  lemma SampleAlphanumericAB()
    ensures Parse(Expand(Codewords(UnpackBits(2, 4) + UnpackBits(2, 9) + UnpackBits(461, 11) + UnpackBits(0, 4) + UnpackBits(0, 4))), 1, 0)
         == Some(([0x41, 0x42], "AB"))
  {
    assert Pow2(4) == 16 && Pow2(9) == 512 && Pow2(11) == 2048;
    ValueOf(UnpackBits(2, 4), 2, 4);
    ValueOf(UnpackBits(2, 9), 2, 9);
    ValueOf(UnpackBits(461, 11), 461, 11);
    ValueOf(UnpackBits(0, 4), 0, 4);
    AlphanumericFields(UnpackBits(2, 4), UnpackBits(2, 9), UnpackBits(461, 11), UnpackBits(0, 4), UnpackBits(0, 4));
  }

  /** Five fields of the alphanumeric sample's widths and values parse as the sample does once grouped into codewords. */
  lemma AlphanumericFields(a: seq<bool>, b: seq<bool>, c: seq<bool>, d: seq<bool>, e: seq<bool>)
    requires |a| == 4 && |b| == 9 && |c| == 11 && |d| == 4 && |e| == 4
    requires PackBits(a) == 2 && PackBits(b) == 2 && PackBits(c) == 461 && PackBits(d) == 0
    ensures Parse(Expand(Codewords(a + b + c + d + e)), 1, 0) == Some(([0x41, 0x42], "AB"))
  {
    var bits := a + b + c + d + e;
    assert |bits| == 32;
    MultipleOfEight(|bits|, 4);
    ExpandOfCodewords(bits);
    Slices5(a, b, c, d, e);
    AlphanumericParse(bits);
  }

  lemma AlphanumericParse(bits: seq<bool>)
    requires |bits| == 32 && PackBits(bits[0..4]) == 2 && PackBits(bits[4..13]) == 2
    requires PackBits(bits[13..24]) == 461 && PackBits(bits[24..28]) == 0
    ensures Parse(bits, 1, 0) == Some(([0x41, 0x42], "AB"))
  {
    AlphanumericPairAt(bits, 1, 0, 10, 11);
    assert [Alphanumeric.TableChar(10), Alphanumeric.TableChar(11)] == "AB";
    AsciiText([0x41, 0x42], "AB");
    Terminated(bits, 24);
    PrependDone([0x41, 0x42], "AB");
  }

  /** The unit test for mixed modes: numeric "123", then byte "ABC", then a terminator. */
  lemma SampleMixed()
    ensures Parse(Expand(Codewords(UnpackBits(1, 4) + UnpackBits(3, 10) + UnpackBits(123, 10) + UnpackBits(4, 4) + UnpackBits(3, 8)
                                   + UnpackBits(0x41, 8) + UnpackBits(0x42, 8) + UnpackBits(0x43, 8) + UnpackBits(0, 4))), 1, 0)
         == Some(([0x31, 0x32, 0x33, 0x41, 0x42, 0x43], "123ABC"))
  {
    assert Pow2(4) == 16 && Pow2(8) == 256 && Pow2(10) == 1024;
    ValueOf(UnpackBits(1, 4), 1, 4);
    ValueOf(UnpackBits(3, 10), 3, 10);
    ValueOf(UnpackBits(123, 10), 123, 10);
    ValueOf(UnpackBits(4, 4), 4, 4);
    ValueOf(UnpackBits(3, 8), 3, 8);
    ValueOf(UnpackBits(0x41, 8), 0x41, 8);
    ValueOf(UnpackBits(0x42, 8), 0x42, 8);
    ValueOf(UnpackBits(0x43, 8), 0x43, 8);
    ValueOf(UnpackBits(0, 4), 0, 4);
    MixedFields(UnpackBits(1, 4), UnpackBits(3, 10), UnpackBits(123, 10), UnpackBits(4, 4), UnpackBits(3, 8),
                UnpackBits(0x41, 8), UnpackBits(0x42, 8), UnpackBits(0x43, 8), UnpackBits(0, 4));
  }

  /** Nine fields of the mixed sample's widths, with the sample's values, parse as the sample does once grouped into codewords. */
  lemma MixedFields(a0: seq<bool>, a1: seq<bool>, a2: seq<bool>, a3: seq<bool>, a4: seq<bool>,
                    b0: seq<bool>, b1: seq<bool>, b2: seq<bool>, b3: seq<bool>)
    requires |a0| == 4 && |a1| == 10 && |a2| == 10 && |a3| == 4 && |a4| == 8
    requires |b0| == 8 && |b1| == 8 && |b2| == 8 && |b3| == 4
    requires PackBits(a0) == 1 && PackBits(a1) == 3 && PackBits(a2) == 123 && PackBits(a3) == 4 && PackBits(a4) == 3
    requires PackBits(b0) == 0x41 && PackBits(b1) == 0x42 && PackBits(b2) == 0x43 && PackBits(b3) == 0
    ensures Parse(Expand(Codewords(a0 + a1 + a2 + a3 + a4 + b0 + b1 + b2 + b3)), 1, 0)
         == Some(([0x31, 0x32, 0x33, 0x41, 0x42, 0x43], "123ABC"))
  {
    var head := a0 + a1 + a2 + a3 + a4;
    var tail := b0 + b1 + b2 + b3;
    Slices5(a0, a1, a2, a3, a4);
    Slices4(b0, b1, b2, b3);
    Regroup(head, b0, b1, b2, b3);
    MixedJoin(head, tail);
    assert |head + tail| == 64;
    MultipleOfEight(|head + tail|, 8);
    ExpandOfCodewords(head + tail);
    MixedParse(head + tail);
  }

  /** The fields of the mixed sample, carried from its two halves to the whole. */
  lemma MixedJoin(head: seq<bool>, tail: seq<bool>)
    requires |head| == 36 && PackBits(head[0..4]) == 1 && PackBits(head[4..14]) == 3 && PackBits(head[14..24]) == 123
    requires PackBits(head[24..28]) == 4 && PackBits(head[28..36]) == 3
    requires |tail| == 28 && PackBits(tail[0..8]) == 0x41 && PackBits(tail[8..16]) == 0x42 && PackBits(tail[16..24]) == 0x43
    requires PackBits(tail[24..28]) == 0
    ensures var bits := head + tail;
      PackBits(bits[0..4]) == 1 && PackBits(bits[4..14]) == 3 && PackBits(bits[14..24]) == 123
      && PackBits(bits[24..28]) == 4 && PackBits(bits[28..36]) == 3
      && PackBits(bits[36..44]) == 0x41 && PackBits(bits[44..52]) == 0x42 && PackBits(bits[52..60]) == 0x43
      && PackBits(bits[60..64]) == 0
  {
    var bits := head + tail;
    assert bits[0..4] == head[0..4] && bits[4..14] == head[4..14] && bits[14..24] == head[14..24];
    assert bits[24..28] == head[24..28] && bits[28..36] == head[28..36];
    assert bits[36..44] == tail[0..8] && bits[44..52] == tail[8..16] && bits[52..60] == tail[16..24];
    assert bits[60..64] == tail[24..28];
  }

  lemma MixedParse(bits: seq<bool>)
    requires |bits| == 64 && PackBits(bits[0..4]) == 1 && PackBits(bits[4..14]) == 3 && PackBits(bits[14..24]) == 123
    requires PackBits(bits[24..28]) == 4 && PackBits(bits[28..36]) == 3
    requires PackBits(bits[36..44]) == 0x41 && PackBits(bits[44..52]) == 0x42 && PackBits(bits[52..60]) == 0x43
    requires PackBits(bits[60..64]) == 0
    ensures Parse(bits, 1, 0) == Some(([0x31, 0x32, 0x33, 0x41, 0x42, 0x43], "123ABC"))
  {
    MixedTail(bits);
    NumericTripleAt(bits, 1, 0, 123);
    Text123();
    assert [0x31, 0x32, 0x33] + [0x41, 0x42, 0x43] == [0x31, 0x32, 0x33, 0x41, 0x42, 0x43];
    assert "123" + "ABC" == "123ABC";
  }

  /** The digits of the value 123 in a group of three, and their bytes. */
  lemma Text123()
    ensures Numeric.ZeroPadded(123, 3) == "123" && Utf8.Encode("123") == [0x31, 0x32, 0x33]
  {
    assert Numeric.Decimal(123) == "123";
    AsciiText([0x31, 0x32, 0x33], "123");
  }

  /** The byte segment "ABC" at bit 24 of the mixed sample, then the terminator. */
  lemma MixedTail(bits: seq<bool>)
    requires |bits| == 64 && PackBits(bits[24..28]) == 4 && PackBits(bits[28..36]) == 3
    requires PackBits(bits[36..44]) == 0x41 && PackBits(bits[44..52]) == 0x42 && PackBits(bits[52..60]) == 0x43
    requires PackBits(bits[60..64]) == 0
    ensures Parse(bits, 1, 24) == Some(([0x41, 0x42, 0x43], "ABC"))
  {
    OctetsBack(bits, 36, [0x41, 0x42, 0x43]);
    ByteSegmentAt(bits, 1, 24, [0x41, 0x42, 0x43]);
    AsciiText([0x41, 0x42, 0x43], "ABC");
    UnpackPack(bits[60..64]);
    ParseStops(bits, 1, 60);
    PrependDone([0x41, 0x42, 0x43], "ABC");
  }

  /** The unit test for an empty payload: a lone terminator is half a codeword, so no codeword and no data. */
  lemma SampleEmpty()
    ensures Codewords(UnpackBits(0, 4)) == []
    ensures Parse(Expand(Codewords(UnpackBits(0, 4))), 1, 0) == Some(([], []))
  {
  }
}
