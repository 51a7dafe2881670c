/**
 * Format information (src/decoder/format.rs): the 15-bit word read next to
 * the top-left finder, its BCH(15,5) check against the generator
 * x^10 + x^8 + x^5 + x^4 + x^2 + x + 1, error correction by trying one and
 * then two bit flips, and the split into EC level and mask pattern.
 */
module Format {
  import opened Wrappers
  import opened QrCode
  import opened Matrix
  import opened Bits
  import Bch
  import opened Search

  /** `GENERATOR` of `check_format`. */
  const Generator: bv16 := 0x537

  /** One round of `check_format`'s loop: cancel bit 14, then shift left (bit 15 falls off). */
  function ReduceStep(rem: bv16): bv16
  {
    (if rem & 0x4000 != 0 then rem ^ (Generator << 4) else rem) << 1
  }

  /** The remainder after `n` rounds. */
  function Reduce(rem: bv16, n: nat): bv16
  {
    if n == 0 then rem else ReduceStep(Reduce(rem, n - 1))
  }

  /** `(remainder >> 5) & 0x3FF` after the five rounds. */
  function Syndrome(c: bv16): bv16
  {
    (Reduce(c, 5) >> 5) & 0x3FF
  }

  /** What `check_format` accepts. */
  predicate IsCodeword(c: bv16)
  {
    Syndrome(c) == 0
  }

  /** The body of `check_format`'s loop. */
  method Round(remainder: bv16) returns (r: bv16)
    ensures r == ReduceStep(remainder)
  {
    if remainder & 0x4000 != 0 {
      r := (remainder ^ (Generator << 4)) << 1;
    } else {
      r := remainder << 1;
    }
  }

  /** `check_format`. */
  method CheckFormat(codeword: bv16) returns (ok: bool)
    ensures ok == IsCodeword(codeword)
  {
    var remainder := codeword;
    var i := 0;
    while i < 5
      invariant 0 <= i <= 5 && remainder == Reduce(codeword, i)
    {
      remainder := Round(remainder);
      i := i + 1;
    }
    var syndrome := (remainder >> 5) & 0x3FF;
    ok := syndrome == 0;
  }

  /**
   * The zero word passes (the unit test), and so do the generator itself
   * and 0x14DC, the BCH codeword for the data bits 00101.
   */
  lemma SampleCodewords()
    ensures IsCodeword(0) && IsCodeword(Generator) && IsCodeword(0x14DC)
    ensures !IsCodeword(0x17CC)
  {
  }

  /** `codeword ^ (1 << i) ^ (1 << j)`. */
  function Flip2(c: bv16, i: nat, j: nat): bv16
    requires i < 16 && j < 16
  {
    Bch.Flip(Bch.Flip(c, i), j)
  }

  /** Bit positions `k` whose single flip is accepted. */
  function SingleOk(accept: bv16 -> bool, c: bv16): nat -> bool
  {
    (k: nat) => k < 15 && accept(Bch.Flip(c, k))
  }

  /** Second positions `j` accepted together with the first position `i`. */
  function PairOk(accept: bv16 -> bool, c: bv16, i: nat): nat -> bool
  {
    (j: nat) => i < j < 15 && accept(Flip2(c, i, j))
  }

  /** First positions `i` for which some later `j` is accepted. */
  function RowOk(accept: bv16 -> bool, c: bv16): nat -> bool
  {
    (i: nat) => First(PairOk(accept, c, i), i + 1, 15).Some?
  }

  /** The inner double-flip loop for the first position `i`. */
  function PairResult(accept: bv16 -> bool, c: bv16, i: nat): Option<bv16>
    requires i < 15
  {
    match First(PairOk(accept, c, i), i + 1, 15)
    case Some(j) => Some(Flip2(c, i, j))
    case None => None
  }

  /**
   * The search of `correct_errors` for an acceptance test `accept`: the word
   * itself, else the first accepted single flip, else the first accepted
   * double flip (i < j, ordered by i, then j), else None.
   */
  function Correct(accept: bv16 -> bool, c: bv16): Option<bv16>
  {
    if accept(c) then Some(c)
    else match First(SingleOk(accept, c), 0, 15)
      case Some(k) => Some(Bch.Flip(c, k))
      case None =>
        match First(RowOk(accept, c), 0, 15)
        case Some(i) => PairResult(accept, c, i)
        case None => None
  }

  /** Whatever the search returns is accepted and lies within two bit flips of its input. */
  lemma CorrectSound(accept: bv16 -> bool, c: bv16)
    ensures Correct(accept, c).Some? ==> accept(Correct(accept, c).value)
    ensures Correct(accept, c).Some? ==> var v := Correct(accept, c).value;
      v == c || (exists k :: 0 <= k < 15 && v == Bch.Flip(c, k))
      || (exists a, b :: 0 <= a < b < 15 && v == Flip2(c, a, b))
  {
    if !accept(c) && First(SingleOk(accept, c), 0, 15).None? && First(RowOk(accept, c), 0, 15).Some? {
      var i := First(RowOk(accept, c), 0, 15).value;
      var j := First(PairOk(accept, c, i), i + 1, 15).value;
      assert Correct(accept, c).value == Flip2(c, i, j);
    }
  }

  /** The single-flip loop finds nothing exactly when no single flip is accepted. */
  lemma SinglesNone(accept: bv16 -> bool, c: bv16)
    ensures First(SingleOk(accept, c), 0, 15).None? <==> forall k :: 0 <= k < 15 ==> !accept(Bch.Flip(c, k))
  {
    FirstNone(SingleOk(accept, c), 0, 15);
    forall k | 0 <= k < 15
      ensures SingleOk(accept, c)(k) == accept(Bch.Flip(c, k))
    {
    }
  }

  /** The double-flip loops find nothing exactly when no double flip is accepted. */
  lemma PairsNone(accept: bv16 -> bool, c: bv16)
    ensures First(RowOk(accept, c), 0, 15).None? <==> forall a, b :: 0 <= a < b < 15 ==> !accept(Flip2(c, a, b))
  {
    if First(RowOk(accept, c), 0, 15).None? {
      FirstNone(RowOk(accept, c), 0, 15);
      forall a, b | 0 <= a < b < 15
        ensures !accept(Flip2(c, a, b))
      {
        assert !RowOk(accept, c)(a);
        FirstNone(PairOk(accept, c, a), a + 1, 15);
        assert !PairOk(accept, c, a)(b);
      }
    } else {
      PairFound(accept, c, First(RowOk(accept, c), 0, 15).value);
    }
  }

  /** A first position accepted by `RowOk` has an accepted partner. */
  lemma PairFound(accept: bv16 -> bool, c: bv16, a: nat)
    requires RowOk(accept, c)(a)
    ensures a < 15 && exists b :: a < b < 15 && accept(Flip2(c, a, b))
  {
    var r := First(PairOk(accept, c, a), a + 1, 15);
    assert r.Some?;
    var b := r.value;
    assert PairOk(accept, c, a)(b);
  }

  /** The search fails exactly when no word within two flips is accepted. */
  lemma CorrectNone(accept: bv16 -> bool, c: bv16)
    ensures Correct(accept, c).None? <==>
      !accept(c) && (forall k :: 0 <= k < 15 ==> !accept(Bch.Flip(c, k)))
      && (forall a, b :: 0 <= a < b < 15 ==> !accept(Flip2(c, a, b)))
  {
    SinglesNone(accept, c);
    PairsNone(accept, c);
    assert Correct(accept, c).None? <==>
      !accept(c) && First(SingleOk(accept, c), 0, 15).None? && First(RowOk(accept, c), 0, 15).None?;
  }

  /** If the word is refused and bit `k` is the lowest accepted flip, that flip is the answer. */
  lemma CorrectSingle(accept: bv16 -> bool, c: bv16, k: nat)
    requires !accept(c) && k < 15 && accept(Bch.Flip(c, k))
    requires forall k' :: 0 <= k' < k ==> !accept(Bch.Flip(c, k'))
    ensures Correct(accept, c) == Some(Bch.Flip(c, k))
  {
    FirstIsLowest(SingleOk(accept, c), 0, 15, k);
  }

  /** What `correct_errors` returns. */
  function CorrectedErrors(c: bv16): Option<bv16>
  {
    Correct(IsCodeword, c)
  }

  /**
   * Whatever `correct_errors` returns passes `check_format` and lies within
   * two bit flips of its input.
   */
  lemma CorrectedErrorsSound(c: bv16)
    ensures CorrectedErrors(c).Some? ==> IsCodeword(CorrectedErrors(c).value)
    ensures CorrectedErrors(c).Some? ==> var v := CorrectedErrors(c).value;
      v == c || (exists k :: 0 <= k < 15 && v == Bch.Flip(c, k))
      || (exists a, b :: 0 <= a < b < 15 && v == Flip2(c, a, b))
  {
    CorrectSound(IsCodeword, c);
  }

  /** `correct_errors` fails exactly when no word within two flips passes. */
  lemma CorrectedErrorsNone(c: bv16)
    ensures CorrectedErrors(c).None? <==>
      !IsCodeword(c) && (forall k :: 0 <= k < 15 ==> !IsCodeword(Bch.Flip(c, k)))
      && (forall a, b :: 0 <= a < b < 15 ==> !IsCodeword(Flip2(c, a, b)))
  {
    CorrectNone(IsCodeword, c);
  }

  /** A failing word whose lowest passing single flip is bit `k` is corrected by that flip. */
  lemma CorrectedErrorsSingle(c: bv16, k: nat)
    requires !IsCodeword(c) && k < 15 && IsCodeword(Bch.Flip(c, k))
    requires forall k' :: 0 <= k' < k ==> !IsCodeword(Bch.Flip(c, k'))
    ensures CorrectedErrors(c) == Some(Bch.Flip(c, k))
  {
    CorrectSingle(IsCodeword, c, k);
  }

  /** A codeword with one bit in error is restored. */
  lemma CorrectsSampleError()
    ensures CorrectedErrors(0x14D4) == Some(0x14DC)
  {
    assert !IsCodeword(0x14D4);
    assert Bch.Flip(0x14D4, 0) == 0x14D5 && !IsCodeword(0x14D5);
    assert Bch.Flip(0x14D4, 1) == 0x14D6 && !IsCodeword(0x14D6);
    assert Bch.Flip(0x14D4, 2) == 0x14D0 && !IsCodeword(0x14D0);
    assert Bch.Flip(0x14D4, 3) == 0x14DC && IsCodeword(0x14DC);
    CorrectedErrorsSingle(0x14D4, 3);
  }

  /** The inner loop of the double-flip search. */
  method SearchPairs(codeword: bv16, i: nat) returns (r: Option<bv16>)
    requires i < 15
    ensures r == PairResult(IsCodeword, codeword, i)
  {
    var j := i + 1;
    while j < 15
      invariant i < j <= 15
      invariant First(PairOk(IsCodeword, codeword, i), j, 15) == First(PairOk(IsCodeword, codeword, i), i + 1, 15)
    {
      var test := Flip2(codeword, i, j);
      var ok := CheckFormat(test);
      if ok {
        return Some(test);
      }
      j := j + 1;
    }
    return None;
  }

  /** `correct_errors`. */
  method CorrectErrors(codeword: bv16) returns (r: Option<bv16>)
    ensures r == CorrectedErrors(codeword)
  {
    var ok := CheckFormat(codeword);
    if ok {
      return Some(codeword);
    }
    var i := 0;
    while i < 15
      invariant 0 <= i <= 15
      invariant First(SingleOk(IsCodeword, codeword), i, 15) == First(SingleOk(IsCodeword, codeword), 0, 15)
    {
      var test := Bch.Flip(codeword, i);
      ok := CheckFormat(test);
      if ok {
        return Some(test);
      }
      i := i + 1;
    }
    i := 0;
    while i < 15
      invariant 0 <= i <= 15
      invariant First(RowOk(IsCodeword, codeword), i, 15) == First(RowOk(IsCodeword, codeword), 0, 15)
    {
      r := SearchPairs(codeword, i);
      if r.Some? {
        return;
      }
      i := i + 1;
    }
    return None;
  }

  datatype FormatInfo = FormatInfo(ecLevel: ECLevel, maskPattern: MaskPattern)

  /** `decode`: EC level from bits 14-13 and mask from bits 12-10 of the corrected word. */
  function Decode(formatBits: bv16): (r: Option<FormatInfo>)
    ensures r.Some? <==> CorrectedErrors(formatBits).Some?
    ensures r.Some? ==> var c := CorrectedErrors(formatBits).value;
      LevelIndex(r.value.ecLevel) == ((c >> 13) & 3) as nat
      && MaskIndex(r.value.maskPattern) == ((c >> 10) & 7) as nat
  {
    match CorrectedErrors(formatBits)
    case None => None
    case Some(corrected) =>
      var dataBits := (corrected >> 10) & 0x1F;
      var ecBits := ((dataBits >> 3) & 0x03) as nat;
      var maskBits := (dataBits & 0x07) as nat;
      match LevelFromBits(ecBits)
      case None => None
      case Some(ecLevel) =>
        match MaskFromBits(maskBits)
        case None => None
        case Some(maskPattern) => Some(FormatInfo(ecLevel, maskPattern))
  }

  /** Row 8, columns 0-7 left to right, skipping the timing column 6. */
  function RowStripCells(g: Grid): (s: seq<bool>)
    requires Wf(g)
    ensures |s| == 7
  {
    seq(7, k => Cell(g, if k < 6 then k else 7, 8))
  }

  /** Column 8, rows 7-0 upwards, skipping the timing row 6. */
  function ColumnStripCells(g: Grid): (s: seq<bool>)
    requires Wf(g)
    ensures |s| == 7
  {
    seq(7, k => Cell(g, 8, if k == 0 then 7 else 6 - k))
  }

  /** The cells `read_format_bits_top_left` visits, in order. */
  function TopLeftCells(g: Grid): (s: seq<bool>)
    requires Wf(g)
    ensures |s| == 14
  {
    RowStripCells(g) + ColumnStripCells(g)
  }

  /** The first bit-reading loop: seven cells of row 8, packed most significant first. */
  method ReadRowStrip(m: BitMatrix) returns (bits: nat, bitCount: nat)
    requires m.Valid()
    ensures bitCount == 7 && bits == PackBits(RowStripCells(m.grid))
  {
    ghost var cells := RowStripCells(m.grid);
    bits := 0;
    bitCount := 0;
    var col := 0;
    while col < 8
      invariant 0 <= col <= 8 && bitCount == (if col <= 6 then col else col - 1)
      invariant bits == PackBits(cells[..bitCount])
    {
      if col != 6 {
        var isBlack := m.Get(col, 8);
        assert cells[..bitCount + 1] == cells[..bitCount] + [isBlack];
        PackBitsSnoc(cells[..bitCount], isBlack);
        bits := bits * 2 + BitValue(isBlack);
        bitCount := bitCount + 1;
      }
      col := col + 1;
    }
    assert cells[..bitCount] == cells;
  }

  /** The second bit-reading loop: seven cells of column 8 appended to the bits of `prefix`. */
  method ReadColumnStrip(m: BitMatrix, bits0: nat, bitCount0: nat, ghost prefix: seq<bool>) returns (bits: nat, bitCount: nat)
    requires m.Valid() && bits0 == PackBits(prefix)
    ensures bitCount == bitCount0 + 7 && bits == PackBits(prefix + ColumnStripCells(m.grid))
  {
    ghost var cells := ColumnStripCells(m.grid);
    bits := bits0;
    bitCount := bitCount0;
    ghost var read := 0;
    assert prefix + cells[..read] == prefix;
    var row := 8;
    while row > 0
      invariant 0 <= row <= 8 && read == (if row >= 7 then 8 - row else 7 - row)
      invariant bitCount == bitCount0 + read
      invariant bits == PackBits(prefix + cells[..read])
    {
      row := row - 1;
      if row != 6 {
        var isBlack := m.Get(8, row);
        assert isBlack == cells[read];
        PackBitsPrefixStep(prefix, cells, read);
        bits := bits * 2 + BitValue(isBlack);
        bitCount := bitCount + 1;
        read := read + 1;
      }
    }
    assert cells[..read] == cells;
  }

  /**
   * `read_format_bits_top_left`: None for matrices narrower than 21, and,
   * since only 14 bits are read where 15 are required, None for every other
   * matrix too.
   */
  method ReadFormatBitsTopLeft(m: BitMatrix) returns (r: Option<bv16>)
    requires m.Valid()
    ensures r.None?
  {
    if m.width < 21 {
      return None;
    }
    var bits, bitCount := ReadRowStrip(m);
    bits, bitCount := ReadColumnStrip(m, bits, bitCount, RowStripCells(m.grid));
    PackBitsBound(TopLeftCells(m.grid));
    if bitCount == 15 {
      return Some(Bits16(bits));
    }
    return None;
  }

  /** A value held in a `u16`. */
  function Bits16(n: nat): bv16
  {
    (n % 0x10000) as bv16
  }

  /** `extract`: never finds format information. */
  method Extract(m: BitMatrix) returns (r: Option<FormatInfo>)
    requires m.Valid()
    ensures r.None?
  {
    var formatBits := ReadFormatBitsTopLeft(m);
    match formatBits
    case None => return None;
    case Some(bits) => return Decode(bits);
  }
}
