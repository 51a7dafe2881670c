/**
 * Version information (src/decoder/version.rs): the two 18-bit copies read
 * from the 6x3 blocks beside the top-right and bottom-left finders, their
 * check against the BCH(18,6) generator
 * x^12 + x^11 + x^10 + x^9 + x^8 + x^5 + x^2 + 1, single-bit correction, and
 * the version number in the top six bits.
 */
module Version {
  import opened Wrappers
  import opened Matrix
  import opened Bits
  import opened Search

  /** `GENERATOR` of `check_version`. */
  const Generator: bv32 := 0x1F25

  /** One round of `check_version`'s loop: cancel bit 17, then shift left. */
  function ReduceStep(rem: bv32): bv32
  {
    (if rem & 0x20000 != 0 then rem ^ (Generator << 5) else rem) << 1
  }

  /** The remainder after `n` rounds. */
  function Reduce(rem: bv32, n: nat): bv32
  {
    if n == 0 then rem else ReduceStep(Reduce(rem, n - 1))
  }

  /** `(remainder >> 6) & 0xFFF` after the six rounds. */
  function Syndrome(c: bv32): bv32
  {
    (Reduce(c, 6) >> 6) & 0xFFF
  }

  /** What `check_version` accepts. */
  predicate IsCodeword(c: bv32)
  {
    Syndrome(c) == 0
  }

  /** The body of `check_version`'s loop. */
  method Round(remainder: bv32) returns (r: bv32)
    ensures r == ReduceStep(remainder)
  {
    if remainder & 0x20000 != 0 {
      r := (remainder ^ (Generator << 5)) << 1;
    } else {
      r := remainder << 1;
    }
  }

  /** `check_version`. */
  method CheckVersion(codeword: bv32) returns (ok: bool)
    ensures ok == IsCodeword(codeword)
  {
    var remainder := codeword;
    var i := 0;
    while i < 6
      invariant 0 <= i <= 6 && remainder == Reduce(codeword, i)
    {
      remainder := Round(remainder);
      i := i + 1;
    }
    var syndrome := (remainder >> 6) & 0xFFF;
    ok := syndrome == 0;
  }

  /**
   * The zero word passes (the unit test), and so do the version 7 and
   * version 40 words of the standard's version table; 0x7C95 does not.
   */
  lemma SampleCodewords()
    ensures IsCodeword(0) && IsCodeword(0x07C94) && IsCodeword(0x28C69)
    ensures !IsCodeword(0x07C95)
  {
  }

  /** `word ^ (1 << i)`. */
  function Flip(x: bv32, i: nat): bv32
    requires i < 32
  {
    x ^ (1 << (i as bv32))
  }

  /** Bit positions `k` whose single flip is accepted. */
  function SingleOk(accept: bv32 -> bool, c: bv32): nat -> bool
  {
    (k: nat) => k < 18 && accept(Flip(c, k))
  }

  /**
   * The search of `correct_errors` for an acceptance test `accept`: the word
   * itself, else the first accepted flip of one of its 18 low bits, else None.
   */
  function Correct(accept: bv32 -> bool, c: bv32): Option<bv32>
  {
    if accept(c) then Some(c)
    else match First(SingleOk(accept, c), 0, 18)
      case Some(k) => Some(Flip(c, k))
      case None => None
  }

  /** Whatever the search returns is accepted and is the word or one of its single flips. */
  lemma CorrectSound(accept: bv32 -> bool, c: bv32)
    ensures Correct(accept, c).Some? ==> accept(Correct(accept, c).value)
    ensures Correct(accept, c).Some? ==> var v := Correct(accept, c).value;
      v == c || exists k :: 0 <= k < 18 && v == Flip(c, k)
  {
  }

  /** The search fails exactly when neither the word nor any single flip is accepted. */
  lemma CorrectNone(accept: bv32 -> bool, c: bv32)
    ensures Correct(accept, c).None? <==> !accept(c) && forall k :: 0 <= k < 18 ==> !accept(Flip(c, k))
  {
    FirstNone(SingleOk(accept, c), 0, 18);
    forall k | 0 <= k < 18
      ensures SingleOk(accept, c)(k) == accept(Flip(c, k))
    {
    }
  }

  /** If the word is refused and bit `k` is the lowest accepted flip, that flip is the answer. */
  lemma CorrectSingle(accept: bv32 -> bool, c: bv32, k: nat)
    requires !accept(c) && k < 18 && accept(Flip(c, k))
    requires forall k' :: 0 <= k' < k ==> !accept(Flip(c, k'))
    ensures Correct(accept, c) == Some(Flip(c, k))
  {
    FirstIsLowest(SingleOk(accept, c), 0, 18, k);
  }

  /** What `correct_errors` returns. */
  function CorrectedErrors(c: bv32): Option<bv32>
  {
    Correct(IsCodeword, c)
  }

  /**
   * Whatever `correct_errors` returns passes `check_version` and is the word
   * itself or the word with one of its low 18 bits flipped; a passing word
   * is returned unchanged.
   */
  lemma CorrectedErrorsSound(c: bv32)
    ensures CorrectedErrors(c).Some? ==> IsCodeword(CorrectedErrors(c).value)
    ensures CorrectedErrors(c).Some? ==> var v := CorrectedErrors(c).value;
      v == c || exists k :: 0 <= k < 18 && v == Flip(c, k)
    ensures IsCodeword(c) ==> CorrectedErrors(c) == Some(c)
  {
    CorrectSound(IsCodeword, c);
  }

  /** `correct_errors` fails exactly when neither the word nor any single flip passes. */
  lemma CorrectedErrorsNone(c: bv32)
    ensures CorrectedErrors(c).None? <==>
      !IsCodeword(c) && forall k :: 0 <= k < 18 ==> !IsCodeword(Flip(c, k))
  {
    CorrectNone(IsCodeword, c);
  }

  /** A failing word whose lowest passing single flip is bit `k` is corrected by that flip. */
  lemma CorrectedErrorsSingle(c: bv32, k: nat)
    requires !IsCodeword(c) && k < 18 && IsCodeword(Flip(c, k))
    requires forall k' :: 0 <= k' < k ==> !IsCodeword(Flip(c, k'))
    ensures CorrectedErrors(c) == Some(Flip(c, k))
  {
    CorrectSingle(IsCodeword, c, k);
  }

  /** `correct_errors`. */
  method CorrectErrors(codeword: bv32) returns (r: Option<bv32>)
    ensures r == CorrectedErrors(codeword)
  {
    var ok := CheckVersion(codeword);
    if ok {
      return Some(codeword);
    }
    var i := 0;
    while i < 18
      invariant 0 <= i <= 18
      invariant First(SingleOk(IsCodeword, codeword), i, 18) == First(SingleOk(IsCodeword, codeword), 0, 18)
    {
      var test := Flip(codeword, i);
      ok := CheckVersion(test);
      if ok {
        return Some(test);
      }
      i := i + 1;
    }
    return None;
  }

  /** `(corrected >> 12) as u8`: the cast keeps the low eight bits. */
  function VersionByte(c: bv32): nat
  {
    ((c >> 12) & 0xFF) as nat
  }

  /** `decode`: the version in the corrected word's top bits, accepted only in 7..=40. */
  function Decode(versionBits: bv32): (r: Option<nat>)
    ensures r.Some? <==> CorrectedErrors(versionBits).Some? && 7 <= VersionByte(CorrectedErrors(versionBits).value) <= 40
    ensures r.Some? ==> r.value == VersionByte(CorrectedErrors(versionBits).value)
  {
    match CorrectedErrors(versionBits)
    case None => None
    case Some(corrected) =>
      var version := VersionByte(corrected);
      if 7 <= version <= 40 then Some(version) else None
  }

  /** The standard's words for versions 7 and 40 decode to those versions, also with bit 0 in error. */
  lemma DecodeSamples()
    ensures Decode(0x07C94) == Some(7)
    ensures Decode(0x28C69) == Some(40)
    ensures Decode(0x07C95) == Some(7)
  {
    assert IsCodeword(0x07C94) && IsCodeword(0x28C69);
    assert !IsCodeword(0x07C95);
    assert Flip(0x07C95, 0) == 0x07C94;
    CorrectedErrorsSingle(0x07C95, 0);
  }

  /** `decode_with_correction`: the first copy that decodes, else the second. */
  function DecodeWithCorrection(bits1: bv32, bits2: bv32): (r: Option<nat>)
    ensures r.Some? <==> Decode(bits1).Some? || Decode(bits2).Some?
    ensures Decode(bits1).Some? ==> r == Decode(bits1)
    ensures Decode(bits1).None? ==> r == Decode(bits2)
  {
    match Decode(bits1)
    case Some(v) => Some(v)
    case None =>
      match Decode(bits2)
      case Some(v) => Some(v)
      case None => None
  }

  /** With two equal copies, trying both is the same as decoding one. */
  lemma DecodeWithCorrectionSame(bits: bv32)
    ensures DecodeWithCorrection(bits, bits) == Decode(bits)
  {
  }

  /** Rows 0-5, columns size-11 .. size-9 of each row, in the order `read_version_bits_top_right` visits them. */
  function TopRightCells(g: Grid): (s: seq<bool>)
    requires Wf(g) && g.width >= 11
    ensures |s| == 18
  {
    seq(18, k => Cell(g, g.width - 11 + k % 3, k / 3))
  }

  /** Columns 0-5, rows size-11 .. size-9 of each column, in the order `read_version_bits_bottom_left` visits them. */
  function BottomLeftCells(g: Grid): (s: seq<bool>)
    requires Wf(g) && g.width >= 11
    ensures |s| == 18
  {
    seq(18, k => Cell(g, k / 3, g.width - 11 + k % 3))
  }

  /** The cell read at step `j` of the inner loop for row `row`. */
  lemma TopRightAt(g: Grid, row: nat, j: nat)
    requires Wf(g) && g.width >= 11 && row < 6 && j < 3
    ensures 3 * row + j < 18 && TopRightCells(g)[3 * row + j] == Cell(g, g.width - 11 + j, row)
  {
    DivMod3(row, j);
  }

  /** The cell read at step `j` of the inner loop for column `col`. */
  lemma BottomLeftAt(g: Grid, col: nat, j: nat)
    requires Wf(g) && g.width >= 11 && col < 6 && j < 3
    ensures 3 * col + j < 18 && BottomLeftCells(g)[3 * col + j] == Cell(g, col, g.width - 11 + j)
  {
    DivMod3(col, j);
  }

  lemma DivMod3(q: nat, j: nat)
    requires j < 3
    ensures (3 * q + j) / 3 == q && (3 * q + j) % 3 == j
  {
    DivModUnique(3 * q + j, 3, q, j);
  }

  /** A value held in a `u32`. */
  function Bits32(n: nat): bv32
  {
    (n % 0x1_0000_0000) as bv32
  }

  /** Eighteen packed cells fit a `u32`, so `(bits << 1) | bit` never loses a bit. */
  lemma EighteenBitsFit(s: seq<bool>)
    requires |s| == 18
    ensures PackBits(s) < 0x40000
  {
    PackBitsBound(s);
    Pow2Of18();
  }

  /** `read_version_bits_top_right`. */
  method ReadVersionBitsTopRight(m: BitMatrix) returns (r: bv32)
    requires m.Valid() && m.width >= 11
    ensures r == Bits32(PackBits(TopRightCells(m.grid)))
  {
    ghost var cells := TopRightCells(m.grid);
    var size := m.width;
    var bits: nat := 0;
    var row := 0;
    while row < 6
      invariant 0 <= row <= 6
      invariant bits == PackBits(cells[..3 * row])
    {
      var col := size - 11;
      while col < size - 8
        invariant size - 11 <= col <= size - 8
        invariant bits == PackBits(cells[..3 * row + (col - (size - 11))])
      {
        var isBlack := m.Get(col, row);
        ghost var n := 3 * row + (col - (size - 11));
        TopRightAt(m.grid, row, col - (size - 11));
        PackBitsStep(cells, n);
        bits := bits * 2 + BitValue(isBlack);
        col := col + 1;
      }
      row := row + 1;
    }
    assert cells[..18] == cells;
    r := Bits32(bits);
  }

  /** `read_version_bits_bottom_left`. */
  method ReadVersionBitsBottomLeft(m: BitMatrix) returns (r: bv32)
    requires m.Valid() && m.width >= 11
    ensures r == Bits32(PackBits(BottomLeftCells(m.grid)))
  {
    ghost var cells := BottomLeftCells(m.grid);
    var size := m.width;
    var bits: nat := 0;
    var col := 0;
    while col < 6
      invariant 0 <= col <= 6
      invariant bits == PackBits(cells[..3 * col])
    {
      var row := size - 11;
      while row < size - 8
        invariant size - 11 <= row <= size - 8
        invariant bits == PackBits(cells[..3 * col + (row - (size - 11))])
      {
        var isBlack := m.Get(col, row);
        ghost var n := 3 * col + (row - (size - 11));
        BottomLeftAt(m.grid, col, row - (size - 11));
        PackBitsStep(cells, n);
        bits := bits * 2 + BitValue(isBlack);
        row := row + 1;
      }
      col := col + 1;
    }
    assert cells[..18] == cells;
    r := Bits32(bits);
  }

  /** What `extract` returns for a matrix. */
  function ExtractSpec(g: Grid): Option<nat>
    requires Wf(g)
  {
    if g.width < 45 then None
    else
      var topRight := Bits32(PackBits(TopRightCells(g)));
      var bottomLeft := Bits32(PackBits(BottomLeftCells(g)));
      if topRight == bottomLeft then Decode(topRight) else DecodeWithCorrection(topRight, bottomLeft)
  }

  /**
   * Matrices narrower than 45 carry no version information; otherwise the
   * result is the top-right copy's version if it decodes, else the
   * bottom-left copy's, and always a version in 7..=40.
   */
  lemma ExtractMeaning(g: Grid)
    requires Wf(g)
    ensures g.width < 45 ==> ExtractSpec(g).None?
    ensures g.width >= 45 ==>
      ExtractSpec(g) == DecodeWithCorrection(Bits32(PackBits(TopRightCells(g))), Bits32(PackBits(BottomLeftCells(g))))
    ensures ExtractSpec(g).Some? ==> 7 <= ExtractSpec(g).value <= 40
  {
    if g.width >= 45 {
      DecodeWithCorrectionSame(Bits32(PackBits(TopRightCells(g))));
    }
  }

  /** `extract`. */
  method Extract(m: BitMatrix) returns (r: Option<nat>)
    requires m.Valid()
    ensures r == ExtractSpec(m.grid)
  {
    var size := m.width;
    if size < 45 {
      return None;
    }
    var bitsTopRight := ReadVersionBitsTopRight(m);
    var bitsBottomLeft := ReadVersionBitsBottomLeft(m);
    if bitsTopRight == bitsBottomLeft {
      r := Decode(bitsTopRight);
    } else {
      r := DecodeWithCorrection(bitsTopRight, bitsBottomLeft);
    }
  }
}
