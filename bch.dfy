/**
 * The parity-based format decoder of src/decoder/bch.rs (`BchDecoder`).
 * Despite its name it does not compute a BCH syndrome: a word is accepted
 * when it has an even number of set bits.
 */
module Bch {
  import opened Wrappers

  /** The number of set bits among the lowest `k` bits of `x`. */
  function Ones(x: bv16, k: nat): (r: nat)
    requires k <= 16
    ensures r <= k
  {
    if k == 0 then 0 else (if x & 1 == 1 then 1 else 0) + Ones(x >> 1, k - 1)
  }

  /** `u16::count_ones`. */
  function CountOnes(x: bv16): nat
  {
    Ones(x, 16)
  }

  /** `check_format`: even parity. */
  predicate CheckParity(x: bv16)
  {
    CountOnes(x) % 2 == 0
  }

  /** `word ^ (1 << i)`. */
  function Flip(x: bv16, i: nat): bv16
    requires i < 16
  {
    x ^ (1 << (i as bv16))
  }

  /** Flipping bit 0 changes the number of set bits by one. */
  lemma OnesFlipLow(x: bv16)
    ensures CountOnes(x ^ 1) == if x & 1 == 1 then CountOnes(x) - 1 else CountOnes(x) + 1
  {
    assert (x ^ 1) >> 1 == x >> 1;
  }

  /** Flipping bit 0 changes the parity verdict. */
  lemma FlipLowChangesParity(x: bv16)
    ensures CheckParity(x ^ 1) != CheckParity(x)
  {
    OnesFlipLow(x);
  }

  /** The single-bit correction loop from bit `i` upwards: the first flip that passes. */
  function FirstFlip(c: bv16, i: nat): Option<bv16>
    requires i <= 15
    decreases 15 - i
  {
    if i == 15 then None
    else if CheckParity(Flip(c, i)) then Some(Flip(c, i))
    else FirstFlip(c, i + 1)
  }

  /** What `correct_format` returns. */
  function CorrectedFormat(c: bv16): Option<bv16>
  {
    if c == 0 then None
    else if CheckParity(c) then Some(c)
    else FirstFlip(c, 0)
  }

  /**
   * Zero is refused; every other word is accepted, either as it is (even
   * parity) or with bit 0 flipped, since that flip always fixes the parity.
   */
  lemma CorrectedFormatClosedForm(c: bv16)
    ensures c == 0 ==> CorrectedFormat(c) == None
    ensures c != 0 ==> CorrectedFormat(c) == Some(if CheckParity(c) then c else c ^ 1)
    ensures forall v :: CorrectedFormat(c) == Some(v) ==> CheckParity(v)
  {
    if c != 0 && !CheckParity(c) {
      assert Flip(c, 0) == c ^ 1;
      FlipLowChangesParity(c);
    }
  }

  /** `correct_format`. */
  method CorrectFormat(codeword: bv16) returns (r: Option<bv16>)
    ensures r == CorrectedFormat(codeword)
    ensures codeword != 0 ==> r == Some(if CheckParity(codeword) then codeword else codeword ^ 1)
  {
    CorrectedFormatClosedForm(codeword);
    if codeword == 0 {
      return None;
    }
    if CheckParity(codeword) {
      return Some(codeword);
    }
    var i := 0;
    while i < 15
      invariant 0 <= i <= 15
      invariant FirstFlip(codeword, i) == FirstFlip(codeword, 0)
    {
      var test := Flip(codeword, i);
      if CheckParity(test) {
        return Some(test);
      }
      i := i + 1;
    }
    return None;
  }

  /** `decode_format`: (EC bits, mask bits) of the corrected word's top five bits. */
  function DecodeFormat(format: bv16): (r: Option<(nat, nat)>)
    ensures r.Some? <==> format != 0
    ensures r.Some? ==> r.value.0 < 4 && r.value.1 < 8
  {
    CorrectedFormatClosedForm(format);
    match CorrectedFormat(format)
    case None => None
    case Some(corrected) =>
      var data := (corrected >> 10) as nat;
      Some(((data / 8) % 4, data % 8))
  }

  /**
   * The correction never touches the data bits: a non-zero word decodes to
   * its own bits 14-13 and 12-10.
   */
  lemma DecodeFormatReadsOwnBits(format: bv16)
    requires format != 0
    ensures DecodeFormat(format) == Some(((((format >> 13) & 3) as nat), (((format >> 10) & 7) as nat)))
  {
    CorrectedFormatClosedForm(format);
    var c := if CheckParity(format) then format else format ^ 1;
    assert c >> 10 == format >> 10;
    var data := (format >> 10) as nat;
    assert data / 8 % 4 == ((format >> 13) & 3) as nat;
    assert data % 8 == ((format >> 10) & 7) as nat;
  }

  /** The unit test word 0b00101_1111001100 is accepted, as EC bits 0 and mask 5. */
  lemma DecodeFormatSample()
    ensures DecodeFormat(0x17CC) == Some((0, 5))
  {
    DecodeFormatReadsOwnBits(0x17CC);
  }
}
