/** The QR code model types (src/models/qr_code.rs): versions, EC levels, mask patterns. */
module QrCode {
  import opened Wrappers

  datatype Version = Model1(n: u8) | Model2(n: u8) | Micro(n: u8)

  /** `Version::number`. */
  function Number(v: Version): u8
  {
    match v
    case Model1(n) => n
    case Model2(n) => n
    case Micro(n) => n
  }

  /** `Version::size`: modules per side. */
  function Size(v: Version): (r: nat)
    ensures !v.Micro? ==> r >= 17 && r % 4 == 1 && (r - 17) / 4 == Number(v)
    ensures v.Micro? ==> r == (if 1 <= v.n <= 4 then 2 * v.n + 9 else 0)
  {
    match v
    case Model1(n) => 4 * n + 17
    case Model2(n) => 4 * n + 17
    case Micro(n) =>
      if n == 1 then 11 else if n == 2 then 13 else if n == 3 then 15 else if n == 4 then 17 else 0
  }

  /** Model 1 and Model 2 sizes determine the version number. */
  lemma SizeDeterminesNumber(a: Version, b: Version)
    requires !a.Micro? && !b.Micro?
    ensures Size(a) == Size(b) <==> Number(a) == Number(b)
  {
  }

  datatype ECLevel = L | M | Q | H

  /** The enum discriminant: L = 0, M = 1, Q = 2, H = 3. */
  function LevelIndex(e: ECLevel): (r: nat)
    ensures r < 4
  {
    match e
    case L => 0
    case M => 1
    case Q => 2
    case H => 3
  }

  /** `ECLevel::from_bits`: total on the low two bits, 00 -> L ... 11 -> H. */
  function LevelFromBits(bits: u8): (r: Option<ECLevel>)
    ensures r.Some? && LevelIndex(r.value) == bits % 4
  {
    match bits % 4
    case 0 => Some(L)
    case 1 => Some(M)
    case 2 => Some(Q)
    case 3 => Some(H)
  }

  /** from_bits inverts the discriminant, and reads only the low two bits. */
  lemma LevelFromBitsInverse(e: ECLevel, bits: u8)
    ensures LevelFromBits(LevelIndex(e)) == Some(e)
    ensures LevelFromBits(bits) == LevelFromBits(bits % 4)
  {
  }

  /** The base count of `ec_codewords`: by Model 2 version, 7 for every other model. */
  function EcBase(v: Version): nat
  {
    if v.Model2? then (if v.n == 1 then 7 else if v.n == 2 then 10 else if v.n == 3 then 15 else 20)
    else 7
  }

  /** `ECLevel::ec_codewords`: the base scaled by 1, 2, 3, 4 for L, M, Q, H. */
  function EcCodewords(e: ECLevel, v: Version): (r: nat)
    ensures r == EcBase(v) * (LevelIndex(e) + 1)
    ensures 7 <= r <= 80
  {
    var base := EcBase(v);
    match e
    case L => base
    case M => base * 2
    case Q => base * 3
    case H => base * 4
  }

  /** A higher level never has fewer EC codewords. */
  lemma EcCodewordsMonotone(a: ECLevel, b: ECLevel, v: Version)
    requires LevelIndex(a) < LevelIndex(b)
    ensures EcCodewords(a, v) < EcCodewords(b, v)
  {
  }

  datatype MaskPattern = Pattern0 | Pattern1 | Pattern2 | Pattern3 | Pattern4 | Pattern5 | Pattern6 | Pattern7

  function MaskIndex(p: MaskPattern): (r: nat)
    ensures r < 8
  {
    match p
    case Pattern0 => 0
    case Pattern1 => 1
    case Pattern2 => 2
    case Pattern3 => 3
    case Pattern4 => 4
    case Pattern5 => 5
    case Pattern6 => 6
    case Pattern7 => 7
  }

  /** `MaskPattern::from_bits`: total on the low three bits. */
  function MaskFromBits(bits: u8): (r: Option<MaskPattern>)
    ensures r.Some? && MaskIndex(r.value) == bits % 8
  {
    match bits % 8
    case 0 => Some(Pattern0)
    case 1 => Some(Pattern1)
    case 2 => Some(Pattern2)
    case 3 => Some(Pattern3)
    case 4 => Some(Pattern4)
    case 5 => Some(Pattern5)
    case 6 => Some(Pattern6)
    case 7 => Some(Pattern7)
  }

  lemma MaskFromBitsInverse(p: MaskPattern, bits: u8)
    ensures MaskFromBits(MaskIndex(p)) == Some(p)
    ensures MaskFromBits(bits) == MaskFromBits(bits % 8)
  {
  }

  /** `MaskPattern::is_masked(i, j)` with i the row and j the column. */
  function IsMasked(p: MaskPattern, i: nat, j: nat): bool
  {
    match p
    case Pattern0 => (i + j) % 2 == 0
    case Pattern1 => i % 2 == 0
    case Pattern2 => j % 3 == 0
    case Pattern3 => (i + j) % 3 == 0
    case Pattern4 => (i / 2 + j / 3) % 2 == 0
    case Pattern5 => (i * j) % 2 + (i * j) % 3 == 0
    case Pattern6 => ((i * j) % 2 + (i * j) % 3) % 2 == 0
    case Pattern7 => ((i + j) % 2 + (i * j) % 3) % 2 == 0
  }

  /**
   * Patterns 0, 3, 5, 6 and 7 do not depend on which argument is the row;
   * patterns 1, 2 and 4 do, so the argument order of callers matters.
   */
  lemma MaskSymmetry(p: MaskPattern, i: nat, j: nat)
    ensures p in {Pattern0, Pattern3, Pattern5, Pattern6, Pattern7} ==> IsMasked(p, i, j) == IsMasked(p, j, i)
    ensures IsMasked(Pattern1, 0, 1) != IsMasked(Pattern1, 1, 0)
    ensures IsMasked(Pattern2, 0, 1) != IsMasked(Pattern2, 1, 0)
    ensures IsMasked(Pattern4, 0, 2) != IsMasked(Pattern4, 2, 0)
  {
    assert i * j == j * i;
  }

  /** Pattern 5 masks a subset of the cells Pattern 6 masks. */
  lemma Pattern5Within6(i: nat, j: nat)
    ensures IsMasked(Pattern5, i, j) ==> IsMasked(Pattern6, i, j)
  {
  }

  /** The unit test: Pattern 0 masks (0,0) and (1,1) but not (0,1). */
  lemma Pattern0Samples()
    ensures IsMasked(Pattern0, 0, 0) && IsMasked(Pattern0, 1, 1) && !IsMasked(Pattern0, 0, 1)
  {
  }
}
