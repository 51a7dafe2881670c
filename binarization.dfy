/**
 * Binarisation (src/utils/binarization.rs): integral images of the grey
 * values or their squares, rectangle sums read back from them, and the
 * global-threshold, Otsu and local-mean binarisations into a `BitMatrix`
 * (a cell is true, black, when its grey value is below the threshold).
 *
 * An integral image holds `u32` values (`u64` for the squares); the sums
 * wrap modulo 2^32 (2^64), as release builds compute them.
 */
module Binarization {
  import opened Wrappers
  import opened Matrix

  const M32: nat := 0x1_0000_0000
  const M64: nat := 0x1_0000_0000_0000_0000

  /** What a pixel adds to an integral image: its grey value, or its square. */
  function Val(p: u8, squared: bool): nat
  {
    if squared then p * p else p
  }

  /** The word size of an integral image: `u32`, or `u64` for squares. */
  function Modulus(squared: bool): nat
  {
    if squared then M64 else M32
  }

  // ------------------------------------------------------------ row-major positions

  /** Where row `y` of a row-major layout of width `w` begins: `y * w`, built by repeated addition. */
  function RowStart(w: nat, y: nat): nat
  {
    if y == 0 then 0 else RowStart(w, y - 1) + w
  }

  lemma {:induction false} RowStartIsProduct(w: nat, y: nat)
    ensures RowStart(w, y) == y * w
  {
    if y > 0 {
      RowStartIsProduct(w, y - 1);
      assert (y - 1) * w + w == y * w;
    }
  }

  /** The start of row `h` is the area `w * h`, in the order the image's length is written. */
  lemma RowStartArea(w: nat, h: nat)
    ensures RowStart(w, h) == w * h
  {
    RowStartIsProduct(w, h);
  }

  lemma {:induction false} RowStartMono(w: nat, y: nat, h: nat)
    requires y <= h
    ensures RowStart(w, y) <= RowStart(w, h)
  {
    if y < h {
      RowStartMono(w, y, h - 1);
    }
  }

  /** The position of cell (x, y): `y * w + x`. */
  function Pos(w: nat, x: nat, y: nat): nat
  {
    RowStart(w, y) + x
  }

  /** The cells of a `w` by `h` image have positions below `w * h`. */
  lemma PosBound(w: nat, h: nat, x: nat, y: nat)
    requires x < w && y < h
    ensures Pos(w, x, y) < RowStart(w, h) && RowStart(w, y + 1) <= RowStart(w, h)
  {
    RowStartMono(w, y + 1, h);
  }

  /** `Pos` is the row-major index `y * w + x`. */
  lemma PosIsIndex(w: nat, x: nat, y: nat)
    ensures Pos(w, x, y) == y * w + x
  {
    RowStartIsProduct(w, y);
  }

  // ------------------------------------------------------------ sums over the image

  /** The sum of `n` pixels from position `start` of the row-major buffer. */
  function Run(gray: seq<u8>, start: nat, n: nat, squared: bool): nat
    requires start + n <= |gray|
  {
    if n == 0 then 0 else Run(gray, start, n - 1, squared) + Val(gray[start + n - 1], squared)
  }

  /** A run splits at any point. */
  lemma {:induction false} RunSplit(gray: seq<u8>, start: nat, a: nat, n: nat, squared: bool)
    requires start + a + n <= |gray|
    ensures Run(gray, start, a + n, squared) == Run(gray, start, a, squared) + Run(gray, start + a, n, squared)
  {
    if n > 0 {
      RunSplit(gray, start, a, n - 1, squared);
    }
  }

  /** The sum over the top-left `x` by `y` corner of an image of width `w`. */
  function Prefix(gray: seq<u8>, w: nat, x: nat, y: nat, squared: bool): nat
    requires x <= w && RowStart(w, y) <= |gray|
  {
    if y == 0 then 0
    else Prefix(gray, w, x, y - 1, squared) + Run(gray, RowStart(w, y - 1), x, squared)
  }

  /** The sum over columns `x1..=x2` of rows `y1..y` (the last row excluded). */
  function Rect(gray: seq<u8>, w: nat, x1: nat, x2: nat, y1: nat, y: nat, squared: bool): nat
    requires x1 <= x2 < w && y1 <= y && RowStart(w, y) <= |gray|
    decreases y - y1
  {
    if y == y1 then 0
    else Rect(gray, w, x1, x2, y1, y - 1, squared) + Run(gray, RowStart(w, y - 1) + x1, x2 - x1 + 1, squared)
  }

  /** The window with corners (x1, y1) and (x2, y2), both included, lies inside a `w` by `h` image. */
  predicate InWindow(w: nat, h: nat, x1: nat, y1: nat, x2: nat, y2: nat)
  {
    x1 <= x2 < w && y1 <= y2 < h
  }

  /** The sum over the window with corners (x1, y1) and (x2, y2), both included. */
  function WindowSum(gray: seq<u8>, w: nat, h: nat, x1: nat, y1: nat, x2: nat, y2: nat, squared: bool): nat
    requires RowStart(w, h) <= |gray| && InWindow(w, h, x1, y1, x2, y2)
  {
    RowStartMono(w, y2 + 1, h);
    Rect(gray, w, x1, x2, y1, y2 + 1, squared)
  }

  /** A rectangle is its corner sums combined by inclusion and exclusion. */
  lemma {:induction false} InclusionExclusion(gray: seq<u8>, w: nat, x1: nat, x2: nat, y1: nat, y: nat, squared: bool)
    requires x1 <= x2 < w && y1 <= y && RowStart(w, y) <= |gray|
    ensures RowStart(w, y1) <= |gray|
    ensures Rect(gray, w, x1, x2, y1, y, squared) + Prefix(gray, w, x1, y, squared) + Prefix(gray, w, x2 + 1, y1, squared)
      == Prefix(gray, w, x2 + 1, y, squared) + Prefix(gray, w, x1, y1, squared)
  {
    RowStartMono(w, y1, y);
    if y > y1 {
      InclusionExclusion(gray, w, x1, x2, y1, y - 1, squared);
      RunSplit(gray, RowStart(w, y - 1), x1, x2 - x1 + 1, squared);
    }
  }

  /** An empty corner sums to zero. */
  lemma {:induction false} PrefixEmpty(gray: seq<u8>, w: nat, y: nat, squared: bool)
    requires RowStart(w, y) <= |gray|
    ensures Prefix(gray, w, 0, y, squared) == 0
  {
    if y > 0 {
      PrefixEmpty(gray, w, y - 1, squared);
    }
  }

  /** Entry (a, b) of `integral` holds the sum over the corner up to (a, b), cut to a word. */
  ghost predicate CornerEntry(integral: seq<nat>, gray: seq<u8>, w: nat, h: nat, a: nat, b: nat, squared: bool)
    requires |integral| == RowStart(w, h) <= |gray| && a < w && b < h
  {
    PosBound(w, h, a, b);
    integral[Pos(w, a, b)] == Prefix(gray, w, a + 1, b + 1, squared) % Modulus(squared)
  }

  /** Every cell before (x, y) in row-major order has its corner sum in place. */
  ghost predicate FilledBefore(integral: seq<nat>, gray: seq<u8>, w: nat, h: nat, x: nat, y: nat, squared: bool)
    requires |integral| == RowStart(w, h) <= |gray|
  {
    forall a, b :: 0 <= a < w && 0 <= b < h && (b < y || (b == y && a < x)) ==> CornerEntry(integral, gray, w, h, a, b, squared)
  }

  /** `integral` is the integral image of the `w` by `h` image `gray`, each entry cut to a word. */
  ghost predicate IsIntegral(integral: seq<nat>, gray: seq<u8>, w: nat, h: nat, squared: bool)
  {
    |integral| == RowStart(w, h) <= |gray| && FilledBefore(integral, gray, w, h, 0, h, squared)
  }

  /** A cell earlier in row-major order has an earlier position. */
  lemma PosEarlier(w: nat, a: nat, b: nat, x: nat, y: nat)
    requires a < w && (b < y || (b == y && a < x))
    ensures Pos(w, a, b) < Pos(w, x, y)
  {
    if b < y {
      RowStartMono(w, b + 1, y);
    }
  }

  /** Adding to a value already cut to a word, then cutting, is cutting the exact sum. */
  lemma ModAdd(a: nat, b: nat, squared: bool)
    ensures (a % Modulus(squared) + b) % Modulus(squared) == (a + b) % Modulus(squared)
  {
  }

  // ------------------------------------------------------------ building and querying

  /** The value a cell of row `y` receives: the row sum so far, plus the cell above when there is a row above. */
  lemma RowCell(gray: seq<u8>, w: nat, h: nat, x: nat, y: nat, squared: bool, above: nat, rowSum: nat)
    requires RowStart(w, h) <= |gray| && x < w && y < h
    requires RowStart(w, y) + x + 1 <= |gray|
    requires rowSum == Run(gray, RowStart(w, y), x + 1, squared) % Modulus(squared)
    requires y > 0 ==> above == Prefix(gray, w, x + 1, y, squared) % Modulus(squared)
    ensures RowStart(w, y + 1) <= |gray|
    ensures (if y == 0 then rowSum else (above + rowSum) % Modulus(squared)) == Prefix(gray, w, x + 1, y + 1, squared) % Modulus(squared)
  {
    PosBound(w, h, x, y);
    if y > 0 {
      var p := Prefix(gray, w, x + 1, y, squared);
      var r := Run(gray, RowStart(w, y), x + 1, squared);
      assert Prefix(gray, w, x + 1, y + 1, squared) == p + r;
      var m := Modulus(squared);
      calc {
        (above + rowSum) % m;
        (p % m + r % m) % m;
        { ModAdd(p, r % m, squared); }
        (r % m + p) % m;
        { ModAdd(r, p, squared); }
        (r + p) % m;
      }
    }
  }

  /** One row of the building loop: the running row sum, plus the value above from the second row on. */
  method IntegralRow(gray: seq<u8>, w: nat, h: nat, squared: bool, integral: array<nat>, y: nat, start: nat)
    requires integral.Length == RowStart(w, h) <= |gray| && y < h && start == RowStart(w, y)
    requires FilledBefore(integral[..], gray, w, h, 0, y, squared)
    modifies integral
    ensures FilledBefore(integral[..], gray, w, h, 0, y + 1, squared)
  {
    RowStartMono(w, y + 1, h);
    var m := Modulus(squared);
    var rowSum := 0;
    for x := 0 to w
      invariant rowSum == Run(gray, start, x, squared) % m
      invariant FilledBefore(integral[..], gray, w, h, x, y, squared)
    {
      var idx := start + x;
      ModAdd(Run(gray, start, x, squared), Val(gray[idx], squared), squared);
      rowSum := (rowSum + Val(gray[idx], squared)) % m;
      var above := 0;
      if y > 0 {
        assert CornerEntry(integral[..], gray, w, h, x, y - 1, squared);
        above := integral[idx - w];
      }
      RowCell(gray, w, h, x, y, squared, above, rowSum);
      ghost var before := integral[..];
      integral[idx] := if y == 0 then rowSum else (above + rowSum) % m;
      FillNext(before, integral[..], gray, w, h, x, y, squared);
    }
  }

  /** Writing the corner sum of (x, y) keeps every earlier entry and fills one more. */
  lemma FillNext(before: seq<nat>, after: seq<nat>, gray: seq<u8>, w: nat, h: nat, x: nat, y: nat, squared: bool)
    requires |before| == RowStart(w, h) <= |gray| && x < w && y < h
    requires FilledBefore(before, gray, w, h, x, y, squared)
    requires Pos(w, x, y) < |before| && RowStart(w, y + 1) <= |gray|
    requires after == before[Pos(w, x, y) := Prefix(gray, w, x + 1, y + 1, squared) % Modulus(squared)]
    ensures FilledBefore(after, gray, w, h, x + 1, y, squared)
  {
    forall a, b | 0 <= a < w && 0 <= b < h && (b < y || (b == y && a < x + 1))
      ensures CornerEntry(after, gray, w, h, a, b, squared)
    {
      if b < y || a < x {
        PosEarlier(w, a, b, x, y);
        assert CornerEntry(before, gray, w, h, a, b, squared);
      }
    }
  }

  /**
   * `build_integral_image(_into)` (`squared` false) and
   * `build_integral_sq_image(_into)` (`squared` true): `w * h` zeros,
   * filled row by row.
   */
  method BuildIntegralImage(gray: seq<u8>, w: nat, h: nat, squared: bool) returns (integral: array<nat>)
    requires w * h <= |gray|
    ensures fresh(integral) && integral.Length == w * h
    ensures IsIntegral(integral[..], gray, w, h, squared)
  {
    RowStartIsProduct(w, h);
    integral := new nat[w * h](_ => 0);
    for y := 0 to h
      invariant FilledBefore(integral[..], gray, w, h, 0, y, squared)
    {
      RowStartIsProduct(w, y);
      IntegralRow(gray, w, h, squared, integral, y, y * w);
    }
  }

  /** The entry just above and left of corner (x, y): the sum over the corner's `x` by `y` pixels, or zero on the border. */
  function CornerValue(integral: seq<nat>, w: nat, h: nat, x: nat, y: nat): nat
    requires |integral| == RowStart(w, h) && x <= w && y <= h
  {
    if x > 0 && y > 0 then PosBound(w, h, x - 1, y - 1); integral[Pos(w, x - 1, y - 1)] else 0
  }

  /**
   * `query_integral_sum` (`squared` false) and `query_integral_sq_sum`
   * (`squared` true): `D + A - C - B` over the four corners, in the word's
   * wrapping arithmetic.
   */
  function QueryIntegralSum(integral: seq<nat>, w: nat, h: nat, x1: nat, y1: nat, x2: nat, y2: nat, squared: bool): (r: nat)
    requires |integral| == w * h && InWindow(w, h, x1, y1, x2, y2)
    ensures r < Modulus(squared)
  {
    RowStartIsProduct(w, h);
    var a := CornerValue(integral, w, h, x1, y1);
    var b := CornerValue(integral, w, h, x2 + 1, y1);
    var c := CornerValue(integral, w, h, x1, y2 + 1);
    var d := CornerValue(integral, w, h, x2 + 1, y2 + 1);
    (d + a - c - b) % Modulus(squared)
  }

  /** Cutting each corner to a word and then the combination is cutting the exact combination. */
  lemma ModCombine(d: nat, a: nat, c: nat, b: nat, squared: bool)
    ensures (d % Modulus(squared) + a % Modulus(squared) - c % Modulus(squared) - b % Modulus(squared)) % Modulus(squared)
      == (d + a - c - b) % Modulus(squared)
  {
  }

  /** The entry of the integral image at (x, y) holds the corner sum up to there. */
  lemma IntegralCorner(integral: seq<nat>, gray: seq<u8>, w: nat, h: nat, x: nat, y: nat, squared: bool)
    requires IsIntegral(integral, gray, w, h, squared) && x < w && y < h
    ensures Pos(w, x, y) < |integral| && RowStart(w, y + 1) <= |gray|
    ensures integral[Pos(w, x, y)] == Prefix(gray, w, x + 1, y + 1, squared) % Modulus(squared)
  {
    PosBound(w, h, x, y);
    assert CornerEntry(integral, gray, w, h, x, y, squared);
  }

  /** A query of a true integral image reads the four corner sums, each cut to a word. */
  lemma QueryCorners(integral: seq<nat>, gray: seq<u8>, w: nat, h: nat, x1: nat, y1: nat, x2: nat, y2: nat, squared: bool)
    requires IsIntegral(integral, gray, w, h, squared) && InWindow(w, h, x1, y1, x2, y2)
    ensures |integral| == w * h && RowStart(w, y1) <= RowStart(w, y2 + 1) <= |gray|
    ensures var m := Modulus(squared);
      QueryIntegralSum(integral, w, h, x1, y1, x2, y2, squared)
      == (Prefix(gray, w, x2 + 1, y2 + 1, squared) % m + Prefix(gray, w, x1, y1, squared) % m
          - Prefix(gray, w, x1, y2 + 1, squared) % m - Prefix(gray, w, x2 + 1, y1, squared) % m) % m
  {
    RowStartIsProduct(w, h);
    RowStartMono(w, y1, y2 + 1);
    CornerOrZero(integral, gray, w, h, x1, y1, squared);
    CornerOrZero(integral, gray, w, h, x2 + 1, y1, squared);
    CornerOrZero(integral, gray, w, h, x1, y2 + 1, squared);
    CornerOrZero(integral, gray, w, h, x2 + 1, y2 + 1, squared);
  }

  /** The corner sum over the top-left `x` by `y` pixels is an entry of the integral image, or zero when the corner is empty. */
  lemma CornerOrZero(integral: seq<nat>, gray: seq<u8>, w: nat, h: nat, x: nat, y: nat, squared: bool)
    requires IsIntegral(integral, gray, w, h, squared) && x <= w && y <= h
    ensures RowStart(w, y) <= |gray|
    ensures CornerValue(integral, w, h, x, y) == Prefix(gray, w, x, y, squared) % Modulus(squared)
  {
    RowStartMono(w, y, h);
    if x > 0 && y > 0 {
      IntegralCorner(integral, gray, w, h, x - 1, y - 1, squared);
    } else if y > 0 {
      PrefixEmpty(gray, w, y, squared);
    }
  }

  /** A query of a true integral image is the window's sum, cut to a word. */
  lemma QueryMeaning(integral: seq<nat>, gray: seq<u8>, w: nat, h: nat, x1: nat, y1: nat, x2: nat, y2: nat, squared: bool)
    requires IsIntegral(integral, gray, w, h, squared) && InWindow(w, h, x1, y1, x2, y2)
    ensures |integral| == w * h
    ensures QueryIntegralSum(integral, w, h, x1, y1, x2, y2, squared) == WindowSum(gray, w, h, x1, y1, x2, y2, squared) % Modulus(squared)
  {
    QueryCorners(integral, gray, w, h, x1, y1, x2, y2, squared);
    InclusionExclusion(gray, w, x1, x2, y1, y2 + 1, squared);
    ModCombine(Prefix(gray, w, x2 + 1, y2 + 1, squared), Prefix(gray, w, x1, y1, squared),
      Prefix(gray, w, x1, y2 + 1, squared), Prefix(gray, w, x2 + 1, y1, squared), squared);
  }

  /** The samples of the source: on the 3 by 3 image 1..9, the whole is 45, the top-left 2 by 2 is 12, the centre 5; squared, 285 and 25. */
  lemma QuerySamples(integral: seq<nat>, integralSq: seq<nat>)
    requires IsIntegral(integral, [1, 2, 3, 4, 5, 6, 7, 8, 9], 3, 3, false)
    requires IsIntegral(integralSq, [1, 2, 3, 4, 5, 6, 7, 8, 9], 3, 3, true)
    ensures QueryIntegralSum(integral, 3, 3, 0, 0, 2, 2, false) == 45
    ensures QueryIntegralSum(integral, 3, 3, 0, 0, 1, 1, false) == 12
    ensures QueryIntegralSum(integral, 3, 3, 1, 1, 1, 1, false) == 5
    ensures QueryIntegralSum(integralSq, 3, 3, 0, 0, 2, 2, true) == 285
    ensures QueryIntegralSum(integralSq, 3, 3, 1, 1, 1, 1, true) == 25
  {
    var g: seq<u8> := [1, 2, 3, 4, 5, 6, 7, 8, 9];
    assert RowStart(3, 1) == 3 && RowStart(3, 2) == 6 && RowStart(3, 3) == 9;
    QueryMeaning(integral, g, 3, 3, 0, 0, 2, 2, false);
    QueryMeaning(integral, g, 3, 3, 0, 0, 1, 1, false);
    QueryMeaning(integral, g, 3, 3, 1, 1, 1, 1, false);
    QueryMeaning(integralSq, g, 3, 3, 0, 0, 2, 2, true);
    QueryMeaning(integralSq, g, 3, 3, 1, 1, 1, 1, true);
    assert Run(g, 0, 3, false) == 6 && Run(g, 3, 3, false) == 15 && Run(g, 6, 3, false) == 24;
    assert Run(g, 0, 2, false) == 3 && Run(g, 3, 2, false) == 9 && Run(g, 4, 1, false) == 5;
    assert Run(g, 0, 3, true) == 14 && Run(g, 3, 3, true) == 77 && Run(g, 6, 3, true) == 194;
    assert Run(g, 4, 1, true) == 25;
  }

  // ------------------------------------------------------------ binarisation into a matrix

  /** The grey value of pixel (x, y) of a `w` by `h` row-major image: `gray[y * w + x]`. */
  function Pixel(gray: seq<u8>, w: nat, h: nat, x: nat, y: nat): u8
    requires w * h <= |gray| && x < w && y < h
  {
    IndexFacts(w, h, x, y);
    gray[Index(w, x, y)]
  }

  /**
   * The loops shared by `threshold_binarize` and `otsu_binarize_into`:
   * every cell of `binary` is set, black exactly when its grey value is
   * below `threshold`.
   */
  method ThresholdInto(gray: seq<u8>, w: nat, h: nat, threshold: u8, binary: BitMatrix)
    requires w * h <= |gray|
    requires binary.Valid() && binary.width == w && binary.height == h
    modifies binary, binary.data
    ensures binary.Valid()
    ensures forall x, y :: 0 <= x < w && 0 <= y < h ==> Cell(binary.grid, x, y) == (Pixel(gray, w, h, x, y) < threshold)
  {
    for y := 0 to h
      invariant binary.Valid()
      invariant forall a, b :: 0 <= a < w && 0 <= b < h && b < y ==> Cell(binary.grid, a, b) == (Pixel(gray, w, h, a, b) < threshold)
    {
      for x := 0 to w
        invariant binary.Valid()
        invariant forall a, b :: 0 <= a < w && 0 <= b < h && (b < y || (b == y && a < x)) ==>
          Cell(binary.grid, a, b) == (Pixel(gray, w, h, a, b) < threshold)
      {
        IndexFacts(w, h, x, y);
        var idx := y * w + x;
        var isBlack := gray[idx] < threshold;
        binary.Set(x, y, isBlack);
      }
    }
  }

  /** `threshold_binarize`: a fresh matrix in which a cell is black exactly when its grey value is below `threshold`. */
  method ThresholdBinarize(gray: seq<u8>, w: nat, h: nat, threshold: u8) returns (binary: BitMatrix)
    requires w * h <= |gray|
    ensures fresh(binary) && fresh(binary.data) && binary.Valid() && binary.width == w && binary.height == h
    ensures forall x, y :: 0 <= x < w && 0 <= y < h ==> Cell(binary.grid, x, y) == (Pixel(gray, w, h, x, y) < threshold)
  {
    binary := new BitMatrix(w, h);
    ThresholdInto(gray, w, h, threshold, binary);
  }

  /** The sample of the source: 100 and 50 fall below 128, 150 and 200 do not. */
  lemma ThresholdSample()
    ensures var g: seq<u8> := [100, 150, 200, 50];
      (Pixel(g, 2, 2, 0, 0) < 128) && !(Pixel(g, 2, 2, 1, 0) < 128)
      && !(Pixel(g, 2, 2, 0, 1) < 128) && (Pixel(g, 2, 2, 1, 1) < 128)
  {
    IndexFacts(2, 2, 1, 1);
  }

  /**
   * The window `adaptive_binarize_core` averages over: `window / 2` cells
   * each way from (x, y), clamped to the image.
   */
  function Window(w: nat, h: nat, window: nat, x: nat, y: nat): (r: (nat, nat, nat, nat))
    requires x < w && y < h
    ensures InWindow(w, h, r.0, r.1, r.2, r.3)
    ensures r.0 <= x <= r.2 && r.1 <= y <= r.3
    ensures x - r.0 == (if x < window / 2 then x else window / 2) && r.2 - x <= window / 2
    ensures y - r.1 == (if y < window / 2 then y else window / 2) && r.3 - y <= window / 2
  {
    var half := window / 2;
    var x1 := if x >= half then x - half else 0;
    var y1 := if y >= half then y - half else 0;
    var x2 := if x + half < w - 1 then x + half else w - 1;
    var y2 := if y + half < h - 1 then y + half else h - 1;
    (x1, y1, x2, y2)
  }

  lemma ProductBounds(n: nat, m: nat, w: nat, h: nat)
    requires 1 <= n <= w && 1 <= m <= h
    ensures 1 <= n * m <= w * h
  {
    MulLe(1, n, m);
    MulLe(n, w, m);
    MulLe(m, h, w);
  }

  /** The number of pixels of a window inside the image: at least one, at most the image's size. */
  function WindowPixels(w: nat, h: nat, x1: nat, y1: nat, x2: nat, y2: nat): (c: nat)
    requires InWindow(w, h, x1, y1, x2, y2)
    ensures 1 <= c
  {
    ProductBounds(x2 - x1 + 1, y2 - y1 + 1, w, h);
    (x2 - x1 + 1) * (y2 - y1 + 1)
  }

  /** A window holds no more pixels than the image. */
  lemma WindowPixelsBound(w: nat, h: nat, x1: nat, y1: nat, x2: nat, y2: nat)
    requires InWindow(w, h, x1, y1, x2, y2)
    ensures WindowPixels(w, h, x1, y1, x2, y2) <= w * h
  {
    ProductBounds(x2 - x1 + 1, y2 - y1 + 1, w, h);
  }

  /**
   * The local threshold of pixel (x, y): the window's sum, as the `u32`
   * integral image returns it, divided by the window's pixel count, then
   * cut to `u8`.
   */
  function LocalMean(gray: seq<u8>, w: nat, h: nat, window: nat, x: nat, y: nat): u8
    requires w * h <= |gray| && x < w && y < h
  {
    RowStartArea(w, h);
    var r := Window(w, h, window, x, y);
    var count := WindowPixels(w, h, r.0, r.1, r.2, r.3);
    ((WindowSum(gray, w, h, r.0, r.1, r.2, r.3, false) % M32) / count % 256) as u8
  }

  /** The exact mean of the window around (x, y), rounded down. */
  function TrueMean(gray: seq<u8>, w: nat, h: nat, window: nat, x: nat, y: nat): nat
    requires w * h <= |gray| && x < w && y < h
  {
    RowStartArea(w, h);
    var r := Window(w, h, window, x, y);
    var count := WindowPixels(w, h, r.0, r.1, r.2, r.3);
    Quotient(WindowSum(gray, w, h, r.0, r.1, r.2, r.3, false), count)
  }

  /** `sum / count` rounded down, for a positive count. */
  function Quotient(sum: nat, count: nat): (q: nat)
    requires count >= 1
    ensures q * count <= sum < (q + 1) * count
  {
    sum / count
  }

  /** A run of `n` grey values sums to at most `255 * n`. */
  lemma {:induction false} RunBound(gray: seq<u8>, start: nat, n: nat)
    requires start + n <= |gray|
    ensures Run(gray, start, n, false) <= 255 * n
  {
    if n > 0 {
      RunBound(gray, start, n - 1);
    }
  }

  /** A rectangle `n` pixels wide sums to at most 255 per pixel: `RowStart(255 * n, rows)` is `rows * 255 * n`. */
  lemma {:induction false} RectBound(gray: seq<u8>, w: nat, x1: nat, x2: nat, y1: nat, y: nat)
    requires x1 <= x2 < w && y1 <= y && RowStart(w, y) <= |gray|
    ensures Rect(gray, w, x1, x2, y1, y, false) <= RowStart(255 * (x2 - x1 + 1), y - y1)
  {
    if y > y1 {
      RectBound(gray, w, x1, x2, y1, y - 1);
      RunBound(gray, RowStart(w, y - 1) + x1, x2 - x1 + 1);
    }
  }

  /** A window's sum is at most 255 per pixel. */
  lemma WindowSumBound(gray: seq<u8>, w: nat, h: nat, x1: nat, y1: nat, x2: nat, y2: nat)
    requires RowStart(w, h) <= |gray| && InWindow(w, h, x1, y1, x2, y2)
    ensures WindowSum(gray, w, h, x1, y1, x2, y2, false) <= 255 * WindowPixels(w, h, x1, y1, x2, y2)
  {
    var n, m := x2 - x1 + 1, y2 - y1 + 1;
    RowStartMono(w, y2 + 1, h);
    RectBound(gray, w, x1, x2, y1, y2 + 1);
    RowStartIsProduct(255 * n, m);
    Regroup(n, m);
  }

  lemma Regroup(n: nat, m: nat)
    ensures m * (255 * n) == 255 * (n * m)
  {
  }

  /** Without a wrap, the cut to a word and the cut to a byte keep the mean. */
  lemma MeanFacts(sum: nat, count: nat, area: nat)
    requires 1 <= count <= area && sum <= 255 * count && 255 * area < M32
    ensures sum % M32 == sum && (sum / count) % 256 == sum / count <= 255
  {
  }

  /**
   * When `255 * w * h` fits a `u32` nothing wraps: the local threshold is
   * the floor of the window's true mean.
   */
  lemma AdaptiveMeaning(gray: seq<u8>, w: nat, h: nat, window: nat, x: nat, y: nat)
    requires w * h <= |gray| && 255 * (w * h) < M32 && x < w && y < h
    ensures LocalMean(gray, w, h, window, x, y) as nat == TrueMean(gray, w, h, window, x, y) <= 255
  {
    RowStartIsProduct(w, h);
    var r := Window(w, h, window, x, y);
    WindowSumBound(gray, w, h, r.0, r.1, r.2, r.3);
    WindowPixelsBound(w, h, r.0, r.1, r.2, r.3);
    MeanFacts(WindowSum(gray, w, h, r.0, r.1, r.2, r.3, false), WindowPixels(w, h, r.0, r.1, r.2, r.3), w * h);
  }

  /** The local threshold of pixel (x, y), read from the integral image as the core's loop body does. */
  method LocalThreshold(gray: seq<u8>, w: nat, h: nat, window: nat, integral: seq<nat>, x: nat, y: nat) returns (threshold: u8)
    requires w * h <= |gray| && IsIntegral(integral, gray, w, h, false) && x < w && y < h
    ensures threshold == LocalMean(gray, w, h, window, x, y)
  {
    var half := window / 2;
    var x1 := if x >= half then x - half else 0;
    var y1 := if y >= half then y - half else 0;
    var x2 := if x + half < w - 1 then x + half else w - 1;
    var y2 := if y + half < h - 1 then y + half else h - 1;
    var pixelCount := (x2 - x1 + 1) * (y2 - y1 + 1);
    assert pixelCount == WindowPixels(w, h, x1, y1, x2, y2);
    QueryMeaning(integral, gray, w, h, x1, y1, x2, y2, false);
    var localSum := QueryIntegralSum(integral, w, h, x1, y1, x2, y2, false);
    threshold := (localSum / pixelCount % 256) as u8;
  }

  /**
   * `adaptive_binarize_core`: every cell of `binary` is set, black exactly
   * when its grey value is below the local threshold read from `integral`.
   */
  method AdaptiveBinarizeCore(gray: seq<u8>, w: nat, h: nat, window: nat, binary: BitMatrix, integral: seq<nat>)
    requires w * h <= |gray| && IsIntegral(integral, gray, w, h, false)
    requires binary.Valid() && binary.width == w && binary.height == h
    modifies binary, binary.data
    ensures binary.Valid()
    ensures forall x, y :: 0 <= x < w && 0 <= y < h ==>
      Cell(binary.grid, x, y) == (Pixel(gray, w, h, x, y) < LocalMean(gray, w, h, window, x, y))
  {
    for y := 0 to h
      invariant binary.Valid()
      invariant forall a, b :: 0 <= a < w && 0 <= b < h && b < y ==>
        Cell(binary.grid, a, b) == (Pixel(gray, w, h, a, b) < LocalMean(gray, w, h, window, a, b))
    {
      for x := 0 to w
        invariant binary.Valid()
        invariant forall a, b :: 0 <= a < w && 0 <= b < h && (b < y || (b == y && a < x)) ==>
          Cell(binary.grid, a, b) == (Pixel(gray, w, h, a, b) < LocalMean(gray, w, h, window, a, b))
      {
        IndexFacts(w, h, x, y);
        var idx := y * w + x;
        var threshold := LocalThreshold(gray, w, h, window, integral, x, y);
        var isBlack := gray[idx] < threshold;
        binary.Set(x, y, isBlack);
      }
    }
  }

  /** `adaptive_binarize`: a fresh matrix, the integral image of `gray`, and the shared core. */
  method AdaptiveBinarize(gray: seq<u8>, w: nat, h: nat, window: nat) returns (binary: BitMatrix)
    requires w * h <= |gray|
    ensures fresh(binary) && fresh(binary.data) && binary.Valid() && binary.width == w && binary.height == h
    ensures forall x, y :: 0 <= x < w && 0 <= y < h ==>
      Cell(binary.grid, x, y) == (Pixel(gray, w, h, x, y) < LocalMean(gray, w, h, window, x, y))
  {
    binary := new BitMatrix(w, h);
    var integral := BuildIntegralImage(gray, w, h, false);
    AdaptiveBinarizeCore(gray, w, h, window, binary, integral[..]);
  }

  // ------------------------------------------------------------ Otsu

  /** The histogram of `gray`: entry `v` counts the pixels of value `v`. */
  function HistogramOf(gray: seq<u8>): (hist: seq<nat>)
    ensures |hist| == 256
  {
    seq(256, (v: int) requires 0 <= v < 256 => multiset(gray)[v as u8])
  }

  /** The histogram loop: one increment per pixel. */
  method Histogram(gray: seq<u8>) returns (hist: array<nat>)
    ensures fresh(hist) && hist[..] == HistogramOf(gray)
  {
    hist := new nat[256](_ => 0);
    for i := 0 to |gray|
      invariant hist.Length == 256
      invariant forall v :: 0 <= v < 256 ==> hist[v] == multiset(gray[..i])[v as u8]
    {
      assert gray[..i + 1] == gray[..i] + [gray[i]];
      hist[gray[i]] := hist[gray[i]] + 1;
    }
    assert gray[..|gray|] == gray;
  }

  /** The number of pixels with values in `lo..hi`, or (`weighted`) the sum of their values. */
  function Range(hist: seq<nat>, lo: nat, hi: nat, weighted: bool): nat
    requires lo <= hi <= |hist|
    decreases hi - lo
  {
    if hi == lo then 0 else Range(hist, lo, hi - 1, weighted) + (if weighted then hist[hi - 1] * (hi - 1) else hist[hi - 1])
  }

  /** A range splits at any point. */
  lemma {:induction false} RangeSplit(hist: seq<nat>, lo: nat, mid: nat, hi: nat, weighted: bool)
    requires lo <= mid <= hi <= |hist|
    ensures Range(hist, lo, mid, weighted) + Range(hist, mid, hi, weighted) == Range(hist, lo, hi, weighted)
  {
    if hi > mid {
      RangeSplit(hist, lo, mid, hi - 1, weighted);
    }
  }

  /**
   * The class statistics of the inner loop over all 256 intensities: count
   * and value sum of the pixels below `threshold` and of the others.
   */
  method ClassSums(hist: seq<nat>, threshold: nat) returns (pixels1: nat, sum1: nat, pixels2: nat, sum2: nat)
    requires |hist| == 256 && threshold <= 256
    ensures pixels1 == Range(hist, 0, threshold, false) && sum1 == Range(hist, 0, threshold, true)
    ensures pixels2 == Range(hist, threshold, 256, false) && sum2 == Range(hist, threshold, 256, true)
  {
    pixels1, sum1, pixels2, sum2 := 0, 0, 0, 0;
    for intensity := 0 to 256
      invariant intensity <= threshold ==> pixels1 == Range(hist, 0, intensity, false) && sum1 == Range(hist, 0, intensity, true)
      invariant intensity <= threshold ==> pixels2 == 0 && sum2 == 0
      invariant intensity > threshold ==> pixels1 == Range(hist, 0, threshold, false) && sum1 == Range(hist, 0, threshold, true)
      invariant intensity > threshold ==> pixels2 == Range(hist, threshold, intensity, false) && sum2 == Range(hist, threshold, intensity, true)
    {
      var count := hist[intensity];
      if intensity < threshold {
        pixels1 := pixels1 + count;
        sum1 := sum1 + count * intensity;
      } else {
        pixels2 := pixels2 + count;
        sum2 := sum2 + count * intensity;
      }
    }
  }

  /**
   * The between-class variance `weight1 * weight2 * (mean1 - mean2)^2` of
   * `threshold`, or zero when a class is empty (the search skips those).
   * An empty image has empty classes only, so the guard on `total` changes
   * nothing.
   */
  function Score(hist: seq<nat>, total: nat, threshold: nat): real
    requires |hist| == 256 && threshold <= 256
  {
    var pixels1 := Range(hist, 0, threshold, false);
    var pixels2 := Range(hist, threshold, 256, false);
    if pixels1 == 0 || pixels2 == 0 || total == 0 then 0.0
    else
      var mean1 := Range(hist, 0, threshold, true) as real / pixels1 as real;
      var mean2 := Range(hist, threshold, 256, true) as real / pixels2 as real;
      var weight1 := pixels1 as real / total as real;
      var weight2 := pixels2 as real / total as real;
      weight1 * weight2 * ((mean1 - mean2) * (mean1 - mean2))
  }

  lemma ProductNonNegative(a: real, b: real, d: real)
    requires a >= 0.0 && b >= 0.0
    ensures a * b * (d * d) >= 0.0
  {
    assert a * b >= 0.0;
    assert d * d >= 0.0;
  }

  /** No threshold scores below zero. */
  lemma ScoreNonNegative(hist: seq<nat>, total: nat, threshold: nat)
    requires |hist| == 256 && threshold <= 256
    ensures Score(hist, total, threshold) >= 0.0
  {
    var pixels1 := Range(hist, 0, threshold, false);
    var pixels2 := Range(hist, threshold, 256, false);
    if pixels1 != 0 && pixels2 != 0 && total != 0 {
      var mean1 := Range(hist, 0, threshold, true) as real / pixels1 as real;
      var mean2 := Range(hist, threshold, 256, true) as real / pixels2 as real;
      ProductNonNegative(pixels1 as real / total as real, pixels2 as real / total as real, mean1 - mean2);
    }
  }

  /**
   * What the search returns: a threshold of greatest score, the first one
   * that reaches it, and 128 when no threshold scores above zero.
   */
  ghost predicate OtsuChoice(gray: seq<u8>, t: u8)
  {
    var hist := HistogramOf(gray);
    (forall u :: 0 <= u < 256 ==> Score(hist, |gray|, u) <= Score(hist, |gray|, t))
    && (Score(hist, |gray|, t) > 0.0 ==> forall u :: 0 <= u < t ==> Score(hist, |gray|, u) < Score(hist, |gray|, t))
    && (Score(hist, |gray|, t) == 0.0 ==> t == 128)
  }

  /** The choice is determined: at most one threshold meets it. */
  lemma OtsuChoiceUnique(gray: seq<u8>, t: u8, t': u8)
    requires OtsuChoice(gray, t) && OtsuChoice(gray, t')
    ensures t == t'
  {
    var hist := HistogramOf(gray);
    ScoreNonNegative(hist, |gray|, t);
    ScoreNonNegative(hist, |gray|, t');
  }

  /** A class with a pixel in it holds one of the image's pixels. */
  lemma {:induction false} NonEmptyClass(gray: seq<u8>, lo: nat, hi: nat)
    requires lo <= hi <= 256 && Range(HistogramOf(gray), lo, hi, false) > 0
    ensures exists i :: 0 <= i < |gray| && lo <= gray[i] as int < hi
  {
    var hist := HistogramOf(gray);
    if hist[hi - 1] > 0 {
      assert (hi - 1) as u8 in multiset(gray);
      var i :| 0 <= i < |gray| && gray[i] == (hi - 1) as u8;
    } else {
      NonEmptyClass(gray, lo, hi - 1);
    }
  }

  /** A pixel of the image lands in the class whose range holds its value. */
  lemma {:induction false} PixelInClass(gray: seq<u8>, lo: nat, hi: nat, i: nat)
    requires lo <= hi <= 256 && i < |gray| && lo <= gray[i] as int < hi
    ensures Range(HistogramOf(gray), lo, hi, false) > 0
  {
    var hist := HistogramOf(gray);
    if gray[i] as int == hi - 1 {
      assert gray[i] in multiset(gray);
      assert hist[hi - 1] > 0;
    } else {
      PixelInClass(gray, lo, hi - 1, i);
    }
  }

  /** One step of the search: whether `threshold` is skipped, and otherwise its variance. */
  method ThresholdVariance(gray: seq<u8>, hist: seq<nat>, threshold: nat) returns (skip: bool, variance: real)
    requires hist == HistogramOf(gray) && threshold <= 256
    ensures skip ==> Score(hist, |gray|, threshold) == 0.0
    ensures !skip ==> variance == Score(hist, |gray|, threshold)
  {
    var total := |gray|;
    var pixels1, sum1, pixels2, sum2 := ClassSums(hist, threshold);
    if pixels1 == 0 || pixels2 == 0 {
      return true, 0.0;
    }
    NonEmptyClass(gray, 0, threshold);
    var mean1 := sum1 as real / pixels1 as real;
    var mean2 := sum2 as real / pixels2 as real;
    var weight1 := pixels1 as real / total as real;
    var weight2 := pixels2 as real / total as real;
    skip := false;
    variance := weight1 * weight2 * ((mean1 - mean2) * (mean1 - mean2));
  }

  /** Appending a pixel adds one to its own bin and leaves the others. */
  lemma HistogramSnoc(gray: seq<u8>, v: u8, k: nat)
    requires k < 256
    ensures HistogramOf(gray + [v])[k] == HistogramOf(gray)[k] + (if k == v as int then 1 else 0)
  {
    assert multiset(gray + [v]) == multiset(gray) + multiset{v};
  }

  /** Appending a pixel adds one to the count of every range holding it. */
  lemma {:induction false} RangeSnoc(gray: seq<u8>, v: u8, lo: nat, hi: nat)
    requires lo <= hi <= 256
    ensures Range(HistogramOf(gray + [v]), lo, hi, false)
         == Range(HistogramOf(gray), lo, hi, false) + (if lo <= v as int < hi then 1 else 0)
  {
    if hi > lo {
      RangeSnoc(gray, v, lo, hi - 1);
      HistogramSnoc(gray, v, hi - 1);
    }
  }

  /** The 256 bins together count every pixel. */
  lemma HistogramTotal(gray: seq<u8>)
    ensures Range(HistogramOf(gray), 0, 256, false) == |gray|
  {
    BinsCount(gray, 256);
  }

  /** `HistogramTotal` with the number of bins as a variable, so the range is not unfolded 256 times. */
  lemma {:induction false} BinsCount(gray: seq<u8>, bins: nat)
    requires bins == 256
    ensures Range(HistogramOf(gray), 0, bins, false) == |gray|
  {
    if |gray| == 0 {
      RangeZero(HistogramOf(gray), bins);
    } else {
      var prefix := gray[..|gray| - 1];
      var v := gray[|gray| - 1];
      BinsCount(prefix, bins);
      RangeSnoc(prefix, v, 0, bins);
      LastSplit(gray);
    }
  }

  /** A non-empty image is its pixels but the last, then the last. */
  lemma LastSplit(gray: seq<u8>)
    requires |gray| > 0
    ensures gray[..|gray| - 1] + [gray[|gray| - 1]] == gray
  {
  }

  /** The bins of an image with no pixels are all empty. */
  lemma {:induction false} RangeZero(hist: seq<nat>, hi: nat)
    requires hi <= |hist| && forall k :: 0 <= k < |hist| ==> hist[k] == 0
    ensures Range(hist, 0, hi, false) == 0
  {
    if hi > 0 {
      RangeZero(hist, hi - 1);
    }
  }

  /**
   * The class counts and sums of `calculate_otsu_threshold` are `u32`. Below
   * 16,843,010 pixels (255 times the pixel count below 2^32) every one of
   * them, and so every partial sum of the inner loop, stays below 2^32: the
   * exact sums of the model are the source's values.
   */
  lemma OtsuSumsFitU32(gray: seq<u8>, threshold: nat)
    requires 255 * |gray| < M32 && threshold <= 256
    ensures Range(HistogramOf(gray), 0, threshold, false) < M32 && Range(HistogramOf(gray), 0, threshold, true) < M32
    ensures Range(HistogramOf(gray), threshold, 256, false) < M32 && Range(HistogramOf(gray), threshold, 256, true) < M32
  {
    var hist := HistogramOf(gray);
    HistogramTotal(gray);
    RangeSplit(hist, 0, threshold, 256, false);
    WeightedAtMost(hist, 0, threshold, 255);
    WeightedAtMost(hist, threshold, 256, 255);
  }

  /** `multiset(gray)[v]` of an image whose every pixel is `v`. */
  lemma {:induction false} UniformCount(gray: seq<u8>, v: u8)
    requires forall i :: 0 <= i < |gray| ==> gray[i] == v
    ensures multiset(gray)[v] == |gray|
  {
    if |gray| > 0 {
      var prefix := gray[..|gray| - 1];
      UniformCount(prefix, v);
      assert prefix + [gray[|gray| - 1]] == gray;
      assert multiset(gray) == multiset(prefix) + multiset{v};
    }
  }

  /**
   * From 16,843,010 white pixels on, the sum of all intensities, which is
   * `class2_sum` at threshold 0, reaches 2^32, so the source's `u32` adds
   * wrap (or panic in a debug build) where the model sums exactly.
   */
  lemma OtsuSumWrapsAt(gray: seq<u8>)
    requires |gray| >= 16843010 && forall i :: 0 <= i < |gray| ==> gray[i] == 255
    ensures Range(HistogramOf(gray), 0, 256, true) >= M32
  {
    var hist := HistogramOf(gray);
    UniformCount(gray, 255);
    assert hist[255] == |gray|;
    RangeSplit(hist, 0, 255, 256, true);
    assert Range(hist, 255, 256, true) == hist[255] * 255;
  }

  /**
   * `calculate_otsu_threshold`: the histogram, then for each threshold in
   * 0..=255 the two classes, skipped when one is empty, and the variance,
   * kept only when strictly greater than the best so far (which starts at
   * zero with threshold 128).
   */
  method OtsuThreshold(gray: seq<u8>) returns (optimal: u8)
    ensures OtsuChoice(gray, optimal)
  {
    var histogram := Histogram(gray);
    var hist := histogram[..];
    ghost var total := |gray|;
    var maxVariance := 0.0;
    optimal := 128;
    ghost var scores: seq<real> := [];
    for threshold := 0 to 256
      invariant |scores| == threshold
      invariant forall u :: 0 <= u < threshold ==> scores[u] == Score(hist, total, u)
      invariant (maxVariance == 0.0 && optimal == 128) || (maxVariance > 0.0 && optimal < threshold && maxVariance == scores[optimal])
      invariant forall u :: 0 <= u < threshold ==> scores[u] <= maxVariance
      invariant maxVariance > 0.0 ==> forall u :: 0 <= u < optimal ==> scores[u] < maxVariance
    {
      var skip, variance := ThresholdVariance(gray, hist, threshold);
      scores := scores + [if skip then 0.0 else variance];
      if skip {
        continue;
      }
      if variance > maxVariance {
        maxVariance := variance;
        optimal := threshold as u8;
      }
    }
    ScoreNonNegative(hist, total, 128);
  }

  /** A histogram entry outside `lo..hi` is not counted there. */
  lemma {:induction false} RangeWithout(hist: seq<nat>, lo: nat, hi: nat, p: nat)
    requires lo <= hi <= |hist| && (p < lo || p >= hi)
    requires forall v :: 0 <= v < |hist| && v != p ==> hist[v] == 0
    ensures Range(hist, lo, hi, false) == 0
  {
    if hi > lo {
      RangeWithout(hist, lo, hi - 1, p);
    }
  }

  /** In an image of a single grey level every threshold leaves a class empty and scores zero. */
  lemma UniformScores(gray: seq<u8>, u: nat)
    requires u <= 256 && forall i, j :: 0 <= i < |gray| && 0 <= j < |gray| ==> gray[i] == gray[j]
    ensures Score(HistogramOf(gray), |gray|, u) == 0.0
  {
    var hist := HistogramOf(gray);
    if |gray| > 0 {
      var p := gray[0];
      forall v | 0 <= v < 256 && v != p as int
        ensures hist[v] == 0
      {
        assert v as u8 !in gray;
      }
      if u <= p as int {
        RangeWithout(hist, 0, u, p as int);
      } else {
        RangeWithout(hist, u, 256, p as int);
      }
    }
  }

  /** An image of a single grey level (or none) gets the default threshold 128. */
  lemma OtsuUniform(gray: seq<u8>, t: u8)
    requires OtsuChoice(gray, t)
    requires forall i, j :: 0 <= i < |gray| && 0 <= j < |gray| ==> gray[i] == gray[j]
    ensures t == 128
  {
    UniformScores(gray, t as nat);
  }

  /** The weighted sum of a range is at most its count times any bound on its values. */
  lemma {:induction false} WeightedAtMost(hist: seq<nat>, lo: nat, hi: nat, k: nat)
    requires lo <= hi <= |hist| && hi <= k + 1
    ensures Range(hist, lo, hi, true) <= k * Range(hist, lo, hi, false)
  {
    if hi > lo {
      WeightedAtMost(hist, lo, hi - 1, k);
      AtMostStep(Range(hist, lo, hi - 1, true), Range(hist, lo, hi - 1, false), hist[hi - 1], k, hi - 1);
    }
  }

  /** One more entry `h` of value `v <= k` keeps the weighted sum within `k` times the count. */
  lemma AtMostStep(a: nat, b: nat, h: nat, k: nat, v: nat)
    requires a <= k * b && v <= k
    ensures a + h * v <= k * (b + h)
  {
    MulLe(v, k, h);
    assert k * (b + h) == k * b + k * h;
    assert h * v == v * h && k * h == h * k;
  }

  /** One more entry `h` of value `v >= lo` keeps the weighted sum at least `lo` times the count. */
  lemma AtLeastStep(a: nat, b: nat, h: nat, lo: nat, v: nat)
    requires a >= lo * b && lo <= v
    ensures a + h * v >= lo * (b + h)
  {
    MulLe(lo, v, h);
    assert lo * (b + h) == lo * b + lo * h;
    assert h * v == v * h && lo * h == h * lo;
  }

  /** The weighted sum of a range is at least its count times its lowest value. */
  lemma {:induction false} WeightedAtLeast(hist: seq<nat>, lo: nat, hi: nat)
    requires lo <= hi <= |hist|
    ensures Range(hist, lo, hi, true) >= lo * Range(hist, lo, hi, false)
  {
    if hi > lo {
      WeightedAtLeast(hist, lo, hi - 1);
      AtLeastStep(Range(hist, lo, hi - 1, true), Range(hist, lo, hi - 1, false), hist[hi - 1], lo, hi - 1);
    }
  }

  lemma MeanBelow(sum: nat, count: nat, k: nat)
    requires count > 0 && sum <= k * count
    ensures sum as real / count as real <= k as real
  {
    assert sum as real <= k as real * count as real;
  }

  lemma MeanAbove(sum: nat, count: nat, k: nat)
    requires count > 0 && sum >= k * count
    ensures sum as real / count as real >= k as real
  {
    assert sum as real >= k as real * count as real;
  }

  lemma PositiveProduct(a: real, b: real, d: real)
    requires a > 0.0 && b > 0.0 && (d >= 1.0 || d <= -1.0)
    ensures a * b * (d * d) > 0.0
  {
    assert d * d >= 1.0;
    assert a * b > 0.0;
  }

  /** Splitting between two grey levels present in the image gives a positive score. */
  lemma SplitScores(gray: seq<u8>, i: nat, j: nat)
    requires i < |gray| && j < |gray| && gray[i] < gray[j]
    ensures Score(HistogramOf(gray), |gray|, gray[j] as nat) > 0.0
  {
    var hist := HistogramOf(gray);
    var b := gray[j] as nat;
    PixelInClass(gray, 0, b, i);
    PixelInClass(gray, b, 256, j);
    ScorePositive(hist, |gray|, b);
  }

  /** A threshold with pixels on both sides scores above zero: the class means are at least one grey level apart. */
  lemma ScorePositive(hist: seq<nat>, total: nat, b: nat)
    requires |hist| == 256 && 1 <= b <= 256 && total > 0
    requires Range(hist, 0, b, false) > 0 && Range(hist, b, 256, false) > 0
    ensures Score(hist, total, b) > 0.0
  {
    var pixels1 := Range(hist, 0, b, false);
    var pixels2 := Range(hist, b, 256, false);
    ClassMeans(hist, b);
    var mean1 := Range(hist, 0, b, true) as real / pixels1 as real;
    var mean2 := Range(hist, b, 256, true) as real / pixels2 as real;
    PositiveProduct(pixels1 as real / total as real, pixels2 as real / total as real, mean1 - mean2);
  }

  /** The class below threshold `b` has mean at most `b - 1`, the class above at least `b`. */
  lemma ClassMeans(hist: seq<nat>, b: nat)
    requires |hist| == 256 && 1 <= b <= 256
    requires Range(hist, 0, b, false) > 0 && Range(hist, b, 256, false) > 0
    ensures Range(hist, 0, b, true) as real / Range(hist, 0, b, false) as real <= (b - 1) as real
    ensures Range(hist, b, 256, true) as real / Range(hist, b, 256, false) as real >= b as real
  {
    WeightedAtMost(hist, 0, b, b - 1);
    WeightedAtLeast(hist, b, 256);
    MeanBelow(Range(hist, 0, b, true), Range(hist, 0, b, false), b - 1);
    MeanAbove(Range(hist, b, 256, true), Range(hist, b, 256, false), b);
  }

  /** An image with two or more grey levels is split: some pixel falls below the threshold and some does not. */
  lemma OtsuSplits(gray: seq<u8>, t: u8, i: nat, j: nat)
    requires OtsuChoice(gray, t)
    requires i < |gray| && j < |gray| && gray[i] != gray[j]
    ensures exists k :: 0 <= k < |gray| && gray[k] < t
    ensures exists k :: 0 <= k < |gray| && gray[k] >= t
  {
    if gray[i] < gray[j] {
      SplitScores(gray, i, j);
    } else {
      SplitScores(gray, j, i);
    }
    var hist := HistogramOf(gray);
    assert Score(hist, |gray|, t as nat) > 0.0;
    NonEmptyClass(gray, 0, t as nat);
    NonEmptyClass(gray, t as nat, 256);
  }

  /**
   * `otsu_binarize_into`: the Otsu threshold of `gray`, then the shared
   * thresholding loops over `output`, already of size `w` by `h`.
   */
  method OtsuBinarizeInto(gray: seq<u8>, w: nat, h: nat, output: BitMatrix) returns (ghost threshold: u8)
    requires w * h <= |gray|
    requires output.Valid() && output.width == w && output.height == h
    modifies output, output.data
    ensures output.Valid() && OtsuChoice(gray, threshold)
    ensures forall x, y :: 0 <= x < w && 0 <= y < h ==> Cell(output.grid, x, y) == (Pixel(gray, w, h, x, y) < threshold)
  {
    var t := OtsuThreshold(gray);
    threshold := t;
    ThresholdInto(gray, w, h, t, output);
  }

  /** `otsu_binarize`: a fresh matrix, filled by `otsu_binarize_into`. */
  method OtsuBinarize(gray: seq<u8>, w: nat, h: nat) returns (binary: BitMatrix, ghost threshold: u8)
    requires w * h <= |gray|
    ensures fresh(binary) && fresh(binary.data) && binary.Valid() && binary.width == w && binary.height == h
    ensures OtsuChoice(gray, threshold)
    ensures forall x, y :: 0 <= x < w && 0 <= y < h ==> Cell(binary.grid, x, y) == (Pixel(gray, w, h, x, y) < threshold)
  {
    binary := new BitMatrix(w, h);
    threshold := OtsuBinarizeInto(gray, w, h, binary);
  }

  /**
   * `adaptive_binarize_into`: the integral image rebuilt for `gray`, then
   * the shared core over `output`, already of size `w` by `h`. The
   * rebuilt integral buffer is returned.
   */
  method AdaptiveBinarizeInto(gray: seq<u8>, w: nat, h: nat, window: nat, output: BitMatrix) returns (integral: array<nat>)
    requires w * h <= |gray|
    requires output.Valid() && output.width == w && output.height == h
    modifies output, output.data
    ensures fresh(integral) && IsIntegral(integral[..], gray, w, h, false)
    ensures output.Valid()
    ensures forall x, y :: 0 <= x < w && 0 <= y < h ==>
      Cell(output.grid, x, y) == (Pixel(gray, w, h, x, y) < LocalMean(gray, w, h, window, x, y))
  {
    integral := BuildIntegralImage(gray, w, h, false);
    AdaptiveBinarizeCore(gray, w, h, window, output, integral[..]);
  }
}
