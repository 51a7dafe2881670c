/**
 * The detection pyramid (src/detector/pyramid.rs): the binary image, a half
 * resolution copy for images of at least 400 by 400, and a quarter
 * resolution copy for images of at least 800 by 800. Each halving turns a
 * 2 by 2 block into one cell, black when at least two of the four are.
 * The `f32` scales and coordinates are reals here.
 */
module Pyramid {
  import opened Wrappers
  import opened Matrix

  /** The pyramid: the full image, the optional halvings and the original dimensions. */
  datatype ImagePyramid = ImagePyramid(
    level0: BitMatrix,
    level1: Option<BitMatrix>,
    level2: Option<BitMatrix>,
    originalWidth: nat,
    originalHeight: nat)

  /** The matrices a pyramid holds. */
  function Levels(p: ImagePyramid): set<object>
  {
    {p.level0, p.level0.data}
    + (if p.level1.Some? then {p.level1.value, p.level1.value.data} else {})
    + (if p.level2.Some? then {p.level2.value, p.level2.value.data} else {})
  }

  function BlackCount(c: bool): nat
  {
    if c then 1 else 0
  }

  /** How many of the four cells of the block under (x, y) are black. */
  function Votes(g: Grid, x: nat, y: nat): (n: nat)
    requires Wf(g)
    ensures n <= 4
  {
    BlackCount(Cell(g, 2 * x, 2 * y)) + BlackCount(Cell(g, 2 * x + 1, 2 * y))
    + BlackCount(Cell(g, 2 * x, 2 * y + 1)) + BlackCount(Cell(g, 2 * x + 1, 2 * y + 1))
  }

  /** `dst` is `src` halved: half the dimensions, rounded down, and a majority of two votes per cell. */
  ghost predicate IsHalving(src: Grid, dst: Grid)
  {
    && Wf(src) && Wf(dst)
    && dst.width == src.width / 2 && dst.height == src.height / 2
    && forall x, y :: 0 <= x < dst.width && 0 <= y < dst.height ==> Cell(dst, x, y) == (Votes(src, x, y) >= 2)
  }

  /** A grid has one halving. */
  lemma HalvingUnique(src: Grid, a: Grid, b: Grid)
    requires IsHalving(src, a) && IsHalving(src, b)
    ensures a == b
  {
    GridExt(a, b);
  }

  /** The black cells among the four of the block under (x, y), read one by one. */
  method BlockVotes(matrix: BitMatrix, x: nat, y: nat) returns (blackCount: nat)
    requires matrix.Valid()
    ensures blackCount == Votes(matrix.grid, x, y)
  {
    var srcY := y * 2;
    var srcX := x * 2;
    blackCount := 0;
    var c := matrix.Get(srcX, srcY);
    if c {
      blackCount := blackCount + 1;
    }
    c := matrix.Get(srcX + 1, srcY);
    if c {
      blackCount := blackCount + 1;
    }
    c := matrix.Get(srcX, srcY + 1);
    if c {
      blackCount := blackCount + 1;
    }
    c := matrix.Get(srcX + 1, srcY + 1);
    if c {
      blackCount := blackCount + 1;
    }
  }

  /** `downscale_by_2`: a fresh matrix that is the halving of `matrix`, which is left alone. */
  method DownscaleBy2(matrix: BitMatrix) returns (result: BitMatrix)
    requires matrix.Valid()
    ensures fresh(result) && fresh(result.data) && result.Valid()
    ensures result.width == matrix.width / 2 && result.height == matrix.height / 2
    ensures IsHalving(matrix.grid, result.grid)
  {
    var dstWidth := matrix.width / 2;
    var dstHeight := matrix.height / 2;
    result := new BitMatrix(dstWidth, dstHeight);
    for y := 0 to dstHeight
      invariant fresh(result) && fresh(result.data) && result.Valid()
      invariant forall a, b :: 0 <= a < dstWidth && 0 <= b < dstHeight ==>
        Cell(result.grid, a, b) == (b < y && Votes(matrix.grid, a, b) >= 2)
    {
      for x := 0 to dstWidth
        invariant fresh(result) && fresh(result.data) && result.Valid()
        invariant forall a, b :: 0 <= a < dstWidth && 0 <= b < dstHeight ==>
          Cell(result.grid, a, b) == ((b < y || (b == y && a < x)) && Votes(matrix.grid, a, b) >= 2)
      {
        var blackCount := BlockVotes(matrix, x, y);
        if blackCount >= 2 {
          result.Set(x, y, true);
        }
      }
    }
  }

  /**
   * What `new` builds from a matrix of `w` by `h` holding `g`: the matrix
   * itself, a halving exactly when both dimensions reach 400, and a halving
   * of that exactly when both reach 800.
   */
  ghost predicate Built(p: ImagePyramid, g: Grid)
    reads Levels(p)
  {
    && p.level0.Valid() && p.level0.grid == g
    && p.originalWidth == p.level0.width && p.originalHeight == p.level0.height
    && (p.level1.Some? <==> p.originalWidth >= 400 && p.originalHeight >= 400)
    && (p.level2.Some? <==> p.originalWidth >= 800 && p.originalHeight >= 800)
    && (p.level1.Some? ==>
          (p.level1.value.Valid()
           && p.level1.value.width == p.originalWidth / 2 && p.level1.value.height == p.originalHeight / 2
           && IsHalving(g, p.level1.value.grid)))
    && (p.level2.Some? ==>
          (p.level1.Some? && p.level2.value.Valid()
           && p.level2.value.width == p.originalWidth / 2 / 2 && p.level2.value.height == p.originalHeight / 2 / 2
           && IsHalving(p.level1.value.grid, p.level2.value.grid)))
  }

  /** `ImagePyramid::new`: the pyramid over `matrix`. */
  method NewPyramid(matrix: BitMatrix) returns (p: ImagePyramid)
    requires matrix.Valid()
    ensures p.level0 == matrix
    ensures Built(p, matrix.grid)
  {
    var width := matrix.width;
    var height := matrix.height;
    var level1: Option<BitMatrix> := None;
    if width >= 400 && height >= 400 {
      var l1 := DownscaleBy2(matrix);
      level1 := Some(l1);
    }
    var level2: Option<BitMatrix> := None;
    if width >= 800 && height >= 800 {
      var l2 := DownscaleBy2(level1.value);
      level2 := Some(l2);
    }
    p := ImagePyramid(matrix, level1, level2, width, height);
  }

  /** `coarsest_detection_level`: the quarter level with scale 4, else the half level with scale 2, else the image with scale 1. */
  function CoarsestDetectionLevel(p: ImagePyramid): (r: (BitMatrix, real))
    ensures p.level2.Some? ==> r == (p.level2.value, 4.0)
    ensures p.level2.None? && p.level1.Some? ==> r == (p.level1.value, 2.0)
    ensures p.level2.None? && p.level1.None? ==> r == (p.level0, 1.0)
  {
    if p.level2.Some? then (p.level2.value, 4.0)
    else if p.level1.Some? then (p.level1.value, 2.0)
    else (p.level0, 1.0)
  }

  /**
   * On a built pyramid the coarsest level is the original divided by its
   * scale in both dimensions, and the scale is chosen by the image size
   * alone.
   */
  lemma CoarsestDimensions(p: ImagePyramid, g: Grid)
    requires Built(p, g)
    ensures var (m, s) := CoarsestDetectionLevel(p);
      && (s == 4.0 <==> p.originalWidth >= 800 && p.originalHeight >= 800)
      && (s == 2.0 <==> (p.originalWidth >= 400 && p.originalHeight >= 400) && !(p.originalWidth >= 800 && p.originalHeight >= 800))
      && (s == 1.0 <==> !(p.originalWidth >= 400 && p.originalHeight >= 400))
      && m.width == p.originalWidth / s.Floor && m.height == p.originalHeight / s.Floor
  {
    var (m, s) := CoarsestDetectionLevel(p);
    if p.level2.Some? {
      DivTwice(p.originalWidth);
      DivTwice(p.originalHeight);
    }
  }

  lemma DivTwice(n: nat)
    ensures n / 2 / 2 == n / 4
  {
  }

  /** The levels of the source's samples: 100 has none, 500 only the half level, 1000 both. */
  lemma LevelSamples(p: ImagePyramid, q: ImagePyramid, r: ImagePyramid, gp: Grid, gq: Grid, gr: Grid)
    requires Built(p, gp) && p.originalWidth == 100 && p.originalHeight == 100
    requires Built(q, gq) && q.originalWidth == 500 && q.originalHeight == 500
    requires Built(r, gr) && r.originalWidth == 1000 && r.originalHeight == 1000
    ensures p.level1.None? && p.level2.None?
    ensures q.level1.Some? && q.level2.None?
    ensures r.level1.Some? && r.level2.Some?
  {
  }

  /**
   * The sample of the source: a fully black 100 by 100 square at 150..250
   * of a 400 by 400 image leaves the centre of the 200 by 200 half level
   * black.
   */
  lemma SquareSample(p: ImagePyramid, g: Grid)
    requires Built(p, g) && g.width == 400 && g.height == 400
    requires forall x, y :: 150 <= x < 250 && 150 <= y < 250 ==> Cell(g, x, y)
    ensures p.level1.Some? && p.level1.value.width == 200 && p.level1.value.height == 200
    ensures Cell(p.level1.value.grid, 100, 100)
  {
    assert Cell(g, 200, 200) && Cell(g, 201, 200) && Cell(g, 200, 201) && Cell(g, 201, 201);
  }

  /** `map_to_original`: both coordinates multiplied by the scale. */
  function MapToOriginal(x: real, y: real, scale: real): (r: (real, real))
    ensures scale != 0.0 ==> r.0 / scale == x && r.1 / scale == y
  {
    (x * scale, y * scale)
  }

  /** The sample of the source: (10, 20) at scale 4 is (40, 80). */
  lemma MapSample()
    ensures MapToOriginal(10.0, 20.0, 4.0) == (40.0, 80.0)
  {
  }

  /** `f as usize` on a float: truncated toward zero, with every negative value saturating to 0. */
  function ToUsize(v: real): (n: nat)
    ensures v >= 0.0 ==> n as real <= v < n as real + 1.0
    ensures v <= 0.0 ==> n == 0
  {
    if v <= 0.0 then 0 else v.Floor
  }

  /**
   * `get_search_window`: the point scaled to the original, widened by the
   * scaled window on each side and clipped at 0 and at the last column and
   * row. An empty original underflows `width - 1` (a panic in debug
   * builds), which is `None` here.
   */
  function GetSearchWindow(p: ImagePyramid, x: nat, y: nat, scale: real, windowSize: nat): (r: Option<(nat, nat, nat, nat)>)
    ensures r.None? <==> p.originalWidth == 0 || p.originalHeight == 0
    ensures r.Some? ==> r.value.2 <= p.originalWidth - 1 && r.value.3 <= p.originalHeight - 1
  {
    if p.originalWidth == 0 || p.originalHeight == 0 then None
    else
      var origX := ToUsize(x as real * scale);
      var origY := ToUsize(y as real * scale);
      var window := ToUsize(windowSize as real * scale);
      var minX := SatSub(origX, window);
      var minY := SatSub(origY, window);
      var maxX := if origX + window < p.originalWidth - 1 then origX + window else p.originalWidth - 1;
      var maxY := if origY + window < p.originalHeight - 1 then origY + window else p.originalHeight - 1;
      Some((minX, minY, maxX, maxY))
  }

  /**
   * The window holds the scaled point whenever that point lies inside the
   * original image, and reaches no further than the scaled window from it.
   * On each side it reaches the full scaled window unless 0 or the last
   * column or row stops it first.
   */
  lemma SearchWindowContainsPoint(p: ImagePyramid, x: nat, y: nat, scale: real, windowSize: nat)
    requires p.originalWidth > 0 && p.originalHeight > 0
    ensures var r := GetSearchWindow(p, x, y, scale, windowSize).value;
      var origX := ToUsize(x as real * scale);
      var origY := ToUsize(y as real * scale);
      var window := ToUsize(windowSize as real * scale);
      && (origX < p.originalWidth ==> r.0 <= origX <= r.2)
      && (origY < p.originalHeight ==> r.1 <= origY <= r.3)
      && r.0 + window >= origX && r.2 <= origX + window
      && r.1 + window >= origY && r.3 <= origY + window
      && r.0 == (if origX >= window then origX - window else 0)
      && r.1 == (if origY >= window then origY - window else 0)
      && r.2 == (if origX + window <= p.originalWidth - 1 then origX + window else p.originalWidth - 1)
      && r.3 == (if origY + window <= p.originalHeight - 1 then origY + window else p.originalHeight - 1)
  {
  }
}
