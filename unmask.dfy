/**
 * Data unmasking (src/decoder/unmask.rs): every data module whose mask
 * formula holds is inverted in place; function modules are left alone.
 */
module Unmask {
  import opened Wrappers
  import opened Matrix
  import opened QrCode
  import FunctionMask

  /**
   * The grid after unmasking: cell (x, y) is inverted exactly when it lies in
   * the grid, is not a function module of `f`, and `pattern` masks row y,
   * column x.
   */
  function Unmasked(g: Grid, pattern: MaskPattern, f: Grid): (r: Grid)
    requires Wf(g) && Wf(f)
    ensures Wf(r) && r.width == g.width && r.height == g.height
    ensures forall x, y :: Cell(r, x, y) == (Cell(g, x, y) != Flipped(g, pattern, f, x, y))
  {
    Grid(g.width, g.height,
      seq(g.height, y requires 0 <= y < g.height =>
        seq(g.width, x requires 0 <= x < g.width => g.rows[y][x] != Flipped(g, pattern, f, x, y))))
  }

  /** Whether unmasking inverts (x, y). */
  predicate Flipped(g: Grid, pattern: MaskPattern, f: Grid, x: int, y: int)
    requires Wf(f)
  {
    InBounds(g, x, y) && !Cell(f, x, y) && IsMasked(pattern, y, x)
  }

  /** Unmasking twice with the same pattern and mask restores the grid. */
  lemma UnmaskTwice(g: Grid, pattern: MaskPattern, f: Grid)
    requires Wf(g) && Wf(f)
    ensures Unmasked(Unmasked(g, pattern, f), pattern, f) == g
  {
    var once := Unmasked(g, pattern, f);
    var twice := Unmasked(once, pattern, f);
    forall x, y | 0 <= x < g.width && 0 <= y < g.height
      ensures Cell(twice, x, y) == Cell(g, x, y)
    {
      assert Flipped(once, pattern, f, x, y) == Flipped(g, pattern, f, x, y);
    }
    GridExt(twice, g);
  }

  /** Function modules, and data modules the pattern does not mask, keep their value. */
  lemma UnmaskKeepsUnmasked(g: Grid, pattern: MaskPattern, version: u8, x: nat, y: nat)
    requires Wf(g)
    requires FunctionMask.FunctionModule(version, x, y) || !IsMasked(pattern, y, x)
    ensures Cell(Unmasked(g, pattern, FunctionMask.FunctionGrid(version)), x, y) == Cell(g, x, y)
  {
  }

  /** The unit test: pattern 0 inverts the data module (10, 10) of a version 1 symbol. */
  lemma UnmaskSample(g: Grid)
    requires Wf(g) && g.width == 21 && g.height == 21
    ensures Cell(Unmasked(g, Pattern0, FunctionMask.FunctionGrid(1)), 10, 10) == !Cell(g, 10, 10)
  {
    assert FunctionMask.Centres(1, FunctionMask.StepAsWritten(1)) == [];
    assert !FunctionMask.FunctionModule(1, 10, 10);
  }

  /** `unmask`: toggles, row by row, every data module the pattern masks. */
  method Unmask(matrix: BitMatrix, pattern: MaskPattern, func: FunctionMask.FunctionMask)
    requires matrix.Valid() && func.Valid()
    requires matrix != func.mask && matrix.data != func.mask.data
    modifies matrix, matrix.data
    ensures matrix.Valid()
    ensures matrix.grid == Unmasked(old(matrix.grid), pattern, FunctionMask.FunctionGrid(func.version))
  {
    ghost var g0 := matrix.grid;
    ghost var f := FunctionMask.FunctionGrid(func.version);
    ghost var target := Unmasked(g0, pattern, f);
    var width := matrix.width;
    var height := matrix.height;
    var y := 0;
    while y < height
      invariant y <= height && matrix.Valid() && func.Valid()
      invariant forall a, b :: Cell(matrix.grid, a, b) == if b < y then Cell(target, a, b) else Cell(g0, a, b)
    {
      UnmaskRow(matrix, pattern, func, y, g0, target);
      y := y + 1;
    }
    GridExt(matrix.grid, target);
  }

  /** The inner loop over row `y`: rows before it are already unmasked, rows after it untouched. */
  method UnmaskRow(matrix: BitMatrix, pattern: MaskPattern, func: FunctionMask.FunctionMask, y: nat, ghost g0: Grid, ghost target: Grid)
    requires matrix.Valid() && func.Valid()
    requires matrix != func.mask && matrix.data != func.mask.data
    requires Wf(g0) && g0.width == matrix.width && g0.height == matrix.height
    requires target == Unmasked(g0, pattern, FunctionMask.FunctionGrid(func.version))
    requires forall a, b :: Cell(matrix.grid, a, b) == if b < y then Cell(target, a, b) else Cell(g0, a, b)
    modifies matrix, matrix.data
    ensures matrix.Valid() && func.Valid()
    ensures forall a, b :: Cell(matrix.grid, a, b) == if b < y + 1 then Cell(target, a, b) else Cell(g0, a, b)
  {
    var width := matrix.width;
    var x := 0;
    while x < width
      invariant x <= width && matrix.Valid() && func.Valid()
      invariant forall a, b :: Cell(matrix.grid, a, b) == if b < y || (b == y && a < x) then Cell(target, a, b) else Cell(g0, a, b)
    {
      var isFunction := func.IsFunction(x, y);
      if !isFunction && IsMasked(pattern, y, x) {
        matrix.Toggle(x, y);
      }
      x := x + 1;
    }
  }
}
