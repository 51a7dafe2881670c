/**
 * Zig-zag reading of the data modules (src/decoder/bitstream.rs): column
 * pairs from the right edge leftwards, skipping the vertical timing column,
 * sweeping alternately upward and downward, and emitting only modules the
 * function mask does not mark.
 */
module Bitstream {
  import opened Wrappers
  import opened Matrix
  import FunctionMask

  /** A module position (column, row). */
  type Pos = (nat, nat)

  /** Cell (c, row), if that column exists and `f` does not mark the cell as a function module. */
  function Visit(f: Grid, c: int, row: nat): seq<Pos>
    requires Wf(f)
  {
    if c >= 0 && !Cell(f, c, row) then [(c, row)] else []
  }

  /** The row of step k of a sweep over `d` rows: bottom-up or top-down. */
  function RowAt(d: nat, up: bool, k: nat): nat
    requires k < d
  {
    if up then d - 1 - k else k
  }

  /** One row of a column pair: c1's cell, then c2's. */
  function RowCells(f: Grid, c1: int, c2: int, row: nat): seq<Pos>
    requires Wf(f)
  {
    Visit(f, c1, row) + Visit(f, c2, row)
  }

  /** The cells of the first k steps of the sweep of the column pair (c1, c2), c1 first in each row. */
  function Sweep(f: Grid, d: nat, c1: int, c2: int, up: bool, k: nat): seq<Pos>
    requires Wf(f) && k <= d
  {
    if k == 0 then []
    else Sweep(f, d, c1, c2, up, k - 1) + RowCells(f, c1, c2, RowAt(d, up, k - 1))
  }

  /**
   * The cells visited from column `col` leftward: the pair (col, col - 1),
   * or (col - 1, col) when swapped, then the rest with the direction
   * reversed; column 6 is stepped over rather than starting a pair.
   */
  function Order(f: Grid, d: nat, col: int, up: bool, swap: bool): seq<Pos>
    requires Wf(f)
    decreases col
  {
    if col <= 0 then []
    else if col == 6 then Order(f, d, col - 1, up, swap)
    else Sweep(f, d, FirstCol(col, swap), SecondCol(col, swap), up, d) + Order(f, d, col - 2, !up, swap)
  }

  /** The column read first in each row of the pair starting at `col`. */
  function FirstCol(col: int, swap: bool): int
  {
    if swap then col - 1 else col
  }

  /** The column read second in each row of the pair starting at `col`. */
  function SecondCol(col: int, swap: bool): int
  {
    if swap then col else col - 1
  }

  /** The values of `g` at `cells`, in order. */
  function Read(g: Grid, cells: seq<Pos>): (r: seq<bool>)
    requires Wf(g)
    ensures |r| == |cells|
  {
    seq(|cells|, i requires 0 <= i < |cells| => Cell(g, cells[i].0, cells[i].1))
  }

  lemma ReadAppend(g: Grid, a: seq<Pos>, b: seq<Pos>)
    requires Wf(g)
    ensures Read(g, a + b) == Read(g, a) + Read(g, b)
  {
    var l := Read(g, a + b);
    var r := Read(g, a) + Read(g, b);
    forall i | 0 <= i < |l|
      ensures l[i] == r[i]
    {
      if i < |a| {
        assert (a + b)[i] == a[i];
      } else {
        assert (a + b)[i] == b[i - |a|];
      }
    }
  }

  lemma AppendAssoc(a: seq<Pos>, b: seq<Pos>, c: seq<Pos>)
    ensures a + (b + c) == (a + b) + c
  {
  }

  /** The walk after a pair: what was visited, plus that pair, plus the rest of the walk. */
  lemma WalkStep(f: Grid, d: nat, col: int, up: bool, swap: bool, visited: seq<Pos>, all: seq<Pos>)
    requires Wf(f) && col > 0 && col != 6
    requires visited + Order(f, d, col, up, swap) == all
    ensures (visited + Sweep(f, d, FirstCol(col, swap), SecondCol(col, swap), up, d)) + Order(f, d, col - 2, !up, swap) == all
  {
    OrderSplit(f, d, col, up, swap);
    AppendAssoc(visited, Sweep(f, d, FirstCol(col, swap), SecondCol(col, swap), up, d), Order(f, d, col - 2, !up, swap));
  }

  /** The two guarded pushes of one row: the cell is read exactly when its column exists and it is a data module. */
  method ReadCell(matrix: BitMatrix, func: FunctionMask.FunctionMask, c: int, row: nat) returns (bits: seq<bool>)
    requires matrix.Valid() && func.Valid()
    ensures bits == Read(matrix.grid, Visit(func.mask.grid, c, row))
    ensures |bits| <= 1
  {
    bits := [];
    if c >= 0 {
      var isFunction := func.IsFunction(c, row);
      if !isFunction {
        var b := matrix.Get(c, row);
        bits := [b];
        assert Visit(func.mask.grid, c, row) == [(c, row)];
      }
    }
  }

  /** One row of a column pair. */
  method ReadRow(matrix: BitMatrix, func: FunctionMask.FunctionMask, firstCol: int, secondCol: int, row: nat) returns (bits: seq<bool>)
    requires matrix.Valid() && func.Valid()
    ensures bits == Read(matrix.grid, RowCells(func.mask.grid, firstCol, secondCol, row))
  {
    var first := ReadCell(matrix, func, firstCol, row);
    var second := ReadCell(matrix, func, secondCol, row);
    ReadAppend(matrix.grid, Visit(func.mask.grid, firstCol, row), Visit(func.mask.grid, secondCol, row));
    bits := first + second;
  }

  /** One column pair of `extract_with_options`: every row, upward or downward, first column before second. */
  method SweepPair(matrix: BitMatrix, func: FunctionMask.FunctionMask, dimension: nat, firstCol: int, secondCol: int, upward: bool)
    returns (bits: seq<bool>)
    requires matrix.Valid() && func.Valid()
    ensures bits == Read(matrix.grid, Sweep(func.mask.grid, dimension, firstCol, secondCol, upward, dimension))
  {
    ghost var f := func.mask.grid;
    ghost var visited: seq<Pos> := [];
    bits := [];
    var k := 0;
    while k < dimension
      invariant k <= dimension
      invariant visited == Sweep(f, dimension, firstCol, secondCol, upward, k)
      invariant bits == Read(matrix.grid, visited)
    {
      var row := if upward then dimension - 1 - k else k;
      assert row == RowAt(dimension, upward, k);
      var cells := ReadRow(matrix, func, firstCol, secondCol, row);
      ReadAppend(matrix.grid, visited, RowCells(f, firstCol, secondCol, row));
      bits := bits + cells;
      visited := visited + RowCells(f, firstCol, secondCol, row);
      k := k + 1;
    }
  }

  /** The pair starting at column `col`: the columns in the order `swap_columns` picks. */
  method ReadPair(matrix: BitMatrix, func: FunctionMask.FunctionMask, dimension: nat, col: int, upward: bool, swapColumns: bool)
    returns (bits: seq<bool>)
    requires matrix.Valid() && func.Valid()
    ensures bits == Read(matrix.grid, Sweep(func.mask.grid, dimension, FirstCol(col, swapColumns), SecondCol(col, swapColumns), upward, dimension))
  {
    var firstCol := if swapColumns then col - 1 else col;
    var secondCol := if swapColumns then col else col - 1;
    bits := SweepPair(matrix, func, dimension, firstCol, secondCol, upward);
  }

  /** `extract_with_options`: the bits of the data modules, in the zig-zag order `Order` describes. */
  method ExtractWithOptions(matrix: BitMatrix, dimension: nat, func: FunctionMask.FunctionMask, startUpward: bool, swapColumns: bool)
    returns (bits: seq<bool>)
    requires matrix.Valid() && func.Valid()
    requires dimension < 0x8000_0000
    ensures bits == Read(matrix.grid, Order(FunctionMask.FunctionGrid(func.version), dimension, dimension - 1, startUpward, swapColumns))
  {
    ghost var f := func.mask.grid;
    ghost var all := Order(f, dimension, dimension - 1, startUpward, swapColumns);
    ghost var visited: seq<Pos> := [];
    bits := [];
    var upward := startUpward;
    var col: int := dimension - 1;
    while col > 0
      invariant visited + Order(f, dimension, col, upward, swapColumns) == all
      invariant bits == Read(matrix.grid, visited)
      decreases col
    {
      if col == 6 {
        assert Order(f, dimension, col, upward, swapColumns) == Order(f, dimension, col - 1, upward, swapColumns);
        col := col - 1;
        continue;
      }
      var pair := ReadPair(matrix, func, dimension, col, upward, swapColumns);
      ghost var sweep := Sweep(f, dimension, FirstCol(col, swapColumns), SecondCol(col, swapColumns), upward, dimension);
      WalkStep(f, dimension, col, upward, swapColumns, visited, all);
      ReadAppend(matrix.grid, visited, sweep);
      bits := bits + pair;
      visited := visited + sweep;
      col := col - 2;
      upward := !upward;
    }
    assert visited == all;
  }

  // ---------------------------------------------------------------------
  // What is emitted

  /** Every cell of `s` is a data module of `f` in columns lo..hi and rows rlo..rhi - 1. */
  predicate Within(f: Grid, s: seq<Pos>, lo: int, hi: int, rlo: int, rhi: int)
    requires Wf(f)
  {
    forall i :: 0 <= i < |s| ==> lo <= s[i].0 <= hi && rlo <= s[i].1 < rhi && !Cell(f, s[i].0, s[i].1)
  }

  lemma WithinAppend(f: Grid, a: seq<Pos>, b: seq<Pos>, lo: int, hi: int, rlo: int, rhi: int)
    requires Wf(f) && Within(f, a, lo, hi, rlo, rhi) && Within(f, b, lo, hi, rlo, rhi)
    ensures Within(f, a + b, lo, hi, rlo, rhi)
  {
    forall i | 0 <= i < |a + b|
      ensures lo <= (a + b)[i].0 <= hi && rlo <= (a + b)[i].1 < rhi && !Cell(f, (a + b)[i].0, (a + b)[i].1)
    {
      if i < |a| {
        assert (a + b)[i] == a[i];
      } else {
        assert (a + b)[i] == b[i - |a|];
      }
    }
  }

  lemma WithinWiden(f: Grid, s: seq<Pos>, lo: int, hi: int, rlo: int, rhi: int, lo': int, hi': int, rlo': int, rhi': int)
    requires Wf(f) && Within(f, s, lo, hi, rlo, rhi)
    requires lo' <= lo && hi <= hi' && rlo' <= rlo && rhi <= rhi'
    ensures Within(f, s, lo', hi', rlo', rhi')
  {
  }

  predicate Distinct(s: seq<Pos>)
  {
    forall i, j :: 0 <= i < j < |s| ==> s[i] != s[j]
  }

  /** Two runs without repeats, apart in their columns or in their rows, join without repeats. */
  lemma DistinctJoin(f: Grid, a: seq<Pos>, b: seq<Pos>, lo: int, hi: int, rlo: int, rhi: int, lo': int, hi': int, rlo': int, rhi': int)
    requires Wf(f) && Distinct(a) && Distinct(b)
    requires Within(f, a, lo, hi, rlo, rhi) && Within(f, b, lo', hi', rlo', rhi')
    requires hi' < lo || hi < lo' || rhi <= rlo' || rhi' <= rlo
    ensures Distinct(a + b)
  {
    forall i, j | 0 <= i < j < |a + b|
      ensures (a + b)[i] != (a + b)[j]
    {
      if j < |a| {
        assert (a + b)[i] == a[i] && (a + b)[j] == a[j];
      } else if i >= |a| {
        assert (a + b)[i] == b[i - |a|] && (a + b)[j] == b[j - |a|];
      } else {
        assert (a + b)[i] == a[i] && (a + b)[j] == b[j - |a|];
      }
    }
  }

  /** One row of the pair at `col`: data modules of columns col - 1 and col in that row, none twice. */
  lemma RowWithin(f: Grid, col: int, swap: bool, row: nat)
    requires Wf(f)
    ensures Within(f, RowCells(f, FirstCol(col, swap), SecondCol(col, swap), row), col - 1, col, row, row + 1)
    ensures Distinct(RowCells(f, FirstCol(col, swap), SecondCol(col, swap), row))
  {
  }

  /** The first row of a sweep of k rows. */
  function RowLo(d: nat, up: bool, k: nat): int
  {
    if up then d - k else 0
  }

  /** One past the last row of a sweep of k rows. */
  function RowHi(d: nat, up: bool, k: nat): int
  {
    if up then d else k
  }

  /** A sweep of k rows emits only data modules of its two columns, in the rows it has passed, none twice. */
  lemma {:induction false} SweepWithin(f: Grid, d: nat, col: int, swap: bool, up: bool, k: nat)
    requires Wf(f) && k <= d
    ensures Within(f, Sweep(f, d, FirstCol(col, swap), SecondCol(col, swap), up, k), col - 1, col, RowLo(d, up, k), RowHi(d, up, k))
    ensures Distinct(Sweep(f, d, FirstCol(col, swap), SecondCol(col, swap), up, k))
  {
    if k > 0 {
      var prev := Sweep(f, d, FirstCol(col, swap), SecondCol(col, swap), up, k - 1);
      var row := RowAt(d, up, k - 1);
      var cells := RowCells(f, FirstCol(col, swap), SecondCol(col, swap), row);
      var lo, hi := RowLo(d, up, k - 1), RowHi(d, up, k - 1);
      var lo', hi' := RowLo(d, up, k), RowHi(d, up, k);
      if up {
        assert row == lo' && row + 1 == lo && hi == hi';
      } else {
        assert row == hi && row + 1 == hi' && lo == lo';
      }
      SweepWithin(f, d, col, swap, up, k - 1);
      RowWithin(f, col, swap, row);
      DistinctJoin(f, prev, cells, col - 1, col, lo, hi, col - 1, col, row, row + 1);
      WithinWiden(f, prev, col - 1, col, lo, hi, col - 1, col, lo', hi');
      WithinWiden(f, cells, col - 1, col, row, row + 1, col - 1, col, lo', hi');
      WithinAppend(f, prev, cells, col - 1, col, lo', hi');
    }
  }

  /** The walk from column `col` emits data modules of columns 0..col only, none twice. */
  lemma {:induction false} OrderWithin(f: Grid, d: nat, col: int, up: bool, swap: bool)
    requires Wf(f)
    ensures Within(f, Order(f, d, col, up, swap), 0, col, 0, d)
    ensures Distinct(Order(f, d, col, up, swap))
    decreases col
  {
    if col == 6 {
      OrderWithin(f, d, 5, up, swap);
      WithinWiden(f, Order(f, d, 5, up, swap), 0, 5, 0, d, 0, 6, 0, d);
    } else if col > 0 {
      var sweep := Sweep(f, d, FirstCol(col, swap), SecondCol(col, swap), up, d);
      var rest := Order(f, d, col - 2, !up, swap);
      SweepWithin(f, d, col, swap, up, d);
      OrderWithin(f, d, col - 2, !up, swap);
      DistinctJoin(f, sweep, rest, col - 1, col, 0, d, 0, col - 2, 0, d);
      WithinWiden(f, sweep, col - 1, col, 0, d, 0, col, 0, d);
      WithinWiden(f, rest, 0, col - 2, 0, d, 0, col, 0, d);
      WithinAppend(f, sweep, rest, 0, col, 0, d);
    }
  }

  /** No cell of `s` lies in column `c`. */
  predicate AvoidsColumn(s: seq<Pos>, c: int)
  {
    forall i :: 0 <= i < |s| ==> s[i].0 != c
  }

  /**
   * Column 6 is never read when the walk starts on an even column or left
   * of column 6, which is the case for every odd dimension.
   */
  lemma {:induction false} OrderSkipsTimingColumn(f: Grid, d: nat, col: int, up: bool, swap: bool)
    requires Wf(f) && (col < 6 || col % 2 == 0)
    ensures AvoidsColumn(Order(f, d, col, up, swap), 6)
    decreases col
  {
    if col == 6 || col < 6 {
      var c := if col == 6 then 5 else col;
      OrderWithin(f, d, c, up, swap);
      assert Order(f, d, col, up, swap) == Order(f, d, c, up, swap);
    } else {
      var sweep: seq<Pos> := Sweep(f, d, FirstCol(col, swap), SecondCol(col, swap), up, d);
      var rest: seq<Pos> := Order(f, d, col - 2, !up, swap);
      SweepWithin(f, d, col, swap, up, d);
      OrderSkipsTimingColumn(f, d, col - 2, !up, swap);
      forall i | 0 <= i < |sweep + rest|
        ensures (sweep + rest)[i].0 != 6
      {
        if i < |sweep| {
          assert (sweep + rest)[i] == sweep[i];
        } else {
          assert (sweep + rest)[i] == rest[i - |sweep|];
        }
      }
    }
  }

  /** Each data module of a pair's columns is emitted in its row. */
  lemma RowHas(f: Grid, col: int, swap: bool, x: nat, row: nat)
    requires Wf(f) && col - 1 <= x <= col && !Cell(f, x, row)
    ensures (x, row) in RowCells(f, FirstCol(col, swap), SecondCol(col, swap), row)
  {
  }

  /** Each data module of a pair's columns, in the rows a sweep has passed, has been emitted. */
  lemma {:induction false} SweepHas(f: Grid, d: nat, col: int, swap: bool, up: bool, k: nat, x: nat, y: nat)
    requires Wf(f) && k <= d && col - 1 <= x <= col && RowLo(d, up, k) <= y < RowHi(d, up, k) && !Cell(f, x, y)
    ensures (x, y) in Sweep(f, d, FirstCol(col, swap), SecondCol(col, swap), up, k)
  {
    var prev := Sweep(f, d, FirstCol(col, swap), SecondCol(col, swap), up, k - 1);
    var row := RowAt(d, up, k - 1);
    var cells := RowCells(f, FirstCol(col, swap), SecondCol(col, swap), row);
    assert Sweep(f, d, FirstCol(col, swap), SecondCol(col, swap), up, k) == prev + cells;
    if y == row {
      RowHas(f, col, swap, x, row);
    } else {
      if up {
        assert RowLo(d, up, k - 1) == row + 1;
      } else {
        assert RowHi(d, up, k - 1) == row;
      }
      SweepHas(f, d, col, swap, up, k - 1, x, y);
    }
  }

  /**
   * From an even column at or right of 6, or an odd column left of it, the
   * walk emits every data module of columns 0..col except column 6.
   */
  lemma {:induction false} OrderHas(f: Grid, d: nat, col: int, up: bool, swap: bool, x: nat, y: nat)
    requires Wf(f) && (if col >= 6 then col % 2 == 0 else col % 2 == 1)
    requires x <= col && x != 6 && y < d && !Cell(f, x, y)
    ensures (x, y) in Order(f, d, col, up, swap)
    decreases col
  {
    if col == 6 {
      OrderHas(f, d, 5, up, swap, x, y);
    } else if x >= col - 1 {
      SweepHas(f, d, col, swap, up, d, x, y);
      OrderSplit(f, d, col, up, swap);
    } else {
      assert if col - 2 >= 6 then (col - 2) % 2 == 0 else (col - 2) % 2 == 1;
      OrderHas(f, d, col - 2, !up, swap, x, y);
      OrderSplit(f, d, col, up, swap);
    }
  }

  /** A walk step that starts a pair: that pair's sweep, then the rest. */
  lemma OrderSplit(f: Grid, d: nat, col: int, up: bool, swap: bool)
    requires Wf(f) && col > 0 && col != 6
    ensures Order(f, d, col, up, swap) == Sweep(f, d, FirstCol(col, swap), SecondCol(col, swap), up, d) + Order(f, d, col - 2, !up, swap)
  {
  }

  // ---------------------------------------------------------------------
  // How much is emitted

  /** 1 for a data module, 0 for a function module. */
  function DataAt(f: Grid, c: int, row: nat): nat
    requires Wf(f)
  {
    if Cell(f, c, row) then 0 else 1
  }

  /** The data modules among the first `n` cells of column `c`. */
  function DataInColumn(f: Grid, c: nat, n: nat): nat
    requires Wf(f)
  {
    if n == 0 then 0 else DataInColumn(f, c, n - 1) + DataAt(f, c, n - 1)
  }

  /** The data modules among the first `n` cells of each of the first `w` columns. */
  function DataInColumns(f: Grid, w: nat, n: nat): nat
    requires Wf(f)
  {
    if w == 0 then 0 else DataInColumns(f, w - 1, n) + DataInColumn(f, w - 1, n)
  }

  lemma {:induction false} DataInColumnAgrees(version: u8, c: nat, n: nat)
    ensures DataInColumn(FunctionMask.FunctionGrid(version), c, n) == FunctionMask.ColData(version, c, n)
  {
    if n > 0 {
      DataInColumnAgrees(version, c, n - 1);
      assert Cell(FunctionMask.FunctionGrid(version), c, n - 1) == FunctionMask.FunctionModule(version, c, n - 1);
    }
  }

  lemma {:induction false} DataInColumnsAgrees(version: u8, w: nat, n: nat)
    ensures DataInColumns(FunctionMask.FunctionGrid(version), w, n) == FunctionMask.ColsData(version, w, n)
  {
    if w > 0 {
      DataInColumnsAgrees(version, w - 1, n);
      DataInColumnAgrees(version, w - 1, n);
    }
  }

  lemma ColumnStep(f: Grid, c: nat, n: nat)
    requires Wf(f)
    ensures DataInColumn(f, c, n + 1) == DataInColumn(f, c, n) + DataAt(f, c, n)
  {
  }

  lemma RowCellsLength(f: Grid, c1: nat, c2: nat, row: nat)
    requires Wf(f)
    ensures |RowCells(f, c1, c2, row)| == DataAt(f, c1, row) + DataAt(f, c2, row)
  {
  }

  /** A downward sweep of k rows emits the data modules of both columns in rows 0..k-1. */
  lemma {:induction false} SweepLengthDown(f: Grid, d: nat, c1: nat, c2: nat, k: nat)
    requires Wf(f) && k <= d
    ensures |Sweep(f, d, c1, c2, false, k)| == DataInColumn(f, c1, k) + DataInColumn(f, c2, k)
  {
    if k > 0 {
      var prev := Sweep(f, d, c1, c2, false, k - 1);
      var cells := RowCells(f, c1, c2, k - 1);
      assert Sweep(f, d, c1, c2, false, k) == prev + cells;
      SweepLengthDown(f, d, c1, c2, k - 1);
      RowCellsLength(f, c1, c2, k - 1);
      ColumnStep(f, c1, k - 1);
      ColumnStep(f, c2, k - 1);
    }
  }

  /** An upward sweep of k rows emits the data modules of both columns in rows d-k..d-1. */
  lemma {:induction false} SweepLengthUp(f: Grid, d: nat, c1: nat, c2: nat, k: nat)
    requires Wf(f) && k <= d
    ensures |Sweep(f, d, c1, c2, true, k)| + DataInColumn(f, c1, d - k) + DataInColumn(f, c2, d - k)
         == DataInColumn(f, c1, d) + DataInColumn(f, c2, d)
  {
    if k > 0 {
      var j: nat := d - k;
      var prev := Sweep(f, d, c1, c2, true, k - 1);
      var cells := RowCells(f, c1, c2, j);
      assert RowAt(d, true, k - 1) == j;
      assert Sweep(f, d, c1, c2, true, k) == prev + cells;
      SweepLengthUp(f, d, c1, c2, k - 1);
      assert d - (k - 1) == j + 1;
      RowCellsLength(f, c1, c2, j);
      ColumnStep(f, c1, j);
      ColumnStep(f, c2, j);
    }
  }

  /** A full sweep emits the data modules of both columns, in either direction. */
  lemma SweepLength(f: Grid, d: nat, c1: nat, c2: nat, up: bool)
    requires Wf(f)
    ensures |Sweep(f, d, c1, c2, up, d)| == DataInColumn(f, c1, d) + DataInColumn(f, c2, d)
  {
    if up {
      SweepLengthUp(f, d, c1, c2, d);
    } else {
      SweepLengthDown(f, d, c1, c2, d);
    }
  }

  /**
   * From an even column at or right of 6, or an odd column left of it, the
   * walk emits every data module of columns 0..col, provided column 6 holds
   * none.
   */
  lemma {:induction false} OrderLength(f: Grid, d: nat, col: int, up: bool, swap: bool)
    requires Wf(f) && -1 <= col < d && DataInColumn(f, 6, d) == 0
    requires if col >= 6 then col % 2 == 0 else col % 2 == 1
    ensures |Order(f, d, col, up, swap)| == DataInColumns(f, col + 1, d)
    decreases col
  {
    if col == 6 {
      OrderLength(f, d, 5, up, swap);
      assert DataInColumns(f, 7, d) == DataInColumns(f, 6, d) + DataInColumn(f, 6, d);
    } else if col > 0 {
      OrderLength(f, d, col - 2, !up, swap);
      PairLength(f, d, col, up, swap);
      ColumnsStep(f, col - 1, d);
      ColumnsStep(f, col, d);
    }
  }

  lemma ColumnsStep(f: Grid, w: nat, n: nat)
    requires Wf(f)
    ensures DataInColumns(f, w + 1, n) == DataInColumns(f, w, n) + DataInColumn(f, w, n)
  {
  }

  /** One pair step of `OrderLength`: the pair adds the data modules of its two columns. */
  lemma PairLength(f: Grid, d: nat, col: int, up: bool, swap: bool)
    requires Wf(f) && 0 < col < d && col != 6
    ensures |Order(f, d, col, up, swap)| == |Order(f, d, col - 2, !up, swap)| + DataInColumn(f, col - 1, d) + DataInColumn(f, col, d)
  {
    SweepLength(f, d, FirstCol(col, swap), SecondCol(col, swap), up);
  }

  /** What the walk from the last column of a `d` x `d` grid satisfies. */
  predicate WalkFacts(f: Grid, d: nat, up: bool, swap: bool)
    requires Wf(f)
  {
    var order := Order(f, d, d - 1, up, swap);
    |order| == DataInColumns(f, d, d) && Distinct(order) && Within(f, order, 0, d - 1, 0, d) && AvoidsColumn(order, 6)
  }

  /** On an odd dimension the walk emits every data module of the square once, and nothing from column 6. */
  lemma WalkProperties(f: Grid, d: nat, up: bool, swap: bool)
    requires Wf(f) && d % 2 == 1 && d >= 7 && DataInColumn(f, 6, d) == 0
    ensures WalkFacts(f, d, up, swap)
  {
    OrderLength(f, d, d - 1, up, swap);
    OrderWithin(f, d, d - 1, up, swap);
    OrderSkipsTimingColumn(f, d, d - 1, up, swap);
  }

  /** The symbol's own walk satisfies `WalkFacts`. */
  lemma SymbolWalk(version: u8, up: bool, swap: bool)
    ensures WalkFacts(FunctionMask.FunctionGrid(version), FunctionMask.Side(version), up, swap)
  {
    var d := FunctionMask.Side(version);
    assert d == 2 * (8 + 2 * version as nat) + 1;
    FunctionMask.TimingColumnEmpty(version, d);
    DataInColumnAgrees(version, 6, d);
    WalkProperties(FunctionMask.FunctionGrid(version), d, up, swap);
  }

  /**
   * Read at the symbol's own size, the walk emits exactly `data_modules_count`
   * bits, whatever the direction and column order.
   */
  lemma ExtractLength(version: u8, up: bool, swap: bool)
    ensures |Order(FunctionMask.FunctionGrid(version), FunctionMask.Side(version), FunctionMask.Side(version) - 1, up, swap)|
         == FunctionMask.DataCount(version)
  {
    var d := FunctionMask.Side(version);
    SymbolWalk(version, up, swap);
    DataInColumnsAgrees(version, d, d);
    FunctionMask.RowsEqualsCols(version, d, d);
  }

  /** On an odd dimension every data module outside column 6 is emitted. */
  lemma WalkCovers(f: Grid, d: nat, up: bool, swap: bool)
    requires Wf(f) && d % 2 == 1 && d >= 7
    ensures forall x: nat, y: nat :: x < d && y < d && x != 6 && !Cell(f, x, y) ==> (x, y) in Order(f, d, d - 1, up, swap)
  {
    forall x: nat, y: nat | x < d && y < d && x != 6 && !Cell(f, x, y)
      ensures (x, y) in Order(f, d, d - 1, up, swap)
    {
      OrderHas(f, d, d - 1, up, swap, x, y);
    }
  }

  /** `a` and `b` hold the same cells. */
  predicate SameCells(a: seq<Pos>, b: seq<Pos>)
  {
    (forall p :: p in a ==> p in b) && (forall p :: p in b ==> p in a)
  }

  /** On an odd dimension, swapping the columns of each pair keeps the length and the cells of the walk. */
  lemma WalkSwap(f: Grid, d: nat, up: bool)
    requires Wf(f) && d % 2 == 1 && d >= 7 && DataInColumn(f, 6, d) == 0
    ensures |Order(f, d, d - 1, up, true)| == |Order(f, d, d - 1, up, false)|
    ensures SameCells(Order(f, d, d - 1, up, true), Order(f, d, d - 1, up, false))
  {
    var a := Order(f, d, d - 1, up, true);
    var b := Order(f, d, d - 1, up, false);
    WalkProperties(f, d, up, true);
    WalkProperties(f, d, up, false);
    WalkCovers(f, d, up, true);
    WalkCovers(f, d, up, false);
    assert Within(f, a, 0, d - 1, 0, d) && AvoidsColumn(a, 6);
    assert Within(f, b, 0, d - 1, 0, d) && AvoidsColumn(b, 6);
    forall p | p in a
      ensures p in b
    {
      var i :| 0 <= i < |a| && a[i] == p;
    }
    forall p | p in b
      ensures p in a
    {
      var i :| 0 <= i < |b| && b[i] == p;
    }
  }

  /**
   * Read at the symbol's own size, the walk emits no cell twice, and only
   * data modules outside column 6.
   */
  lemma ExtractEmitsData(version: u8, up: bool, swap: bool)
    ensures Distinct(Order(FunctionMask.FunctionGrid(version), FunctionMask.Side(version), FunctionMask.Side(version) - 1, up, swap))
    ensures var order := Order(FunctionMask.FunctionGrid(version), FunctionMask.Side(version), FunctionMask.Side(version) - 1, up, swap);
      forall i :: 0 <= i < |order| ==>
        order[i].0 < FunctionMask.Side(version) && order[i].1 < FunctionMask.Side(version) && order[i].0 != 6
        && !FunctionMask.FunctionModule(version, order[i].0, order[i].1)
  {
    var d := FunctionMask.Side(version);
    var f := FunctionMask.FunctionGrid(version);
    var order := Order(f, d, d - 1, up, swap);
    SymbolWalk(version, up, swap);
    assert Within(f, order, 0, d - 1, 0, d) && AvoidsColumn(order, 6);
    forall i | 0 <= i < |order|
      ensures order[i].0 < d && order[i].1 < d && order[i].0 != 6 && !FunctionMask.FunctionModule(version, order[i].0, order[i].1)
    {
      assert !Cell(f, order[i].0, order[i].1);
    }
  }

  /** Read at the symbol's own size, the walk emits every data module outside column 6. */
  lemma ExtractEmitsAllData(version: u8, up: bool, swap: bool, x: nat, y: nat)
    requires x < FunctionMask.Side(version) && y < FunctionMask.Side(version) && x != 6
    requires !FunctionMask.FunctionModule(version, x, y)
    ensures (x, y) in Order(FunctionMask.FunctionGrid(version), FunctionMask.Side(version), FunctionMask.Side(version) - 1, up, swap)
  {
    var d := FunctionMask.Side(version);
    var f := FunctionMask.FunctionGrid(version);
    SideShape(version);
    MaskCell(version, x, y);
    OrderHas(f, d, d - 1, up, swap, x, y);
  }

  /** The side of a symbol is odd and at least 21, so the walk starts on an even column right of 6. */
  lemma SideShape(version: u8)
    ensures FunctionMask.Side(version) % 2 == 1 && FunctionMask.Side(version) >= 17
    ensures (FunctionMask.Side(version) - 1) % 2 == 0 && FunctionMask.Side(version) - 1 >= 6
  {
    assert FunctionMask.Side(version) == 2 * (8 + 2 * version as nat) + 1;
  }

  /** A cell of the mask grid is a function module. */
  lemma MaskCell(version: u8, x: int, y: int)
    ensures Cell(FunctionMask.FunctionGrid(version), x, y) == FunctionMask.FunctionModule(version, x, y)
  {
  }

  /**
   * `swap_columns` only reorders cells within a row of a pair: at the
   * symbol's own size the walk has the same length and the same cells either way.
   */
  lemma SwapReordersOnly(version: u8, up: bool)
    ensures |Order(FunctionMask.FunctionGrid(version), FunctionMask.Side(version), FunctionMask.Side(version) - 1, up, true)|
         == |Order(FunctionMask.FunctionGrid(version), FunctionMask.Side(version), FunctionMask.Side(version) - 1, up, false)|
    ensures SameCells(Order(FunctionMask.FunctionGrid(version), FunctionMask.Side(version), FunctionMask.Side(version) - 1, up, true),
                      Order(FunctionMask.FunctionGrid(version), FunctionMask.Side(version), FunctionMask.Side(version) - 1, up, false))
  {
    var d := FunctionMask.Side(version);
    assert d == 2 * (8 + 2 * version as nat) + 1;
    FunctionMask.TimingColumnEmpty(version, d);
    DataInColumnAgrees(version, 6, d);
    WalkSwap(FunctionMask.FunctionGrid(version), d, up);
  }
}
