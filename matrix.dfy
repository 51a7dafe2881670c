/**
 * The packed bit matrix (src/models/matrix.rs): `width * height` cells stored
 * row-major, eight to a byte, cell `(x, y)` at bit `(y*width+x) % 8` of byte
 * `(y*width+x) / 8`. `Grid` is the abstract value a matrix denotes.
 */
module Matrix {

  /** A `width` x `height` grid of modules; `rows[y][x]` is cell (x, y). */
  datatype Grid = Grid(width: nat, height: nat, rows: seq<seq<bool>>)

  predicate Wf(g: Grid)
  {
    |g.rows| == g.height && forall y :: 0 <= y < g.height ==> |g.rows[y]| == g.width
  }

  predicate InBounds(g: Grid, x: int, y: int)
  {
    0 <= x < g.width && 0 <= y < g.height
  }

  /** What `get` reports: the cell, or false outside the grid. */
  function Cell(g: Grid, x: int, y: int): bool
    requires Wf(g)
  {
    if InBounds(g, x, y) then g.rows[y][x] else false
  }

  function Blank(w: nat, h: nat): (g: Grid)
    ensures Wf(g) && g.width == w && g.height == h
    ensures forall x, y :: !Cell(g, x, y)
  {
    Grid(w, h, seq(h, _ => seq(w, _ => false)))
  }

  /** The grid after storing `v` at (x, y); outside the grid nothing changes. */
  function SetCell(g: Grid, x: int, y: int, v: bool): (r: Grid)
    requires Wf(g)
    ensures Wf(r) && r.width == g.width && r.height == g.height
    ensures forall a, b :: Cell(r, a, b) == if a == x && b == y && InBounds(g, x, y) then v else Cell(g, a, b)
  {
    if InBounds(g, x, y) then Grid(g.width, g.height, g.rows[y := g.rows[y][x := v]]) else g
  }

  /** The grid after inverting (x, y); outside the grid nothing changes. */
  function ToggleCell(g: Grid, x: int, y: int): (r: Grid)
    requires Wf(g)
    ensures Wf(r) && r.width == g.width && r.height == g.height
    ensures forall a, b :: Cell(r, a, b) == if a == x && b == y && InBounds(g, x, y) then !Cell(g, a, b) else Cell(g, a, b)
  {
    SetCell(g, x, y, !Cell(g, x, y))
  }

  /** Two grids of the same shape that agree on every cell are equal. */
  lemma GridExt(a: Grid, b: Grid)
    requires Wf(a) && Wf(b) && a.width == b.width && a.height == b.height
    requires forall x, y :: 0 <= x < a.width && 0 <= y < a.height ==> Cell(a, x, y) == Cell(b, x, y)
    ensures a == b
  {
    forall y | 0 <= y < a.height
      ensures a.rows[y] == b.rows[y]
    {
      forall x | 0 <= x < a.width
        ensures a.rows[y][x] == b.rows[y][x]
      {
        assert Cell(a, x, y) == Cell(b, x, y);
      }
    }
  }

  /** Toggling a cell twice restores the grid. */
  lemma ToggleTwice(g: Grid, x: int, y: int)
    requires Wf(g)
    ensures ToggleCell(ToggleCell(g, x, y), x, y) == g
  {
    var t := ToggleCell(ToggleCell(g, x, y), x, y);
    GridExt(t, g);
  }

  /** Storing a value and reading it back gives the value; other cells are untouched. */
  lemma SetThenGet(g: Grid, x: int, y: int, v: bool, a: int, b: int)
    requires Wf(g) && InBounds(g, x, y)
    ensures Cell(SetCell(g, x, y, v), x, y) == v
    ensures (a != x || b != y) ==> Cell(SetCell(g, x, y, v), a, b) == Cell(g, a, b)
  {
  }

  /** Bit `k` of byte `b`. */
  function Bit(b: bv8, k: bv8): bool
    requires k < 8
  {
    (b >> k) & 1 == 1
  }

  /** Bit `i` of a packed byte sequence; past the end it reads as false. */
  function BitAt(d: seq<bv8>, i: nat): bool
  {
    i / 8 < |d| && Bit(d[i / 8], (i % 8) as bv8)
  }

  /** The row-major position of cell (x, y) in a layout of width `w`. */
  function Index(w: nat, x: nat, y: nat): nat
  {
    y * w + x
  }

  /** The packed bit of cell (x, y) in a row-major layout of width `w`. */
  function CellBit(d: seq<bv8>, w: nat, x: nat, y: nat): bool
  {
    BitAt(d, Index(w, x, y))
  }

  lemma OrBit(b: bv8, k: bv8, j: bv8)
    requires k < 8 && j < 8
    ensures Bit(b | (1 << k), j) == (if j == k then true else Bit(b, j))
  {
  }

  lemma AndNotBit(b: bv8, k: bv8, j: bv8)
    requires k < 8 && j < 8
    ensures Bit(b & !(1 << k), j) == (if j == k then false else Bit(b, j))
  {
  }

  lemma XorBit(b: bv8, k: bv8, j: bv8)
    requires k < 8 && j < 8
    ensures Bit(b ^ (1 << k), j) == (if j == k then !Bit(b, j) else Bit(b, j))
  {
  }

  lemma SmallConv(i: nat, j: nat)
    requires i < 8 && j < 8
    ensures (i as bv8) < 8 && (i as bv8 == j as bv8 <==> i == j)
  {
  }

  lemma DivMod8(i: nat, j: nat)
    ensures i / 8 == j / 8 && i % 8 == j % 8 ==> i == j
  {
  }

  /** Byte `b` with bit `k` set to `v`, as `set` computes it. */
  function StoreByte(b: bv8, k: nat, v: bool): bv8
    requires k < 8
  {
    if v then SetByte(b, k) else ClearByte(b, k)
  }

  function SetByte(b: bv8, k: nat): bv8
    requires k < 8
  {
    b | (1 << (k as bv8))
  }

  function ClearByte(b: bv8, k: nat): bv8
    requires k < 8
  {
    b & !(1 << (k as bv8))
  }

  lemma SetByteBit(b: bv8, k: nat, j: nat)
    requires k < 8 && j < 8
    ensures (j as bv8) < 8
    ensures Bit(SetByte(b, k), j as bv8) == if j == k then true else Bit(b, j as bv8)
  {
    SmallConv(k, j);
    OrBit(b, k as bv8, j as bv8);
  }

  lemma ClearByteBit(b: bv8, k: nat, j: nat)
    requires k < 8 && j < 8
    ensures (j as bv8) < 8
    ensures Bit(ClearByte(b, k), j as bv8) == if j == k then false else Bit(b, j as bv8)
  {
    SmallConv(k, j);
    AndNotBit(b, k as bv8, j as bv8);
  }

  /** Byte `b` with bit `k` inverted, as `toggle` computes it. */
  function FlipByte(b: bv8, k: nat): bv8
    requires k < 8
  {
    b ^ (1 << (k as bv8))
  }

  lemma StoreByteBit(b: bv8, k: nat, v: bool, j: nat)
    requires k < 8 && j < 8
    ensures (j as bv8) < 8
    ensures Bit(StoreByte(b, k, v), j as bv8) == if j == k then v else Bit(b, j as bv8)
  {
    if v {
      SetByteBit(b, k, j);
    } else {
      ClearByteBit(b, k, j);
    }
  }

  lemma FlipByteBit(b: bv8, k: nat, j: nat)
    requires k < 8 && j < 8
    ensures (j as bv8) < 8
    ensures Bit(FlipByte(b, k), j as bv8) == if j == k then !Bit(b, j as bv8) else Bit(b, j as bv8)
  {
    SmallConv(k, j);
    XorBit(b, k as bv8, j as bv8);
  }

  function StoreBit(d: seq<bv8>, i: nat, v: bool): seq<bv8>
    requires i / 8 < |d|
  {
    d[i / 8 := StoreByte(d[i / 8], i % 8, v)]
  }

  function FlipBit(d: seq<bv8>, i: nat): seq<bv8>
    requires i / 8 < |d|
  {
    d[i / 8 := FlipByte(d[i / 8], i % 8)]
  }

  /** Storing bit `i` changes bit `i` and no other. */
  lemma StoreBitAt(d: seq<bv8>, i: nat, v: bool, j: nat)
    requires i / 8 < |d|
    ensures |StoreBit(d, i, v)| == |d|
    ensures BitAt(StoreBit(d, i, v), j) == if j == i then v else BitAt(d, j)
  {
    DivMod8(i, j);
    if j / 8 == i / 8 {
      StoreByteBit(d[i / 8], i % 8, v, j % 8);
    }
  }

  /** Flipping bit `i` changes bit `i` and no other. */
  lemma FlipBitAt(d: seq<bv8>, i: nat, j: nat)
    requires i / 8 < |d|
    ensures |FlipBit(d, i)| == |d|
    ensures BitAt(FlipBit(d, i), j) == if j == i then !BitAt(d, j) else BitAt(d, j)
  {
    DivMod8(i, j);
    if j / 8 == i / 8 {
      FlipByteBit(d[i / 8], i % 8, j % 8);
    }
  }

  lemma MulLe(a: nat, b: nat, w: nat)
    requires a <= b
    ensures a * w <= b * w
  {
  }

  /** The row-major index of an in-bounds cell addresses an existing byte. */
  lemma IndexFacts(w: nat, h: nat, x: nat, y: nat)
    requires x < w && y < h
    ensures Index(w, x, y) < w * h
    ensures Index(w, x, y) / 8 < (w * h + 7) / 8
  {
    MulLe(y + 1, h, w);
    assert Index(w, x, y) < w * h;
  }

  /** Distinct in-bounds cells have distinct row-major indices. */
  lemma IndexInjective(w: nat, x1: nat, y1: nat, x2: nat, y2: nat)
    requires x1 < w && x2 < w
    requires Index(w, x1, y1) == Index(w, x2, y2)
    ensures x1 == x2 && y1 == y2
  {
    if y1 < y2 {
      MulLe(y1 + 1, y2, w);
      assert false;
    } else if y2 < y1 {
      MulLe(y2 + 1, y1, w);
      assert false;
    }
  }

  /** The packed layout of `g` in `d`: cell (x, y) is bit y*w+x. */
  ghost predicate Encodes(d: seq<bv8>, g: Grid)
  {
    Wf(g) && forall y, x {:trigger CellBit(d, g.width, x, y)} :: 0 <= y < g.height && 0 <= x < g.width ==> g.rows[y][x] == CellBit(d, g.width, x, y)
  }

  /** Row-major indices of in-bounds cells coincide exactly when the cells do. */
  lemma SameIndex(w: nat, x: nat, y: nat, x': nat, y': nat)
    requires x < w && x' < w
    ensures (Index(w, x, y) == Index(w, x', y')) <==> (x == x' && y == y')
  {
    if Index(w, x, y) == Index(w, x', y') {
      IndexInjective(w, x, y, x', y');
    }
  }

  /** One cell of the encoding after storing bit y*w+x. */
  lemma StoreCell(d: seq<bv8>, g: Grid, x: nat, y: nat, v: bool, x': nat, y': nat)
    requires Encodes(d, g) && |d| == (g.width * g.height + 7) / 8
    requires x < g.width && y < g.height && x' < g.width && y' < g.height
    requires Index(g.width, x, y) / 8 < |d|
    ensures SetCell(g, x, y, v).rows[y'][x'] == CellBit(StoreBit(d, Index(g.width, x, y), v), g.width, x', y')
  {
    var w := g.width;
    var i, j := Index(w, x, y), Index(w, x', y');
    var g' := SetCell(g, x, y, v);
    assert Cell(g', x', y') == g'.rows[y'][x'];
    SameIndex(w, x, y, x', y');
    StoreBitAt(d, i, v, j);
    if x' == x && y' == y {
      assert g'.rows[y'][x'] == v;
      assert BitAt(StoreBit(d, i, v), j) == v;
    } else {
      assert g'.rows[y'][x'] == g.rows[y'][x'];
      assert g.rows[y'][x'] == CellBit(d, w, x', y') == BitAt(d, j);
      assert BitAt(StoreBit(d, i, v), j) == BitAt(d, j);
    }
  }

  /** One cell of the encoding after flipping bit y*w+x. */
  lemma FlipCell(d: seq<bv8>, g: Grid, x: nat, y: nat, x': nat, y': nat)
    requires Encodes(d, g) && |d| == (g.width * g.height + 7) / 8
    requires x < g.width && y < g.height && x' < g.width && y' < g.height
    requires Index(g.width, x, y) / 8 < |d|
    ensures ToggleCell(g, x, y).rows[y'][x'] == CellBit(FlipBit(d, Index(g.width, x, y)), g.width, x', y')
  {
    var w := g.width;
    var i, j := Index(w, x, y), Index(w, x', y');
    var g' := ToggleCell(g, x, y);
    assert Cell(g', x', y') == g'.rows[y'][x'];
    assert Cell(g, x', y') == g.rows[y'][x'];
    assert g.rows[y'][x'] == CellBit(d, w, x', y') == BitAt(d, j);
    SameIndex(w, x, y, x', y');
    FlipBitAt(d, i, j);
    if x' == x && y' == y {
      assert g'.rows[y'][x'] == !g.rows[y'][x'];
      assert BitAt(FlipBit(d, i), j) == !BitAt(d, j);
    } else {
      assert g'.rows[y'][x'] == g.rows[y'][x'];
      assert BitAt(FlipBit(d, i), j) == BitAt(d, j);
    }
  }

  /** Storing bit y*w+x of an encoding encodes the grid with (x, y) set. */
  lemma StoreEncodes(d: seq<bv8>, g: Grid, x: nat, y: nat, v: bool)
    requires Encodes(d, g) && |d| == (g.width * g.height + 7) / 8
    requires x < g.width && y < g.height
    ensures Index(g.width, x, y) / 8 < |d|
    ensures Encodes(StoreBit(d, Index(g.width, x, y), v), SetCell(g, x, y, v))
  {
    IndexFacts(g.width, g.height, x, y);
    forall y', x' | 0 <= y' < g.height && 0 <= x' < g.width
      ensures SetCell(g, x, y, v).rows[y'][x'] == CellBit(StoreBit(d, Index(g.width, x, y), v), g.width, x', y')
    {
      StoreCell(d, g, x, y, v, x', y');
    }
  }

  /** Flipping bit y*w+x of an encoding encodes the grid with (x, y) toggled. */
  lemma FlipEncodes(d: seq<bv8>, g: Grid, x: nat, y: nat)
    requires Encodes(d, g) && |d| == (g.width * g.height + 7) / 8
    requires x < g.width && y < g.height
    ensures Index(g.width, x, y) / 8 < |d|
    ensures Encodes(FlipBit(d, Index(g.width, x, y)), ToggleCell(g, x, y))
  {
    IndexFacts(g.width, g.height, x, y);
    forall y', x' | 0 <= y' < g.height && 0 <= x' < g.width
      ensures ToggleCell(g, x, y).rows[y'][x'] == CellBit(FlipBit(d, Index(g.width, x, y)), g.width, x', y')
    {
      FlipCell(d, g, x, y, x', y');
    }
  }

  class BitMatrix {
    const width: nat
    const height: nat
    const data: array<bv8>
    /** The grid `data` encodes. */
    ghost var grid: Grid

    ghost predicate Valid()
      reads this, data
    {
      data.Length == (width * height + 7) / 8
      && grid.width == width && grid.height == height && Encodes(data[..], grid)
    }

    /** `BitMatrix::new`: ceil(w*h/8) zero bytes, so every cell is false. */
    constructor (w: nat, h: nat)
      ensures Valid() && width == w && height == h && grid == Blank(w, h)
      ensures fresh(data)
    {
      width := w;
      height := h;
      data := new bv8[(w * h + 7) / 8](_ => 0);
      grid := Blank(w, h);
      new;
      forall y, x | 0 <= y < h && 0 <= x < w
        ensures !CellBit(data[..], w, x, y)
      {
        IndexFacts(w, h, x, y);
      }
    }

    /** `get`: false outside the matrix. */
    method Get(x: nat, y: nat) returns (r: bool)
      requires Valid()
      ensures r == Cell(grid, x, y)
    {
      if x >= width || y >= height {
        return false;
      }
      var index := Index(width, x, y);
      IndexFacts(width, height, x, y);
      var byteIndex := index / 8;
      var bitIndex := (index % 8) as bv8;
      r := (data[byteIndex] >> bitIndex) & 1 == 1;
      assert r == CellBit(data[..], width, x, y);
    }

    /** `set`: stores `v` at (x, y); outside the matrix nothing changes. */
    method Set(x: nat, y: nat, v: bool)
      requires Valid()
      modifies this, data
      ensures Valid() && grid == SetCell(old(grid), x, y, v)
    {
      if x < width && y < height {
        var index := Index(width, x, y);
        IndexFacts(width, height, x, y);
        var byteIndex := index / 8;
        ghost var d := data[..];
        data[byteIndex] := StoreByte(data[byteIndex], index % 8, v);
        assert data[..] == StoreBit(d, index, v);
        StoreEncodes(d, grid, x, y, v);
        grid := SetCell(grid, x, y, v);
      }
    }

    /** `toggle`: inverts (x, y); outside the matrix nothing changes. */
    method Toggle(x: nat, y: nat)
      requires Valid()
      modifies this, data
      ensures Valid() && grid == ToggleCell(old(grid), x, y)
    {
      if x < width && y < height {
        var index := Index(width, x, y);
        IndexFacts(width, height, x, y);
        var byteIndex := index / 8;
        ghost var d := data[..];
        data[byteIndex] := FlipByte(data[byteIndex], index % 8);
        assert data[..] == FlipBit(d, index);
        FlipEncodes(d, grid, x, y);
        grid := ToggleCell(grid, x, y);
      }
    }

    /** `clear`: every byte becomes 0, so every cell is false. */
    method Clear()
      requires Valid()
      modifies this, data
      ensures Valid() && grid == Blank(width, height)
    {
      var i := 0;
      while i < data.Length
        invariant 0 <= i <= data.Length
        invariant forall k :: 0 <= k < i ==> data[k] == 0
      {
        data[i] := 0;
        i := i + 1;
      }
      grid := Blank(width, height);
      forall y, x | 0 <= y < height && 0 <= x < width
        ensures !CellBit(data[..], width, x, y)
      {
        IndexFacts(width, height, x, y);
      }
    }

    /** The derived `clone`: a fresh matrix holding the same cells. */
    method Clone() returns (r: BitMatrix)
      requires Valid()
      ensures fresh(r) && fresh(r.data)
      ensures r.Valid() && r.width == width && r.height == height && r.grid == grid
    {
      r := new BitMatrix(width, height);
      var i := 0;
      while i < data.Length
        invariant 0 <= i <= data.Length && r.data.Length == data.Length
        invariant forall k :: 0 <= k < i ==> r.data[k] == data[k]
        modifies r.data
      {
        r.data[i] := data[i];
        i := i + 1;
      }
      assert r.data[..] == data[..];
      r.grid := grid;
    }
  }
}
