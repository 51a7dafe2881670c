/**
 * Orientation of a sampled module grid (src/decoder/qr_decoder/orientation.rs):
 * the rotations, flips and inversion that copy a matrix into a new one, the
 * finder probe that decides which orientations are kept, the timing and
 * version checks, and the content score.
 *
 * `Turned` and `Inverted` say what the copying loops build; the lemmas at
 * the end of each part relate the orientations to one another.
 */
module Orientation {
  import opened Wrappers
  import opened Matrix
  import Version

  // ------------------------------------------------------------ orientations

  /** The five square re-orientations; each writes the cell read at (x, y) to `Dest`. */
  datatype Turn = Rotate90 | Rotate180 | Rotate270 | FlipHorizontal | FlipVertical

  /** Where the loop of each orientation stores the cell it read at (x, y). */
  function Dest(t: Turn, n: nat, x: nat, y: nat): (nat, nat)
    requires x < n && y < n
  {
    match t
    case Rotate90 => (n - 1 - y, x)
    case Rotate180 => (n - 1 - x, n - 1 - y)
    case Rotate270 => (y, n - 1 - x)
    case FlipHorizontal => (n - 1 - x, y)
    case FlipVertical => (x, n - 1 - y)
  }

  /** The cell that ends up at (a, b): the inverse of `Dest`. */
  function Source(t: Turn, n: nat, a: nat, b: nat): (nat, nat)
    requires a < n && b < n
  {
    match t
    case Rotate90 => (b, n - 1 - a)
    case Rotate180 => (n - 1 - a, n - 1 - b)
    case Rotate270 => (n - 1 - b, a)
    case FlipHorizontal => (n - 1 - a, b)
    case FlipVertical => (a, n - 1 - b)
  }

  /**
   * The width x width matrix an orientation builds: cell (a, b) is the
   * input's cell at `Source`, read with `get` (false past the input's height).
   */
  function Turned(g: Grid, t: Turn): (r: Grid)
    requires Wf(g)
    ensures Wf(r) && r.width == g.width && r.height == g.width
  {
    var n := g.width;
    Grid(n, n, seq(n, b requires 0 <= b < n => seq(n, a requires 0 <= a < n => Cell(g, Source(t, n, a, b).0, Source(t, n, a, b).1))))
  }

  lemma TurnedCell(g: Grid, t: Turn, a: nat, b: nat)
    requires Wf(g) && a < g.width && b < g.width
    ensures Cell(Turned(g, t), a, b) == Cell(g, Source(t, g.width, a, b).0, Source(t, g.width, a, b).1)
  {
  }

  /** Cells already copied once the loops reached row `y`, column `x`. */
  predicate Copied(t: Turn, n: nat, a: nat, b: nat, x: nat, y: nat)
    requires a < n && b < n
  {
    var (sx, sy) := Source(t, n, a, b);
    sy < y || (sy == y && sx < x)
  }

  /** The output matrix after the loops have copied every cell before (x, y). */
  ghost function Partial(g: Grid, t: Turn, x: nat, y: nat): (r: Grid)
    requires Wf(g)
    ensures Wf(r) && r.width == g.width && r.height == g.width
  {
    var n := g.width;
    Grid(n, n, seq(n, b requires 0 <= b < n => seq(n, a requires 0 <= a < n =>
      Copied(t, n, a, b, x, y) && Cell(g, Source(t, n, a, b).0, Source(t, n, a, b).1))))
  }

  /** A cell of `Partial`. */
  lemma PartialCell(g: Grid, t: Turn, x: nat, y: nat, a: nat, b: nat)
    requires Wf(g) && a < g.width && b < g.width
    ensures Cell(Partial(g, t, x, y), a, b) == (Copied(t, g.width, a, b, x, y) && Cell(g, Source(t, g.width, a, b).0, Source(t, g.width, a, b).1))
  {
  }

  /** `Source` stays in the square and inverts `Dest`, cell by cell. */
  lemma SourceOfDest(t: Turn, n: nat, x: nat, y: nat, a: nat, b: nat)
    requires x < n && y < n && a < n && b < n
    ensures Dest(t, n, x, y).0 < n && Dest(t, n, x, y).1 < n
    ensures Source(t, n, a, b).0 < n && Source(t, n, a, b).1 < n
    ensures Source(t, n, a, b) == (x, y) <==> (a, b) == Dest(t, n, x, y)
  {
    match t
    case Rotate90 =>
    case Rotate180 =>
    case Rotate270 =>
    case FlipHorizontal =>
    case FlipVertical =>
  }

  /** Moving on by one cell copies exactly the cell whose source is (x, y). */
  lemma CopiedStep(t: Turn, n: nat, x: nat, y: nat, a: nat, b: nat)
    requires x < n && y < n && a < n && b < n
    ensures Copied(t, n, a, b, x + 1, y) == (Copied(t, n, a, b, x, y) || (a, b) == Dest(t, n, x, y))
  {
    SourceOfDest(t, n, x, y, a, b);
  }

  /** Copying cell (x, y) to `Dest` extends the copied part by one cell. */
  lemma PartialStep(g: Grid, t: Turn, x: nat, y: nat)
    requires Wf(g) && x < g.width && y < g.width
    ensures SetCell(Partial(g, t, x, y), Dest(t, g.width, x, y).0, Dest(t, g.width, x, y).1, Cell(g, x, y)) == Partial(g, t, x + 1, y)
  {
    var n := g.width;
    var (dx, dy) := Dest(t, n, x, y);
    SourceOfDest(t, n, x, y, 0, 0);
    var s := SetCell(Partial(g, t, x, y), dx, dy, Cell(g, x, y));
    forall a, b | 0 <= a < n && 0 <= b < n
      ensures Cell(s, a, b) == Cell(Partial(g, t, x + 1, y), a, b)
    {
      PartialCell(g, t, x, y, a, b);
      PartialCell(g, t, x + 1, y, a, b);
      CopiedStep(t, n, x, y, a, b);
      SourceOfDest(t, n, x, y, a, b);
    }
    GridExt(s, Partial(g, t, x + 1, y));
  }

  /** Before the loops nothing is copied. */
  lemma PartialStart(g: Grid, t: Turn)
    requires Wf(g)
    ensures Partial(g, t, 0, 0) == Blank(g.width, g.width)
  {
    var n := g.width;
    forall a, b | 0 <= a < n && 0 <= b < n
      ensures Cell(Partial(g, t, 0, 0), a, b) == Cell(Blank(n, n), a, b)
    {
      PartialCell(g, t, 0, 0, a, b);
    }
    GridExt(Partial(g, t, 0, 0), Blank(n, n));
  }

  /** A finished row is the start of the next. */
  lemma PartialRow(g: Grid, t: Turn, y: nat)
    requires Wf(g) && y < g.width
    ensures Partial(g, t, g.width, y) == Partial(g, t, 0, y + 1)
  {
    var n := g.width;
    forall a, b | 0 <= a < n && 0 <= b < n
      ensures Cell(Partial(g, t, n, y), a, b) == Cell(Partial(g, t, 0, y + 1), a, b)
    {
      PartialCell(g, t, n, y, a, b);
      PartialCell(g, t, 0, y + 1, a, b);
      SourceOfDest(t, n, 0, 0, a, b);
    }
    GridExt(Partial(g, t, n, y), Partial(g, t, 0, y + 1));
  }

  /** After the last row every cell is copied. */
  lemma PartialDone(g: Grid, t: Turn)
    requires Wf(g)
    ensures Partial(g, t, 0, g.width) == Turned(g, t)
  {
    var n := g.width;
    forall a, b | 0 <= a < n && 0 <= b < n
      ensures Cell(Partial(g, t, 0, n), a, b) == Cell(Turned(g, t), a, b)
    {
      PartialCell(g, t, 0, n, a, b);
      TurnedCell(g, t, a, b);
      SourceOfDest(t, n, 0, 0, a, b);
    }
    GridExt(Partial(g, t, 0, n), Turned(g, t));
  }

  /** One row of the copying loop. */
  method TurnRow(matrix: BitMatrix, t: Turn, out: BitMatrix, y: nat)
    requires matrix.Valid() && out.Valid() && out.data != matrix.data && out != matrix
    requires y < matrix.width && out.grid == Partial(matrix.grid, t, 0, y)
    modifies out, out.data
    ensures out.Valid() && out.grid == Partial(matrix.grid, t, 0, y + 1)
  {
    var n := matrix.width;
    for x := 0 to n
      invariant out.Valid() && out.grid == Partial(matrix.grid, t, x, y)
    {
      var v := matrix.Get(x, y);
      var (dx, dy) := Dest(t, n, x, y);
      PartialStep(matrix.grid, t, x, y);
      out.Set(dx, dy, v);
    }
    PartialRow(matrix.grid, t, y);
  }

  /**
   * `rotate90`, `rotate180`, `rotate270`, `flip_horizontal` and
   * `flip_vertical`: one shared loop, `out.set(Dest(x, y), matrix.get(x, y))`.
   */
  method TurnMatrix(matrix: BitMatrix, t: Turn) returns (out: BitMatrix)
    requires matrix.Valid()
    ensures fresh(out) && fresh(out.data) && out.Valid()
    ensures out.grid == Turned(matrix.grid, t)
  {
    var n := matrix.width;
    out := new BitMatrix(n, n);
    PartialStart(matrix.grid, t);
    for y := 0 to n
      invariant fresh(out) && fresh(out.data) && out.Valid()
      invariant out.grid == Partial(matrix.grid, t, 0, y)
    {
      TurnRow(matrix, t, out, y);
    }
    PartialDone(matrix.grid, t);
  }

  /** The matrix `invert_matrix` builds: every cell negated, same shape. */
  function Inverted(g: Grid): (r: Grid)
    requires Wf(g)
    ensures Wf(r) && r.width == g.width && r.height == g.height
    ensures forall x, y :: InBounds(g, x, y) ==> Cell(r, x, y) == !Cell(g, x, y)
  {
    Grid(g.width, g.height, seq(g.height, y requires 0 <= y < g.height => seq(g.width, x requires 0 <= x < g.width => !g.rows[y][x])))
  }

  /** `invert_matrix`. */
  method InvertMatrix(matrix: BitMatrix) returns (out: BitMatrix)
    requires matrix.Valid()
    ensures fresh(out) && fresh(out.data) && out.Valid()
    ensures out.grid == Inverted(matrix.grid)
  {
    ghost var g := matrix.grid;
    var w, h := matrix.width, matrix.height;
    out := new BitMatrix(w, h);
    for y := 0 to h
      invariant fresh(out) && fresh(out.data) && out.Valid() && out.width == w && out.height == h
      invariant forall a, b :: 0 <= a < w && 0 <= b < h ==> Cell(out.grid, a, b) == (b < y && !Cell(g, a, b))
    {
      for x := 0 to w
        invariant fresh(out) && fresh(out.data) && out.Valid() && out.width == w && out.height == h
        invariant forall a, b :: 0 <= a < w && 0 <= b < h ==>
          Cell(out.grid, a, b) == ((b < y || (b == y && a < x)) && !Cell(g, a, b))
      {
        var v := matrix.Get(x, y);
        out.Set(x, y, !v);
      }
    }
    GridExt(out.grid, Inverted(g));
  }

  predicate Square(g: Grid)
  {
    Wf(g) && g.width == g.height
  }

  /** Inverting twice restores the matrix. */
  lemma InvertTwice(g: Grid)
    requires Wf(g)
    ensures Inverted(Inverted(g)) == g
  {
    GridExt(Inverted(Inverted(g)), g);
  }

  /** A flip applied twice restores a square matrix. */
  lemma FlipTwice(g: Grid, t: Turn)
    requires Square(g) && (t == FlipHorizontal || t == FlipVertical)
    ensures Turned(Turned(g, t), t) == g
  {
    var n := g.width;
    forall a, b | 0 <= a < n && 0 <= b < n
      ensures Cell(Turned(Turned(g, t), t), a, b) == Cell(g, a, b)
    {
      TurnedCell(Turned(g, t), t, a, b);
      var (sa, sb) := Source(t, n, a, b);
      TurnedCell(g, t, sa, sb);
    }
    GridExt(Turned(Turned(g, t), t), g);
  }

  /** Two quarter turns are a half turn. */
  lemma Rotate90Twice(g: Grid)
    requires Square(g)
    ensures Turned(Turned(g, Rotate90), Rotate90) == Turned(g, Rotate180)
  {
    var n := g.width;
    var r := Turned(g, Rotate90);
    forall a, b | 0 <= a < n && 0 <= b < n
      ensures Cell(Turned(r, Rotate90), a, b) == Cell(Turned(g, Rotate180), a, b)
    {
      TurnedCell(r, Rotate90, a, b);
      TurnedCell(g, Rotate90, b, n - 1 - a);
      TurnedCell(g, Rotate180, a, b);
    }
    GridExt(Turned(r, Rotate90), Turned(g, Rotate180));
  }

  /** A quarter turn after a half turn is a three-quarter turn. */
  lemma Rotate90AfterRotate180(g: Grid)
    requires Square(g)
    ensures Turned(Turned(g, Rotate180), Rotate90) == Turned(g, Rotate270)
  {
    var n := g.width;
    var r := Turned(g, Rotate180);
    forall a, b | 0 <= a < n && 0 <= b < n
      ensures Cell(Turned(r, Rotate90), a, b) == Cell(Turned(g, Rotate270), a, b)
    {
      TurnedCell(r, Rotate90, a, b);
      TurnedCell(g, Rotate180, b, n - 1 - a);
      TurnedCell(g, Rotate270, a, b);
    }
    GridExt(Turned(r, Rotate90), Turned(g, Rotate270));
  }

  /** A quarter turn after a three-quarter turn restores the matrix. */
  lemma Rotate90AfterRotate270(g: Grid)
    requires Square(g)
    ensures Turned(Turned(g, Rotate270), Rotate90) == g
  {
    var n := g.width;
    var r := Turned(g, Rotate270);
    forall a, b | 0 <= a < n && 0 <= b < n
      ensures Cell(Turned(r, Rotate90), a, b) == Cell(g, a, b)
    {
      TurnedCell(r, Rotate90, a, b);
      TurnedCell(g, Rotate270, b, n - 1 - a);
    }
    GridExt(Turned(r, Rotate90), g);
  }

  /** Three quarter turns are `rotate270`, and four restore a square matrix. */
  lemma Rotate90Powers(g: Grid)
    requires Square(g)
    ensures Turned(Turned(Turned(g, Rotate90), Rotate90), Rotate90) == Turned(g, Rotate270)
    ensures Turned(Turned(Turned(Turned(g, Rotate90), Rotate90), Rotate90), Rotate90) == g
  {
    Rotate90Twice(g);
    Rotate90AfterRotate180(g);
    Rotate90AfterRotate270(g);
  }

  // ------------------------------------------------------------ finder probe

  /** The seven probe offsets and their expected colours, checked at each finder origin. */
  const FinderChecks: seq<(nat, nat, bool)> :=
    [(0, 0, true), (6, 0, true), (0, 6, true), (6, 6, true), (3, 3, true), (1, 1, false), (2, 2, true)]

  /** The top-left corner of finder `o`: top-left, top-right, bottom-left. */
  function Origin(dim: nat, o: nat): (nat, nat)
    requires dim >= 7
  {
    if o == 0 then (0, 0) else if o == 1 then (dim - 7, 0) else (0, dim - 7)
  }

  /** Probe `k` of 21: check `k % 7` at origin `k / 7`. */
  function Probe(dim: nat, k: nat): (p: (nat, nat, bool))
    requires dim >= 7 && k < 21
  {
    var (o, c) := if k < 7 then (0, k) else if k < 14 then (1, k - 7) else (2, k - 14);
    var (ox, oy) := Origin(dim, o);
    (ox + FinderChecks[c].0, oy + FinderChecks[c].1, FinderChecks[c].2)
  }

  /**
   * The first `k` probes: None once a probe falls outside the matrix
   * (the loop returns false there), else the number of mismatches.
   */
  function FinderScan(g: Grid, k: nat): Option<nat>
    requires Wf(g) && g.width >= 7 && k <= 21
  {
    if k == 0 then Some(0)
    else
      match FinderScan(g, k - 1)
      case None => None
      case Some(m) =>
        var (x, y, expected) := Probe(g.width, k - 1);
        if x >= g.width || y >= g.height then None
        else Some(m + if Cell(g, x, y) != expected then 1 else 0)
  }

  /** `has_finders_with_tolerance`. */
  predicate HasFinders(g: Grid, maxMismatches: nat)
    requires Wf(g)
  {
    g.width >= 21 && g.height >= 21 && FinderScan(g, 21).Some? && FinderScan(g, 21).value <= maxMismatches
  }

  /** A more tolerant probe accepts everything a stricter one does. */
  lemma HasFindersMonotone(g: Grid, t1: nat, t2: nat)
    requires Wf(g) && t1 <= t2 && HasFinders(g, t1)
    ensures HasFinders(g, t2)
  {
  }

  /** No probe runs past the bottom unless the matrix is wider than tall. */
  lemma {:induction false} ScanInRange(g: Grid, k: nat)
    requires Wf(g) && g.width >= 21 && g.height >= g.width && k <= 21
    ensures FinderScan(g, k).Some? && FinderScan(g, k).value <= k
  {
    if k > 0 {
      ScanInRange(g, k - 1);
    }
  }

  /** Probe 16, the bottom-left (0, 6) check, lies in the last column's row `dim - 1`. */
  lemma {:induction false} ScanStopsWhenWide(g: Grid, k: nat)
    requires Wf(g) && g.width >= 21 && g.height < g.width && 17 <= k <= 21
    ensures FinderScan(g, k).None?
  {
    if k > 17 {
      ScanStopsWhenWide(g, k - 1);
    }
  }

  /**
   * The probe passes only on matrices at least 21 wide and at least as tall
   * as wide, and there exactly when at most `maxMismatches` probes differ.
   */
  lemma HasFindersMeaning(g: Grid, maxMismatches: nat)
    requires Wf(g)
    ensures HasFinders(g, maxMismatches) ==> 21 <= g.width <= g.height
    ensures 21 <= g.width <= g.height ==>
      (FinderScan(g, 21).Some? && (HasFinders(g, maxMismatches) <==> FinderScan(g, 21).value <= maxMismatches))
  {
    if g.width >= 21 {
      if g.height < g.width {
        ScanStopsWhenWide(g, 21);
      } else {
        ScanInRange(g, 21);
      }
    }
  }

  /** The probe loop over the three origins and seven checks. */
  method HasFindersWithTolerance(matrix: BitMatrix, maxMismatches: nat) returns (r: bool)
    requires matrix.Valid()
    ensures r == HasFinders(matrix.grid, maxMismatches)
  {
    var dim := matrix.width;
    if dim < 21 || matrix.height < 21 {
      return false;
    }
    var mismatches := 0;
    for o := 0 to 3
      invariant FinderScan(matrix.grid, 7 * o) == Some(mismatches)
    {
      var inside;
      inside, mismatches := ProbeOrigin(matrix, o, mismatches);
      if !inside {
        return false;
      }
    }
    r := mismatches <= maxMismatches;
  }

  /** The seven checks at origin `o`; `inside` is false once a probe leaves the matrix. */
  method ProbeOrigin(matrix: BitMatrix, o: nat, before: nat) returns (inside: bool, mismatches: nat)
    requires matrix.Valid() && matrix.width >= 21 && o < 3
    requires FinderScan(matrix.grid, 7 * o) == Some(before)
    ensures inside ==> FinderScan(matrix.grid, 7 * o + 7) == Some(mismatches)
    ensures !inside ==> FinderScan(matrix.grid, 21).None?
  {
    mismatches := before;
    for c := 0 to 7
      invariant FinderScan(matrix.grid, 7 * o + c) == Some(mismatches)
    {
      inside, mismatches := ProbeCheck(matrix, o, c, mismatches);
      if !inside {
        NoneStays(matrix.grid, 7 * o + c + 1);
        return;
      }
    }
    inside := true;
  }

  /** Check `c` at origin `o`: false when it falls outside, else the updated count. */
  method ProbeCheck(matrix: BitMatrix, o: nat, c: nat, before: nat) returns (inside: bool, mismatches: nat)
    requires matrix.Valid() && matrix.width >= 21 && o < 3 && c < 7
    requires FinderScan(matrix.grid, 7 * o + c) == Some(before)
    ensures inside ==> FinderScan(matrix.grid, 7 * o + c + 1) == Some(mismatches)
    ensures !inside ==> FinderScan(matrix.grid, 7 * o + c + 1).None?
  {
    var (ox, oy) := Origin(matrix.width, o);
    var (dx, dy, expected) := FinderChecks[c];
    var x, y := ox + dx, oy + dy;
    ProbeAt(matrix.width, o, c);
    ScanStep(matrix.grid, 7 * o + c, before);
    if x >= matrix.width || y >= matrix.height {
      return false, before;
    }
    var v := matrix.Get(x, y);
    inside, mismatches := true, before + if v != expected then 1 else 0;
  }

  /** One more probe: a stop outside the matrix, or one more mismatch when the colour differs. */
  lemma ScanStep(g: Grid, k: nat, m: nat)
    requires Wf(g) && g.width >= 7 && k < 21 && FinderScan(g, k) == Some(m)
    ensures FinderScan(g, k + 1) ==
      var (x, y, expected) := Probe(g.width, k);
      if x >= g.width || y >= g.height then None else Some(m + if Cell(g, x, y) != expected then 1 else 0)
  {
  }

  /** Probe `7 o + c` is check `c` at origin `o`. */
  lemma ProbeAt(dim: nat, o: nat, c: nat)
    requires dim >= 7 && o < 3 && c < 7
    ensures Probe(dim, 7 * o + c) == (Origin(dim, o).0 + FinderChecks[c].0, Origin(dim, o).1 + FinderChecks[c].1, FinderChecks[c].2)
  {
  }

  /** A scan that stopped stays stopped. */
  lemma {:induction false} NoneStays(g: Grid, k: nat)
    requires Wf(g) && g.width >= 7 && 1 <= k <= 21 && FinderScan(g, k).None?
    ensures FinderScan(g, 21).None?
    decreases 21 - k
  {
    if k < 21 {
      NoneStays(g, k + 1);
    }
  }

  // ------------------------------------------------------------ candidates

  /** The grids of `gs` that pass the probe with `tolerance`, in order. */
  function Passing(gs: seq<Grid>, tolerance: nat): (r: seq<Grid>)
    requires forall i :: 0 <= i < |gs| ==> Wf(gs[i])
    ensures |r| <= |gs|
    ensures forall i :: 0 <= i < |r| ==> r[i] in gs && Wf(r[i]) && HasFinders(r[i], tolerance)
  {
    if |gs| == 0 then []
    else
      var init := Passing(gs[..|gs| - 1], tolerance);
      var last := gs[|gs| - 1];
      if HasFinders(last, tolerance) then init + [last] else init
  }

  /** A grid of `gs` passing the probe appears among the passing ones. */
  lemma {:induction false} PassingKeeps(gs: seq<Grid>, tolerance: nat, i: nat)
    requires forall j :: 0 <= j < |gs| ==> Wf(gs[j])
    requires i < |gs| && HasFinders(gs[i], tolerance)
    ensures gs[i] in Passing(gs, tolerance)
  {
    if i < |gs| - 1 {
      PassingKeeps(gs[..|gs| - 1], tolerance, i);
    }
  }

  /** The identity and the three rotations. */
  function Rotations(g: Grid): (r: seq<Grid>)
    requires Wf(g)
    ensures |r| == 4 && forall i :: 0 <= i < 4 ==> Wf(r[i])
  {
    [g, Turned(g, Rotate90), Turned(g, Rotate180), Turned(g, Rotate270)]
  }

  /** The flips and the flips turned a quarter, in the order the source tries them. */
  function Flips(g: Grid): (r: seq<Grid>)
    requires Wf(g)
    ensures |r| == 4 && forall i :: 0 <= i < 4 ==> Wf(r[i])
  {
    [Turned(g, FlipHorizontal), Turned(g, FlipVertical),
     Turned(Turned(g, FlipHorizontal), Rotate90), Turned(Turned(g, FlipVertical), Rotate90)]
  }

  /** `candidate_orientations`: rotations passing at tolerance 3, else flips passing at 7. */
  function Candidates(g: Grid): (r: seq<Grid>)
    requires Wf(g)
    ensures forall i :: 0 <= i < |r| ==> Wf(r[i])
  {
    var strict := Passing(Rotations(g), 3);
    if |strict| > 0 then strict else Passing(Flips(g), 7)
  }

  /**
   * Every candidate passes at tolerance 7; when some rotation passes at
   * tolerance 3 the candidates are exactly those rotations and no flip is tried.
   */
  lemma CandidatesMeaning(g: Grid)
    requires Wf(g)
    ensures |Candidates(g)| <= 4
    ensures forall c :: c in Candidates(g) ==> Wf(c) && HasFinders(c, 7)
    ensures (exists i :: 0 <= i < 4 && HasFinders(Rotations(g)[i], 3)) ==>
      Candidates(g) == Passing(Rotations(g), 3) && forall c :: c in Candidates(g) ==> c in Rotations(g)
  {
    var rs := Rotations(g);
    forall c | c in Candidates(g)
      ensures Wf(c) && HasFinders(c, 7)
    {
      if |Passing(rs, 3)| > 0 {
        HasFindersMonotone(c, 3, 7);
      }
    }
    if exists i :: 0 <= i < 4 && HasFinders(rs[i], 3) {
      var i :| 0 <= i < 4 && HasFinders(rs[i], 3);
      PassingKeeps(rs, 3, i);
    }
  }

  /** `candidate_orientations_relaxed`: the rotations and both flips, each at the given tolerance. */
  function RelaxedCandidates(g: Grid, maxMismatches: nat): (r: seq<Grid>)
    requires Wf(g)
    ensures forall i :: 0 <= i < |r| ==> Wf(r[i])
  {
    Passing(Rotations(g) + [Turned(g, FlipHorizontal), Turned(g, FlipVertical)], maxMismatches)
  }

  /** Relaxing the tolerance never loses a candidate orientation. */
  lemma RelaxedMonotone(g: Grid, t1: nat, t2: nat, c: Grid)
    requires Wf(g) && t1 <= t2 && c in RelaxedCandidates(g, t1)
    ensures c in RelaxedCandidates(g, t2)
  {
    var gs := Rotations(g) + [Turned(g, FlipHorizontal), Turned(g, FlipVertical)];
    var i :| 0 <= i < |gs| && gs[i] == c;
    HasFindersMonotone(c, t1, t2);
    PassingKeeps(gs, t2, i);
  }

  /** Matrices `ms` hold the grids `gs`, one each. */
  ghost predicate Holds(ms: seq<BitMatrix>, gs: seq<Grid>)
    reads set i | 0 <= i < |ms| :: ms[i]
    reads set i | 0 <= i < |ms| :: ms[i].data
  {
    |ms| == |gs| && forall i :: 0 <= i < |ms| ==> ms[i].Valid() && ms[i].grid == gs[i]
  }

  /** Keeps, in order, the matrices of `ms` that pass the probe with `tolerance`. */
  method KeepPassing(ms: seq<BitMatrix>, ghost gs: seq<Grid>, tolerance: nat) returns (r: seq<BitMatrix>)
    requires Holds(ms, gs)
    ensures Holds(r, Passing(gs, tolerance))
  {
    r := [];
    for k := 0 to |ms|
      invariant Holds(r, Passing(gs[..k], tolerance))
    {
      assert gs[..k + 1][..k] == gs[..k];
      var ok := HasFindersWithTolerance(ms[k], tolerance);
      if ok {
        r := r + [ms[k]];
      }
    }
    assert gs[..|ms|] == gs;
  }

  /** The four matrices of `Rotations`, `r0` being a clone. */
  method RotatedMatrices(matrix: BitMatrix) returns (ms: seq<BitMatrix>)
    requires matrix.Valid()
    ensures Holds(ms, Rotations(matrix.grid))
  {
    var r0 := matrix.Clone();
    var r90 := TurnMatrix(matrix, Rotate90);
    var r180 := TurnMatrix(matrix, Rotate180);
    var r270 := TurnMatrix(matrix, Rotate270);
    ms := [r0, r90, r180, r270];
  }

  /** The four matrices of `Flips`. */
  method FlippedMatrices(matrix: BitMatrix) returns (ms: seq<BitMatrix>)
    requires matrix.Valid()
    ensures Holds(ms, Flips(matrix.grid))
  {
    var fh := TurnMatrix(matrix, FlipHorizontal);
    var fv := TurnMatrix(matrix, FlipVertical);
    var fhr := TurnMatrix(fh, Rotate90);
    var fvr := TurnMatrix(fv, Rotate90);
    ms := [fh, fv, fhr, fvr];
  }

  /** `candidate_orientations`. */
  method CandidateOrientations(matrix: BitMatrix) returns (cands: seq<BitMatrix>)
    requires matrix.Valid()
    ensures Holds(cands, Candidates(matrix.grid))
  {
    var rotated := RotatedMatrices(matrix);
    cands := KeepPassing(rotated, Rotations(matrix.grid), 3);
    if |cands| > 0 {
      return;
    }
    var flipped := FlippedMatrices(matrix);
    cands := KeepPassing(flipped, Flips(matrix.grid), 7);
  }

  /** `candidate_orientations_relaxed`. */
  method CandidateOrientationsRelaxed(matrix: BitMatrix, maxMismatches: nat) returns (cands: seq<BitMatrix>)
    requires matrix.Valid()
    ensures Holds(cands, RelaxedCandidates(matrix.grid, maxMismatches))
  {
    var rotated := RotatedMatrices(matrix);
    var fh := TurnMatrix(matrix, FlipHorizontal);
    var fv := TurnMatrix(matrix, FlipVertical);
    cands := KeepPassing(rotated + [fh, fv], Rotations(matrix.grid) + [Turned(matrix.grid, FlipHorizontal), Turned(matrix.grid, FlipVertical)], maxMismatches);
  }

  // ------------------------------------------------------------ timing, version, ratios

  /** `read_timing_pattern` (src/detector/timing.rs) is a stub that always returns None. */
  function ReadTimingPattern(g: Grid, startX: real, startY: real, endX: real, endY: real): Option<seq<bool>>
  {
    None
  }

  /** Transitions between neighbouring entries of `bits`. */
  function Transitions(bits: seq<bool>): (r: nat)
    ensures |bits| >= 1 ==> r <= |bits| - 1
  {
    if |bits| < 2 then 0
    else Transitions(bits[..|bits| - 1]) + if bits[|bits| - 1] != bits[|bits| - 2] then 1 else 0
  }

  /** `alternation_ratio`: transitions per neighbouring pair, 0 for fewer than two bits. */
  function AlternationRatio(bits: seq<bool>): (r: real)
  {
    if |bits| < 2 then 0.0 else Transitions(bits) as real / (|bits| - 1) as real
  }

  /** The ratio lies in [0, 1], and is 1 exactly for strictly alternating bits. */
  lemma AlternationBounds(bits: seq<bool>)
    ensures 0.0 <= AlternationRatio(bits) <= 1.0
    ensures |bits| < 2 ==> AlternationRatio(bits) == 0.0
  {
  }

  /** Alternating bits have a transition at every pair. */
  lemma {:induction false} AlternatingTransitions(bits: seq<bool>)
    requires forall i :: 1 <= i < |bits| ==> bits[i] != bits[i - 1]
    ensures |bits| >= 1 ==> Transitions(bits) == |bits| - 1
  {
    if |bits| >= 2 {
      AlternatingTransitions(bits[..|bits| - 1]);
    }
  }

  /** A constant run has none. */
  lemma {:induction false} ConstantTransitions(bits: seq<bool>)
    requires forall i :: 1 <= i < |bits| ==> bits[i] == bits[i - 1]
    ensures Transitions(bits) == 0
  {
    if |bits| >= 2 {
      ConstantTransitions(bits[..|bits| - 1]);
    }
  }

  /** `validate_timing_patterns`, with `read_timing_pattern` as it is. */
  function ValidateTimingPatterns(g: Grid): bool
    requires Wf(g)
  {
    var dim := g.width;
    if dim < 21 || g.height != dim then false
    else
      var horizontal := ReadTimingPattern(g, 8.0, 6.0, (dim - 9) as real, 6.0);
      var vertical := ReadTimingPattern(g, 6.0, 8.0, 6.0, (dim - 9) as real);
      match (horizontal, vertical)
      case (Some(h), Some(v)) => AlternationRatio(h) >= 0.60 && AlternationRatio(v) >= 0.60
      case _ => false
  }

  /** The timing check never passes, since the timing reader is a stub. */
  lemma TimingNeverValidates(g: Grid)
    requires Wf(g)
    ensures !ValidateTimingPatterns(g)
  {
  }

  /** What `version_matches_candidate` decides: true below 45 modules or without readable version information. */
  function VersionMatches(g: Grid, versionNum: nat): (r: bool)
    requires Wf(g)
    ensures g.width < 45 ==> r
    ensures Version.ExtractSpec(g).None? ==> r
    ensures g.width >= 45 && Version.ExtractSpec(g).Some? ==> (r <==> Version.ExtractSpec(g).value == versionNum)
  {
    if g.width < 45 then true
    else
      match Version.ExtractSpec(g)
      case Some(exact) => exact == versionNum
      case None => true
  }

  /** `version_matches_candidate`. */
  method VersionMatchesCandidate(candidate: BitMatrix, versionNum: nat) returns (r: bool)
    requires candidate.Valid()
    ensures r == VersionMatches(candidate.grid, versionNum)
  {
    if candidate.width < 45 {
      return true;
    }
    var extracted := Version.Extract(candidate);
    match extracted
    case Some(exact) =>
      r := exact == versionNum;
    case None =>
      r := true;
  }

  // ------------------------------------------------------------ content score

  predicate IsAsciiDigit(c: char) { '0' <= c <= '9' }
  predicate IsAsciiAlphanumeric(c: char) { IsAsciiDigit(c) || 'A' <= c <= 'Z' || 'a' <= c <= 'z' }
  /** `is_ascii_graphic` or a space: '!' through '~', or ' '. */
  predicate IsPrintable(c: char) { '!' <= c <= '~' || c == ' ' }
  predicate IsAscii(c: char) { c as int < 0x80 }

  /** The number of characters of `s` with property `p`. */
  function CountWhere(s: seq<char>, p: char -> bool): (r: nat)
    ensures r <= |s|
  {
    if |s| == 0 then 0 else CountWhere(s[..|s| - 1], p) + if p(s[|s| - 1]) then 1 else 0
  }

  predicate AllDigits(s: seq<char>)
  {
    forall i :: 0 <= i < |s| ==> IsAsciiDigit(s[i])
  }

  /** The tally score of a string that is not all digits. */
  function Tally(s: seq<char>): int
  {
    var digits := CountWhere(s, IsAsciiDigit);
    var alnum := CountWhere(s, IsAsciiAlphanumeric);
    var printable := CountWhere(s, IsPrintable);
    var nonAscii := CountWhere(s, c => !IsAscii(c));
    var nonPrint := |s| - printable;
    digits * 5 + alnum * 2 + printable - nonPrint * 5 - nonAscii * 10 + if digits * 2 >= |s| then 50 else 0
  }

  /** `score_content`. */
  function ScoreContent(content: seq<char>): int
  {
    if |content| == 0 then -10000
    else if AllDigits(content) then 1000 + |content| * 10
    else Tally(content)
  }

  /** The tally loop of `score_content`. */
  method ScoreContentLoop(content: seq<char>) returns (score: int)
    ensures score == ScoreContent(content)
  {
    if |content| == 0 {
      return -10000;
    }
    if forall i :: 0 <= i < |content| ==> IsAsciiDigit(content[i]) {
      return 1000 + |content| * 10;
    }
    var digits, alnum, printable, total, nonAscii := 0, 0, 0, 0, 0;
    for k := 0 to |content|
      invariant total == k
      invariant digits == CountWhere(content[..k], IsAsciiDigit)
      invariant alnum == CountWhere(content[..k], IsAsciiAlphanumeric)
      invariant printable == CountWhere(content[..k], IsPrintable)
      invariant nonAscii == CountWhere(content[..k], c => !IsAscii(c))
    {
      var ch := content[k];
      assert content[..k + 1][..k] == content[..k];
      total := total + 1;
      if IsAsciiDigit(ch) {
        digits := digits + 1;
      }
      if IsAsciiAlphanumeric(ch) {
        alnum := alnum + 1;
      }
      if IsPrintable(ch) {
        printable := printable + 1;
      }
      if !IsAscii(ch) {
        nonAscii := nonAscii + 1;
      }
    }
    assert content[..|content|] == content;
    var nonPrint := total - printable;
    score := digits * 5 + alnum * 2 + printable - nonPrint * 5 - nonAscii * 10;
    if digits * 2 >= total {
      score := score + 50;
    }
  }

  /**
   * An all-digit string scores 1000 + 10 per digit; any other non-empty
   * string scores at most 8 per character plus 50, so a digit string of
   * length m outranks every other string shorter than (950 + 10 m) / 8.
   */
  lemma ScoreBounds(s: seq<char>)
    ensures |s| == 0 ==> ScoreContent(s) == -10000
    ensures |s| > 0 && AllDigits(s) ==> ScoreContent(s) == 1000 + 10 * |s|
    ensures |s| > 0 && !AllDigits(s) ==> ScoreContent(s) <= 8 * |s| + 50
  {
  }
}
