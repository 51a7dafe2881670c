/**
 * The function-module mask (src/decoder/function_mask.rs): for a version's
 * square symbol, which modules are finder, separator, timing, alignment,
 * format, dark-module or version-information modules rather than data.
 * The mask is a `BitMatrix` whose true cells are function modules.
 */
module FunctionMask {
  import opened Wrappers
  import opened Matrix

  /** Modules per side, `17 + 4 * version`. */
  function Side(version: u8): nat
  {
    17 + 4 * version as nat
  }

  // ---------------------------------------------------------------------
  // Alignment pattern centres

  /** Number of alignment centres per axis, `version / 7 + 2`. */
  function NumAlign(version: u8): nat
  {
    version as nat / 7 + 2
  }

  /** The centre spacing as `alignment_pattern_positions` writes it: the quotient is rounded up. */
  function StepAsWritten(version: u8): nat
  {
    if version == 32 then 26
    else
      var numerator := version as nat * 4 + NumAlign(version) * 2 + 1;
      var denom := SatSub(NumAlign(version) * 2, 2);
      ((numerator + denom - 1) / denom) * 2
  }

  /** The centre spacing of Annex E of ISO/IEC 18004: the same quotient rounded down. */
  function Step(version: u8): nat
  {
    if version == 32 then 26
    else
      var numerator := version as nat * 4 + NumAlign(version) * 2 + 1;
      var denom := SatSub(NumAlign(version) * 2, 2);
      (numerator / denom) * 2
  }

  /** `pos as usize` for an `isize` value: the two's-complement reinterpretation. */
  function AsUsize(p: int): nat
  {
    if p >= 0 then p else p % 0x1_0000_0000_0000_0000
  }

  /**
   * The centres listed for a given spacing: none for version 1, otherwise 6
   * followed by the values counting down from `size - 7` in steps of `step`.
   */
  function Centres(version: u8, step: nat): seq<nat>
  {
    if version == 1 then []
    else
      var n := NumAlign(version);
      seq(n, i => if i == 0 then 6 else AsUsize(Down(Side(version), n, step, i)))
  }

  /** The value the countdown holds when it reaches entry `k` of `n`. */
  function Down(size: nat, n: nat, step: nat, k: int): int
  {
    size - 7 - (n - 1 - k) * step
  }

  /** One entry lower is one step further down. */
  lemma DownStep(size: nat, n: nat, step: nat, k: int)
    ensures Down(size, n, step, k - 1) == Down(size, n, step, k) - step
  {
    assert (n - 1 - (k - 1)) * step == (n - 1 - k) * step + step;
  }

  /** `alignment_pattern_positions` for a given spacing: fill from the last entry down. */
  method PositionsWithStep(version: u8, step: nat) returns (positions: seq<nat>)
    ensures positions == Centres(version, step)
  {
    if version == 1 {
      return [];
    }
    var n := NumAlign(version);
    var size := Side(version);
    positions := seq(n, _ => 0);
    positions := positions[0 := 6];
    var pos: int := size - 7;
    var i := n;
    while i > 1
      invariant 1 <= i <= n && |positions| == n && positions[0] == 6
      invariant pos == Down(size, n, step, i - 1)
      invariant forall k :: i <= k < n ==> positions[k] == AsUsize(Down(size, n, step, k))
    {
      i := i - 1;
      positions := positions[i := AsUsize(pos)];
      DownStep(size, n, step, i);
      pos := pos - step;
    }
  }

  /** `alignment_pattern_positions`: the centres for the rounded-up spacing. */
  method AlignmentPatternPositions(version: u8) returns (positions: seq<nat>)
    ensures positions == Centres(version, StepAsWritten(version))
  {
    positions := PositionsWithStep(version, StepAsWritten(version));
  }

  /**
   * The shape of the list for any spacing: empty for version 1; otherwise
   * `version / 7 + 2` entries, the first 6, the last `size - 7`, and
   * consecutive entries `step` apart wherever no entry went negative.
   */
  lemma CentresShape(version: u8, step: nat)
    ensures version == 1 ==> Centres(version, step) == []
    ensures version != 1 ==>
      var c := Centres(version, step);
      |c| == version as nat / 7 + 2 && c[0] == 6 && c[|c| - 1] == Side(version) - 7
      && forall i :: 1 <= i < |c| - 1 && Side(version) - 7 - (|c| - 1 - i) * step >= 0 ==> c[i + 1] == c[i] + step
  {
    if version != 1 {
      var c := Centres(version, step);
      var n := NumAlign(version);
      var size := Side(version);
      forall i | 1 <= i < n - 1 && size - 7 - (n - 1 - i) * step >= 0
        ensures c[i + 1] == c[i] + step
      {
        DownStep(size, n, step, i + 1);
      }
    }
  }

  /** Version 32 is special-cased to a spacing of 26 in both formulas. */
  lemma Version32Step()
    ensures Step(32) == 26 && StepAsWritten(32) == 26
  {
  }

  /** The alignment-centre table of Annex E of ISO/IEC 18004: the row of each version 2..40. */
  function AnnexE(version: nat): seq<nat>
  {
    match version
    case 2 => [6, 18]
    case 3 => [6, 22]
    case 4 => [6, 26]
    case 5 => [6, 30]
    case 6 => [6, 34]
    case 7 => [6, 22, 38]
    case 8 => [6, 24, 42]
    case 9 => [6, 26, 46]
    case 10 => [6, 28, 50]
    case 11 => [6, 30, 54]
    case 12 => [6, 32, 58]
    case 13 => [6, 34, 62]
    case 14 => [6, 26, 46, 66]
    case 15 => [6, 26, 48, 70]
    case 16 => [6, 26, 50, 74]
    case 17 => [6, 30, 54, 78]
    case 18 => [6, 30, 56, 82]
    case 19 => [6, 30, 58, 86]
    case 20 => [6, 34, 62, 90]
    case 21 => [6, 28, 50, 72, 94]
    case 22 => [6, 26, 50, 74, 98]
    case 23 => [6, 30, 54, 78, 102]
    case 24 => [6, 28, 54, 80, 106]
    case 25 => [6, 32, 58, 84, 110]
    case 26 => [6, 30, 58, 86, 114]
    case 27 => [6, 34, 62, 90, 118]
    case 28 => [6, 26, 50, 74, 98, 122]
    case 29 => [6, 30, 54, 78, 102, 126]
    case 30 => [6, 26, 52, 78, 104, 130]
    case 31 => [6, 30, 56, 82, 108, 134]
    case 32 => [6, 34, 60, 86, 112, 138]
    case 33 => [6, 30, 58, 86, 114, 142]
    case 34 => [6, 34, 62, 90, 118, 146]
    case 35 => [6, 30, 54, 78, 102, 126, 150]
    case 36 => [6, 24, 50, 76, 102, 128, 154]
    case 37 => [6, 28, 54, 80, 106, 132, 158]
    case 38 => [6, 32, 58, 84, 110, 136, 162]
    case 39 => [6, 26, 54, 82, 110, 138, 166]
    case 40 => [6, 30, 58, 86, 114, 142, 170]
    case _ => []
  }

  /** The as-written spacing places version 7's middle centre at 20, where Annex E has 22. */
  lemma CentresAsWrittenVersion7()
    ensures Centres(7, StepAsWritten(7)) == [6, 20, 38]
    ensures Centres(7, StepAsWritten(7)) != AnnexE(7)
  {
    assert StepAsWritten(7) == 18;
    assert Down(45, 3, 18, 1) == 20;
    assert Centres(7, 18)[1] == 20;
  }

  /** Entries from `i` on are `step` apart. */
  predicate Spaced(row: seq<nat>, i: nat, step: nat)
    decreases |row| - i
  {
    i + 1 < |row| ==> row[i + 1] == row[i] + step && Spaced(row, i + 1, step)
  }

  /** Entries `step` apart count down from the last one. */
  lemma {:induction false} SpacedMeans(row: seq<nat>, i: nat, step: nat)
    requires i < |row| && Spaced(row, i, step)
    ensures forall k :: i <= k < |row| ==> row[k] == row[|row| - 1] - (|row| - 1 - k) * step
    decreases |row| - i
  {
    if i + 1 < |row| {
      SpacedMeans(row, i + 1, step);
      assert (|row| - 1 - i) * step == (|row| - 1 - (i + 1)) * step + step;
    }
  }

  /** A row equals the centres for spacing `step` once its length, its ends and its spacing agree. */
  lemma CentresEqual(version: u8, step: nat, row: seq<nat>)
    requires version != 1 && |row| == NumAlign(version) && row[0] == 6
    requires row[|row| - 1] == Side(version) - 7 && Spaced(row, 1, step)
    ensures Centres(version, step) == row
  {
    var c := Centres(version, step);
    var n, size := NumAlign(version), Side(version);
    SpacedMeans(row, 1, step);
    forall i | 1 <= i < n
      ensures c[i] == row[i]
    {
      assert row[i] == row[n - 1] - (n - 1 - i) * step;
      assert Down(size, n, step, i) == row[i];
    }
  }

  /** `row` has the length, ends and spacing `Centres` gives `version`. */
  predicate RowFits(version: u8, row: seq<nat>)
  {
    version != 1 && |row| == NumAlign(version) && row[0] == 6 && row[|row| - 1] == Side(version) - 7
    && Spaced(row, 1, Step(version))
  }

  /** Every row of the table from `lo` to `hi` has the shape `Centres` produces. */
  predicate TableFits(lo: nat, hi: nat)
    requires hi <= 40
    decreases hi - lo
  {
    lo > hi || (RowFits(lo as u8, AnnexE(lo)) && TableFits(lo + 1, hi))
  }

  lemma {:induction false} TableFitsAt(lo: nat, hi: nat, version: u8)
    requires hi <= 40 && lo <= version as nat <= hi && TableFits(lo, hi)
    ensures RowFits(version, AnnexE(version as nat))
    decreases hi - lo
  {
    if lo < version as nat {
      TableFitsAt(lo + 1, hi, version);
    }
  }

  lemma TableRows2To4() ensures TableFits(2, 4) {}
  lemma TableRows5To8() ensures TableFits(5, 8) {}
  lemma TableRows9To14() ensures TableFits(9, 14) {}
  lemma TableRows15To19() ensures TableFits(15, 19) {}
  lemma TableRows20To24() ensures TableFits(20, 24) {}
  lemma TableRows25To28() ensures TableFits(25, 28) {}
  lemma TableRows29To32() ensures TableFits(29, 32) {}
  lemma TableRows33To36() ensures TableFits(33, 36) {}
  lemma TableRows37To38() ensures TableFits(37, 38) {}
  lemma TableRows39To40() ensures TableFits(39, 40) {}

  /** Rows 2..19 of the table have the shape `Centres` produces. */
  lemma AnnexELowRowsFit(version: u8)
    requires 2 <= version <= 19
    ensures RowFits(version, AnnexE(version as nat))
  {
    if version <= 4 {
      TableRows2To4();
      TableFitsAt(2, 4, version);
    } else if version <= 8 {
      TableRows5To8();
      TableFitsAt(5, 8, version);
    } else if version <= 14 {
      TableRows9To14();
      TableFitsAt(9, 14, version);
    } else {
      TableRows15To19();
      TableFitsAt(15, 19, version);
    }
  }

  /** Rows 20..40 of the table have the shape `Centres` produces. */
  lemma AnnexEHighRowsFit(version: u8)
    requires 20 <= version <= 40
    ensures RowFits(version, AnnexE(version as nat))
  {
    if version <= 24 {
      TableRows20To24();
      TableFitsAt(20, 24, version);
    } else if version <= 28 {
      TableRows25To28();
      TableFitsAt(25, 28, version);
    } else if version <= 32 {
      TableRows29To32();
      TableFitsAt(29, 32, version);
    } else if version <= 36 {
      TableRows33To36();
      TableFitsAt(33, 36, version);
    } else if version <= 38 {
      TableRows37To38();
      TableFitsAt(37, 38, version);
    } else {
      TableRows39To40();
      TableFitsAt(39, 40, version);
    }
  }

  /** With the rounded-down spacing the centres are exactly those of Annex E, for every version. */
  lemma CentresMatchAnnexE(version: u8)
    requires 1 <= version <= 40
    ensures Centres(version, Step(version)) == AnnexE(version as nat)
  {
    if version != 1 {
      if version <= 19 {
        AnnexELowRowsFit(version);
      } else {
        AnnexEHighRowsFit(version);
      }
      CentresEqual(version, Step(version), AnnexE(version as nat));
    }
  }

  // ---------------------------------------------------------------------
  // The marked regions

  predicate InRect(x: int, y: int, x0: int, y0: int, x1: int, y1: int)
  {
    x0 <= x < x1 && y0 <= y < y1
  }

  /** `mark_finder_area(fx, fy)`: the 7x7 finder plus a one-module border, clipped to the matrix. */
  predicate FinderArea(size: nat, fx: nat, fy: nat, x: int, y: int)
  {
    InRect(x, y, SatSub(fx, 1), SatSub(fy, 1), Min(fx + 8, size), Min(fy + 8, size))
  }

  /** The three finder areas: top-left, top-right and bottom-left. */
  predicate Finders(size: nat, x: int, y: int)
    requires size >= 7
  {
    FinderArea(size, 0, 0, x, y) || FinderArea(size, size - 7, 0, x, y) || FinderArea(size, 0, size - 7, x, y)
  }

  /** Row 6 and column 6. */
  predicate Timing(x: int, y: int)
  {
    x == 6 || y == 6
  }

  /** An alignment centre too close to a finder corner, which gets no pattern. */
  predicate AlignCorner(size: nat, cx: nat, cy: nat)
  {
    (cx <= 8 && cy <= 8) || (cx + 9 >= size && cy <= 8) || (cx <= 8 && cy + 9 >= size)
  }

  /** The 5x5 block around (cx, cy), unless that centre is a finder corner. */
  predicate AlignBlock(size: nat, cx: nat, cy: nat, x: int, y: int)
  {
    !AlignCorner(size, cx, cy)
    && InRect(x, y, SatSub(cx, 2), SatSub(cy, 2), SatSub(cx, 2) + 5, SatSub(cy, 2) + 5)
  }

  /** Some block for a centre pair (a[i], a[j]) that precedes (ni, nj) in row-major order covers (x, y). */
  predicate AlignedBefore(size: nat, a: seq<nat>, ni: nat, nj: nat, x: int, y: int)
  {
    exists i, j :: 0 <= i < |a| && 0 <= j < |a| && (i < ni || (i == ni && j < nj)) && AlignBlock(size, a[i], a[j], x, y)
  }

  /** Some alignment block for the centres `a` covers (x, y). */
  predicate Aligned(size: nat, a: seq<nat>, x: int, y: int)
  {
    AlignedBefore(size, a, |a|, 0, x, y)
  }

  /** The format strips beside the top-left finder, under the top-right one and beside the bottom-left one. */
  predicate FormatArea(size: nat, x: int, y: int)
  {
    (x == 8 && 0 <= y < 9 && y != 6) || (y == 8 && 0 <= x < 9 && x != 6)
    || (y == 8 && size - 8 <= x < size) || (x == 8 && size - 8 <= y < size)
  }

  /** The dark module at (8, size - 8). */
  predicate DarkModule(size: nat, x: int, y: int)
  {
    x == 8 && y == size - 8
  }

  /**
   * The two version-information blocks of version 7 and above: 3 columns by
   * 6 rows left of the top-right finder, 6 columns by 3 rows above the
   * bottom-left finder (the cells src/decoder/version.rs reads).
   */
  predicate VersionArea(version: u8, size: nat, x: int, y: int)
  {
    version >= 7 && (InRect(x, y, size - 11, 0, size - 8, 6) || InRect(x, y, 0, size - 11, 6, size - 8))
  }

  /** The version blocks as `new` marks them: the bottom-left one 3 columns wide and 6 rows tall. */
  predicate VersionAreaAsWritten(version: u8, size: nat, x: int, y: int)
  {
    version >= 7 && (InRect(x, y, size - 11, 0, size - 8, 6) || InRect(x, y, 0, size - 11, 3, size - 5))
  }

  /**
   * Whether (x, y) is a function module of the mask `new` builds: the
   * alignment spacing rounded up and the bottom-left version block
   * transposed, as written.
   */
  predicate FunctionModule(version: u8, x: int, y: int)
  {
    var size := Side(version);
    0 <= x < size && 0 <= y < size
    && (Finders(size, x, y) || Timing(x, y) || Aligned(size, Centres(version, StepAsWritten(version)), x, y)
        || FormatArea(size, x, y) || DarkModule(size, x, y) || VersionAreaAsWritten(version, size, x, y))
  }

  /** The function modules of ISO/IEC 18004: Annex E spacing and both version blocks as src/decoder/version.rs reads them. */
  predicate FunctionModuleAnnexE(version: u8, x: int, y: int)
  {
    var size := Side(version);
    0 <= x < size && 0 <= y < size
    && (Finders(size, x, y) || Timing(x, y) || Aligned(size, Centres(version, Step(version)), x, y)
        || FormatArea(size, x, y) || DarkModule(size, x, y) || VersionArea(version, size, x, y))
  }

  /** The mask as a grid. */
  function FunctionGrid(version: u8): (g: Grid)
    ensures Wf(g) && g.width == Side(version) && g.height == Side(version)
    ensures forall x, y {:trigger FunctionModule(version, x, y)} :: Cell(g, x, y) == FunctionModule(version, x, y)
  {
    var size := Side(version);
    Grid(size, size, seq(size, y => seq(size, x => FunctionModule(version, x, y))))
  }

  // ---------------------------------------------------------------------
  // Building the mask

  /** Sets every cell of [x0, x1) x [y0, y1) that lies inside the matrix. */
  method MarkRect(m: BitMatrix, x0: nat, y0: nat, x1: nat, y1: nat)
    requires m.Valid()
    modifies m, m.data
    ensures m.Valid()
    ensures forall a, b :: Cell(m.grid, a, b) == (Cell(old(m.grid), a, b) || (InBounds(m.grid, a, b) && InRect(a, b, x0, y0, x1, y1)))
  {
    ghost var g0 := m.grid;
    var yy := y0;
    while yy < y1
      invariant m.Valid() && (yy == y0 || y0 <= yy <= y1)
      invariant forall a, b :: Cell(m.grid, a, b) == (Cell(g0, a, b) || (InBounds(m.grid, a, b) && InRect(a, b, x0, y0, x1, yy)))
    {
      var xx := x0;
      while xx < x1
        invariant m.Valid() && (xx == x0 || x0 <= xx <= x1)
        invariant forall a, b :: Cell(m.grid, a, b) == (Cell(g0, a, b) || (InBounds(m.grid, a, b) && (InRect(a, b, x0, y0, x1, yy) || (b == yy && x0 <= a < xx))))
      {
        m.Set(xx, yy, true);
        xx := xx + 1;
      }
      yy := yy + 1;
    }
  }

  /** `mark_finder_area`. */
  method MarkFinderArea(m: BitMatrix, x: nat, y: nat)
    requires m.Valid()
    modifies m, m.data
    ensures m.Valid()
    ensures forall a, b :: Cell(m.grid, a, b) == (Cell(old(m.grid), a, b) || (InBounds(m.grid, a, b) && FinderArea(m.width, x, y, a, b)))
  {
    var size := m.width;
    MarkRect(m, SatSub(x, 1), SatSub(y, 1), Min(x + 8, size), Min(y + 8, size));
  }

  /** The finder step of `new`: the three finder areas on a blank matrix. */
  method MarkFinders(m: BitMatrix)
    requires m.Valid() && m.width == m.height && m.width >= 7 && m.grid == Blank(m.width, m.height)
    modifies m, m.data
    ensures m.Valid()
    ensures forall a, b :: Cell(m.grid, a, b) == (InBounds(m.grid, a, b) && Finders(m.width, a, b))
  {
    var size := m.width;
    MarkFinderArea(m, 0, 0);
    MarkFinderArea(m, size - 7, 0);
    MarkFinderArea(m, 0, size - 7);
  }

  /** The timing step of `new`: row 6 and column 6. */
  method MarkTiming(m: BitMatrix)
    requires m.Valid() && m.width == m.height
    modifies m, m.data
    ensures m.Valid()
    ensures forall a, b :: Cell(m.grid, a, b) == (Cell(old(m.grid), a, b) || (InBounds(m.grid, a, b) && Timing(a, b)))
  {
    ghost var g0 := m.grid;
    var i := 0;
    while i < m.width
      invariant m.Valid() && i <= m.width
      invariant forall a, b :: Cell(m.grid, a, b) == (Cell(g0, a, b) || (InBounds(m.grid, a, b) && ((a == 6 && b < i) || (b == 6 && a < i))))
    {
      m.Set(6, i, true);
      m.Set(i, 6, true);
      i := i + 1;
    }
  }

  /** Moving from centre pair (ni, nj) to (ni, nj + 1) adds that pair's block. */
  lemma AlignedStep(size: nat, a: seq<nat>, ni: nat, nj: nat, x: int, y: int)
    requires ni < |a| && nj < |a|
    ensures AlignedBefore(size, a, ni, nj + 1, x, y) == (AlignedBefore(size, a, ni, nj, x, y) || AlignBlock(size, a[ni], a[nj], x, y))
  {
    if AlignedBefore(size, a, ni, nj + 1, x, y) && !AlignBlock(size, a[ni], a[nj], x, y) {
      var i, j :| 0 <= i < |a| && 0 <= j < |a| && (i < ni || (i == ni && j < nj + 1)) && AlignBlock(size, a[i], a[j], x, y);
      assert i < ni || (i == ni && j < nj);
    }
  }

  /** The end of one row of centre pairs is the start of the next. */
  lemma AlignedRow(size: nat, a: seq<nat>, ni: nat, x: int, y: int)
    ensures AlignedBefore(size, a, ni, |a|, x, y) == AlignedBefore(size, a, ni + 1, 0, x, y)
  {
  }

  /** The alignment step of `new`: a 5x5 block for every centre pair away from the finder corners. */
  method MarkAlignment(m: BitMatrix, a: seq<nat>)
    requires m.Valid()
    modifies m, m.data
    ensures m.Valid()
    ensures forall x, y :: Cell(m.grid, x, y) == (Cell(old(m.grid), x, y) || (InBounds(m.grid, x, y) && Aligned(m.width, a, x, y)))
  {
    ghost var g0 := m.grid;
    var size := m.width;
    var ci := 0;
    while ci < |a|
      invariant m.Valid() && ci <= |a|
      invariant forall x, y :: Cell(m.grid, x, y) == (Cell(g0, x, y) || (InBounds(m.grid, x, y) && AlignedBefore(size, a, ci, 0, x, y)))
    {
      var cj := 0;
      while cj < |a|
        invariant m.Valid() && cj <= |a|
        invariant forall x, y :: Cell(m.grid, x, y) == (Cell(g0, x, y) || (InBounds(m.grid, x, y) && AlignedBefore(size, a, ci, cj, x, y)))
      {
        var cx, cy := a[ci], a[cj];
        var inTl := cx <= 8 && cy <= 8;
        var inTr := cx + 9 >= size && cy <= 8;
        var inBl := cx <= 8 && cy + 9 >= size;
        if !(inTl || inTr || inBl) {
          MarkRect(m, SatSub(cx, 2), SatSub(cy, 2), SatSub(cx, 2) + 5, SatSub(cy, 2) + 5);
        }
        forall x, y
          ensures AlignedBefore(size, a, ci, cj + 1, x, y) == (AlignedBefore(size, a, ci, cj, x, y) || AlignBlock(size, cx, cy, x, y))
        {
          AlignedStep(size, a, ci, cj, x, y);
        }
        cj := cj + 1;
      }
      forall x, y
        ensures AlignedBefore(size, a, ci, |a|, x, y) == AlignedBefore(size, a, ci + 1, 0, x, y)
      {
        AlignedRow(size, a, ci, x, y);
      }
      ci := ci + 1;
    }
  }

  /** The format step of `new`. */
  method MarkFormat(m: BitMatrix)
    requires m.Valid() && m.width >= 8
    modifies m, m.data
    ensures m.Valid()
    ensures forall a, b :: Cell(m.grid, a, b) == (Cell(old(m.grid), a, b) || (InBounds(m.grid, a, b) && FormatArea(m.width, a, b)))
  {
    ghost var g0 := m.grid;
    var size := m.width;
    var i := 0;
    while i < 9
      invariant m.Valid() && i <= 9
      invariant forall a, b :: Cell(m.grid, a, b) == (Cell(g0, a, b) || (InBounds(m.grid, a, b) && ((a == 8 && 0 <= b < i && b != 6) || (b == 8 && 0 <= a < i && a != 6))))
    {
      if i != 6 {
        m.Set(8, i, true);
        m.Set(i, 8, true);
      }
      i := i + 1;
    }
    ghost var g1 := m.grid;
    i := 0;
    while i < 8
      invariant m.Valid() && i <= 8
      invariant forall a, b :: Cell(m.grid, a, b) == (Cell(g1, a, b) || (InBounds(m.grid, a, b) && ((b == 8 && size - i <= a < size) || (a == 8 && size - i <= b < size))))
    {
      m.Set(size - 1 - i, 8, true);
      m.Set(8, size - 1 - i, true);
      i := i + 1;
    }
  }

  /** The version step of `new`, for version 7 and above: (dx, size - 11 + dy) for the bottom-left block, as written. */
  method MarkVersion(m: BitMatrix, version: u8)
    requires m.Valid() && m.width >= 11
    modifies m, m.data
    ensures m.Valid()
    ensures forall a, b :: Cell(m.grid, a, b) == (Cell(old(m.grid), a, b) || (InBounds(m.grid, a, b) && VersionAreaAsWritten(version, m.width, a, b)))
  {
    if version >= 7 {
      ghost var g0 := m.grid;
      var size := m.width;
      var dy := 0;
      while dy < 6
        invariant m.Valid() && dy <= 6
        invariant forall a, b :: Cell(m.grid, a, b) == (Cell(g0, a, b) || (InBounds(m.grid, a, b) && (InRect(a, b, size - 11, 0, size - 8, dy) || InRect(a, b, 0, size - 11, 3, size - 11 + dy))))
      {
        var dx := 0;
        while dx < 3
          invariant m.Valid() && dx <= 3
          invariant forall a, b :: Cell(m.grid, a, b) == (Cell(g0, a, b) || (InBounds(m.grid, a, b) && (InRect(a, b, size - 11, 0, size - 8, dy) || InRect(a, b, 0, size - 11, 3, size - 11 + dy) || (b == dy && size - 11 <= a < size - 11 + dx) || (b == size - 11 + dy && 0 <= a < dx))))
        {
          m.Set(size - 11 + dx, dy, true);
          m.Set(dx, size - 11 + dy, true);
          dx := dx + 1;
        }
        dy := dy + 1;
      }
    }
  }

  /** The structural patterns: finders, timing lines and alignment blocks, on a blank matrix. */
  method MarkStructure(m: BitMatrix, version: u8)
    requires m.Valid() && m.width == Side(version) && m.height == Side(version)
    requires m.grid == Blank(m.width, m.height)
    modifies m, m.data
    ensures m.Valid()
    ensures forall x, y ::
              Cell(m.grid, x, y) == (InBounds(m.grid, x, y)
                && (Finders(m.width, x, y) || Timing(x, y) || Aligned(m.width, Centres(version, StepAsWritten(version)), x, y)))
  {
    MarkFinders(m);
    MarkTiming(m);
    var align := AlignmentPatternPositions(version);
    MarkAlignment(m, align);
  }

  /** The information areas: format strips, the dark module and the version blocks. */
  method MarkInformation(m: BitMatrix, version: u8)
    requires m.Valid() && m.width == Side(version)
    modifies m, m.data
    ensures m.Valid()
    ensures forall x, y ::
              Cell(m.grid, x, y) == (Cell(old(m.grid), x, y) || (InBounds(m.grid, x, y)
                && (FormatArea(m.width, x, y) || DarkModule(m.width, x, y) || VersionAreaAsWritten(version, m.width, x, y))))
  {
    var size := m.width;
    MarkFormat(m);
    m.Set(8, size - 8, true);
    MarkVersion(m, version);
  }

  /** The steps of `FunctionMask::new`, in order, on a fresh blank matrix. */
  method Build(version: u8) returns (m: BitMatrix)
    ensures fresh(m) && fresh(m.data)
    ensures m.Valid() && m.width == Side(version) && m.height == Side(version)
    ensures m.grid == FunctionGrid(version)
  {
    var size := Side(version);
    m := new BitMatrix(size, size);
    MarkStructure(m, version);
    MarkInformation(m, version);
    forall x, y | 0 <= x < size && 0 <= y < size
      ensures Cell(m.grid, x, y) == Cell(FunctionGrid(version), x, y)
    {
    }
    GridExt(m.grid, FunctionGrid(version));
  }

  // ---------------------------------------------------------------------
  // Counting data modules

  /** Data modules among the first `n` cells of row `y`. */
  function RowData(version: u8, y: nat, n: nat): nat
  {
    if n == 0 then 0 else RowData(version, y, n - 1) + (if FunctionModule(version, n - 1, y) then 0 else 1)
  }

  /** Data modules in the first `h` rows, `w` cells each. */
  function RowsData(version: u8, h: nat, w: nat): nat
  {
    if h == 0 then 0 else RowsData(version, h - 1, w) + RowData(version, h - 1, w)
  }

  /** Data modules among the first `n` cells of column `x`. */
  function ColData(version: u8, x: nat, n: nat): nat
  {
    if n == 0 then 0 else ColData(version, x, n - 1) + (if FunctionModule(version, x, n - 1) then 0 else 1)
  }

  /** Data modules in the first `w` columns, `h` cells each. */
  function ColsData(version: u8, w: nat, h: nat): nat
  {
    if w == 0 then 0 else ColsData(version, w - 1, h) + ColData(version, w - 1, h)
  }

  /** The number of data modules of the symbol. */
  function DataCount(version: u8): nat
  {
    RowsData(version, Side(version), Side(version))
  }

  /** Widening the rows by one cell adds that column's count. */
  lemma {:induction false} RowsWiden(version: u8, h: nat, w: nat)
    ensures RowsData(version, h, w + 1) == RowsData(version, h, w) + ColData(version, w, h)
  {
    if h > 0 {
      RowsWiden(version, h - 1, w);
    }
  }

  /** Counting by rows and counting by columns agree. */
  lemma {:induction false} RowsEqualsCols(version: u8, h: nat, w: nat)
    ensures RowsData(version, h, w) == ColsData(version, w, h)
  {
    if w == 0 {
      RowsZero(version, h);
    } else {
      RowsEqualsCols(version, h, w - 1);
      RowsWiden(version, h, w - 1);
    }
  }

  lemma {:induction false} RowsZero(version: u8, h: nat)
    ensures RowsData(version, h, 0) == 0
  {
    if h > 0 {
      RowsZero(version, h - 1);
    }
  }

  /** Column 6 holds no data module. */
  lemma {:induction false} TimingColumnEmpty(version: u8, n: nat)
    requires n <= Side(version)
    ensures ColData(version, 6, n) == 0
  {
    if n > 0 {
      TimingColumnEmpty(version, n - 1);
    }
  }

  /** A run of cells of row `y` that are all function modules, or all data, adds its length or nothing. */
  lemma {:induction false} RowRun(version: u8, y: nat, lo: nat, hi: nat, function_: bool)
    requires lo <= hi
    requires forall x :: lo <= x < hi ==> FunctionModule(version, x, y) == function_
    ensures RowData(version, y, hi) == RowData(version, y, lo) + (if function_ then 0 else hi - lo)
    decreases hi - lo
  {
    if lo < hi {
      RowRun(version, y, lo, hi - 1, function_);
    }
  }

  /** Data modules per row of version 1. */
  lemma RowDataVersion1(y: nat)
    requires y < 21
    ensures RowData(1, y, 21) == if y == 6 then 0 else if y <= 8 then 4 else if y <= 12 then 20 else 12
  {
    assert Centres(1, StepAsWritten(1)) == [];
    if y == 6 {
      RowRun(1, y, 0, 21, true);
    } else if y <= 8 {
      RowRun(1, y, 0, 9, true);
      RowRun(1, y, 9, 13, false);
      RowRun(1, y, 13, 21, true);
    } else if y <= 12 {
      RowRun(1, y, 0, 6, false);
      RowRun(1, y, 6, 7, true);
      RowRun(1, y, 7, 21, false);
    } else {
      RowRun(1, y, 0, 9, true);
      RowRun(1, y, 9, 21, false);
    }
  }

  /** The first nine rows of version 1 hold 32 data modules. */
  lemma TopRowsVersion1()
    ensures RowsData(1, 9, 21) == 32
  {
    forall y | y < 9
      ensures RowData(1, y, 21) == if y == 6 then 0 else 4
    {
      RowDataVersion1(y);
    }
    assert RowsData(1, 6, 21) == 24;
  }

  /** Version 1 has 208 data modules. */
  lemma DataCountVersion1()
    ensures DataCount(1) == 208
  {
    TopRowsVersion1();
    forall y | 9 <= y < 21
      ensures RowData(1, y, 21) == if y <= 12 then 20 else 12
    {
      RowDataVersion1(y);
    }
    assert RowsData(1, 13, 21) == 112;
  }

  /**
   * With both version blocks as the standard places them, every cell
   * src/decoder/version.rs reads as version information (bit k of the
   * top-right block at (size - 11 + k % 3, k / 3), of the bottom-left block
   * at (k / 3, size - 11 + k % 3)) is a function module from version 7 on.
   */
  lemma VersionCellsAreFunction(version: u8, k: nat)
    requires version >= 7 && k < 18
    ensures FunctionModuleAnnexE(version, Side(version) - 11 + k % 3, k / 3)
    ensures FunctionModuleAnnexE(version, k / 3, Side(version) - 11 + k % 3)
  {
  }

  /**
   * The mask `new` builds covers the whole top-right block and the first
   * nine bits of the bottom-left one (those in its first three columns).
   */
  lemma VersionCellsAsWritten(version: u8, k: nat)
    requires version >= 7 && k < 18
    ensures FunctionModule(version, Side(version) - 11 + k % 3, k / 3)
    ensures k < 9 ==> FunctionModule(version, k / 3, Side(version) - 11 + k % 3)
  {
  }

  /**
   * As written, `new` leaves bottom-left version bit 9, at (3, 34) of a
   * version 7 symbol, unmarked, so the data reader takes it for a data module.
   */
  lemma VersionCellMissedAsWritten()
    ensures 9 / 3 == 3 && Side(7) - 11 + 9 % 3 == 34
    ensures FunctionModuleAnnexE(7, 3, 34)
    ensures !FunctionModule(7, 3, 34)
  {
    var a := Centres(7, StepAsWritten(7));
    CentresAsWrittenVersion7();
    forall i, j | 0 <= i < |a| && 0 <= j < |a|
      ensures !AlignBlock(45, a[i], a[j], 3, 34)
    {
      assert a[i] >= 6;
    }
  }

  // ---------------------------------------------------------------------
  // The mask object

  class FunctionMask {
    const mask: BitMatrix
    const version: u8

    ghost predicate Valid()
      reads this, mask, mask.data
    {
      mask.Valid() && mask.width == Side(version) && mask.height == Side(version)
      && mask.grid == FunctionGrid(version)
    }

    /** `FunctionMask::new`: exactly the function modules of `version` are set. */
    constructor (version: u8)
      ensures Valid() && this.version == version
      ensures fresh(mask) && fresh(mask.data)
    {
      var m := Build(version);
      mask := m;
      this.version := version;
    }

    /** `size`: the side of the mask. */
    function Size(): (r: nat)
      reads this, mask, mask.data
      requires Valid()
      ensures r == Side(version)
    {
      mask.width
    }

    /** `is_function`: false outside the symbol. */
    method IsFunction(x: nat, y: nat) returns (r: bool)
      requires Valid()
      ensures r == Cell(mask.grid, x, y) == FunctionModule(version, x, y)
    {
      r := mask.Get(x, y);
    }

    /** `data_modules_count`: the row-by-row count of cells that are not function modules. */
    method DataModulesCount() returns (count: nat)
      requires Valid()
      ensures count == DataCount(version)
    {
      count := 0;
      var size := mask.width;
      var y := 0;
      while y < size
        invariant y <= size && count == RowsData(version, y, size)
      {
        var x := 0;
        while x < size
          invariant x <= size && count == RowsData(version, y, size) + RowData(version, y, x)
        {
          var b := mask.Get(x, y);
          if !b {
            count := count + 1;
          }
          x := x + 1;
        }
        y := y + 1;
      }
    }
  }
}
