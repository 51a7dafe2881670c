/**
 * Decoding a sampled module matrix (src/decoder/qr_decoder/matrix_decode.rs):
 * choose the candidate orientations, try the limited EC level / mask /
 * traversal fallback on each, and, when module confidences are supplied,
 * retry with the least confident modules flipped.
 *
 * `try_decode_single` is a parameter (`decodeSingle`): the model states in
 * which order, and with which arguments, it is called, and that the first
 * success is returned.
 */
module MatrixDecode {
  import opened Wrappers
  import opened Matrix
  import opened QrCode
  import Format
  import FunctionMask
  import Orientation

  // ------------------------------------------------------------ settings

  /**
   * The environment overrides, already parsed: `None` when the variable is
   * unset or is not a number (`QR_RELAXED_FINDER_MISMATCH`, `QR_BEAM_TOP_N`,
   * `QR_BEAM_MAX_ATTEMPTS`, `QR_BEAM_MAX_DEPTH`, `QR_BEAM_CONF_THRESHOLD`).
   */
  datatype Settings = Settings(
    relaxedMismatch: Option<nat>,
    beamTopN: Option<nat>,
    beamMaxAttempts: Option<nat>,
    beamMaxDepth: Option<nat>,
    beamConfThreshold: Option<u8>)

  /** `unwrap_or(fallback).clamp(lo, hi)`. */
  function Clamped(v: Option<nat>, fallback: nat, lo: nat, hi: nat): (r: nat)
    requires lo <= fallback <= hi
    ensures lo <= r <= hi
    ensures v.None? ==> r == fallback
    ensures v.Some? && lo <= v.value <= hi ==> r == v.value
    ensures v.Some? && v.value < lo ==> r == lo
    ensures v.Some? && v.value > hi ==> r == hi
  {
    var x := if v.Some? then v.value else fallback;
    if x < lo then lo else if x > hi then hi else x
  }

  /** The finder tolerance of the relaxed orientations: 10 by default, kept within 4..16. */
  function RelaxedTolerance(s: Settings): nat { Clamped(s.relaxedMismatch, 10, 4, 16) }

  /** How many uncertain modules are kept: 6 by default, within 2..12. */
  function TopN(s: Settings): nat { Clamped(s.beamTopN, 6, 2, 12) }

  /** The most `decode_with_flips` calls: 12 by default, within 1..64. */
  function MaxAttempts(s: Settings): nat { Clamped(s.beamMaxAttempts, 12, 1, 64) }

  /** The largest number of modules flipped together: 2 by default, within 1..3. */
  function MaxDepth(s: Settings): nat { Clamped(s.beamMaxDepth, 2, 1, 3) }

  /** Modules with confidence at most this are uncertain: 36 by default, not clamped. */
  function ConfThreshold(s: Settings): u8
  {
    if s.beamConfThreshold.Some? then s.beamConfThreshold.value else 36
  }

  // ------------------------------------------------------------ first success

  /** The result of the first element of `xs` for which `f` succeeds. */
  function FirstSome<X, R>(xs: seq<X>, f: X -> Option<R>): Option<R>
  {
    if |xs| == 0 then None
    else if f(xs[0]).Some? then f(xs[0])
    else FirstSome(xs[1..], f)
  }

  lemma {:induction false} FirstSomeAppend<X, R>(xs: seq<X>, ys: seq<X>, f: X -> Option<R>)
    ensures FirstSome(xs + ys, f) == if FirstSome(xs, f).Some? then FirstSome(xs, f) else FirstSome(ys, f)
  {
    if |xs| == 0 {
      assert xs + ys == ys;
    } else {
      assert (xs + ys)[0] == xs[0];
      assert (xs + ys)[1..] == xs[1..] + ys;
      FirstSomeAppend(xs[1..], ys, f);
    }
  }

  /**
   * A success is the result of some element all of whose predecessors
   * failed; a failure means every element failed.
   */
  lemma {:induction false} FirstSomeMeaning<X, R>(xs: seq<X>, f: X -> Option<R>)
    ensures FirstSome(xs, f).None? <==> forall i :: 0 <= i < |xs| ==> f(xs[i]).None?
    ensures FirstSome(xs, f).Some? ==>
      exists i :: 0 <= i < |xs| && f(xs[i]) == FirstSome(xs, f) && forall j :: 0 <= j < i ==> f(xs[j]).None?
  {
    if |xs| > 0 && f(xs[0]).None? {
      FirstSomeMeaning(xs[1..], f);
      assert forall i :: 1 <= i < |xs| ==> xs[i] == xs[1..][i - 1];
      if FirstSome(xs, f).Some? {
        var i :| 0 <= i < |xs[1..]| && f(xs[1..][i]) == FirstSome(xs, f) && forall j :: 0 <= j < i ==> f(xs[1..][j]).None?;
        assert f(xs[i + 1]) == FirstSome(xs, f);
        forall j | 0 <= j < i + 1
          ensures f(xs[j]).None?
        {
          if j > 0 {
            assert xs[j] == xs[1..][j - 1];
          }
        }
      }
    }
  }

  /**
   * The first success among at most `budget` elements of `xs`, with the
   * number of elements tried: the search with an attempt counter.
   */
  function Run<X, R>(xs: seq<X>, budget: nat, f: X -> Option<R>): (r: (Option<R>, nat))
    ensures r.1 <= budget && r.1 <= |xs|
    ensures r.0.None? ==> r.1 == Min(budget, |xs|)
  {
    if |xs| == 0 || budget == 0 then (None, 0)
    else if f(xs[0]).Some? then (f(xs[0]), 1)
    else
      var rest := Run(xs[1..], budget - 1, f);
      (rest.0, rest.1 + 1)
  }

  /** Running over `xs + ys` runs `xs`, then, if nothing was found, `ys` on the budget left. */
  lemma {:induction false} RunAppend<X, R>(xs: seq<X>, ys: seq<X>, budget: nat, f: X -> Option<R>)
    ensures Run(xs + ys, budget, f) ==
      var a := Run(xs, budget, f);
      if a.0.Some? then a
      else
        var b := Run(ys, budget - a.1, f);
        (b.0, a.1 + b.1)
  {
    if |xs| == 0 {
      assert xs + ys == ys;
    } else if budget > 0 {
      assert (xs + ys)[0] == xs[0];
      if f(xs[0]).None? {
        assert (xs + ys)[1..] == xs[1..] + ys;
        RunAppend(xs[1..], ys, budget - 1, f);
      }
    }
  }

  /** With enough budget the counted search is the plain one. */
  lemma {:induction false} RunUnbounded<X, R>(xs: seq<X>, budget: nat, f: X -> Option<R>)
    requires |xs| <= budget
    ensures Run(xs, budget, f).0 == FirstSome(xs, f)
  {
    if |xs| > 0 && f(xs[0]).None? {
      RunUnbounded(xs[1..], budget - 1, f);
    }
  }

  /** The counted search sees exactly the first `budget` elements. */
  lemma {:induction false} RunIsFirstSomeOfPrefix<X, R>(xs: seq<X>, budget: nat, f: X -> Option<R>)
    ensures Run(xs, budget, f).0 == FirstSome(xs[..Min(budget, |xs|)], f)
  {
    if |xs| > 0 && budget > 0 {
      assert xs[..Min(budget, |xs|)][1..] == xs[1..][..Min(budget - 1, |xs| - 1)];
      RunIsFirstSomeOfPrefix(xs[1..], budget - 1, f);
    }
  }

  /** Trying one more element: the step of every attempt loop. */
  lemma RunCons<X, R>(xs: seq<X>, i: nat, budget: nat, f: X -> Option<R>)
    requires i < |xs| && budget > 0
    ensures Run(xs[i..], budget, f) ==
      if f(xs[i]).Some? then (f(xs[i]), 1)
      else (Run(xs[i + 1..], budget - 1, f).0, Run(xs[i + 1..], budget - 1, f).1 + 1)
  {
    assert xs[i..][1..] == xs[i + 1..];
  }

  /** `(r, a)` with `a` more attempts counted. */
  function Shift<R>(r: (Option<R>, nat), a: nat): (Option<R>, nat)
  {
    (r.0, r.1 + a)
  }

  /** The state of an attempt loop before its first attempt. */
  lemma RunStart<X, R>(xs: seq<X>, budget: nat, f: X -> Option<R>)
    ensures Run(xs, budget, f) == Shift(Run(xs[0..], budget - 0, f), 0)
  {
    assert xs[0..] == xs;
  }

  /** A failed attempt moves the loop on by one element and one attempt. */
  lemma RunSkip<X, R>(xs: seq<X>, i: nat, budget: nat, f: X -> Option<R>)
    requires i < |xs| && i < budget && f(xs[i]).None?
    ensures Shift(Run(xs[i..], budget - i, f), i) == Shift(Run(xs[i + 1..], budget - (i + 1), f), i + 1)
  {
    RunCons(xs, i, budget - i, f);
  }

  /** A successful attempt ends the loop with its result and `i + 1` attempts. */
  lemma RunHit<X, R>(xs: seq<X>, i: nat, budget: nat, f: X -> Option<R>)
    requires i < |xs| && i < budget && f(xs[i]).Some?
    ensures Shift(Run(xs[i..], budget - i, f), i) == (f(xs[i]), i + 1)
  {
    RunCons(xs, i, budget - i, f);
  }

  /** Out of elements or out of budget, the loop fails after `i` attempts. */
  lemma RunEnd<X, R>(xs: seq<X>, i: nat, budget: nat, f: X -> Option<R>)
    requires i <= |xs| && i <= budget && (i == |xs| || i == budget)
    ensures Shift(Run(xs[i..], budget - i, f), i) == (None, i)
  {
  }

  /** A success of the counted search is the result of an element within the budget. */
  lemma {:induction false} RunSound<X, R>(xs: seq<X>, budget: nat, f: X -> Option<R>)
    requires Run(xs, budget, f).0.Some?
    ensures exists k :: 0 <= k < |xs| && k < budget && f(xs[k]) == Run(xs, budget, f).0
  {
    if f(xs[0]).None? {
      RunSound(xs[1..], budget - 1, f);
      var k :| 0 <= k < |xs[1..]| && k < budget - 1 && f(xs[1..][k]) == Run(xs[1..], budget - 1, f).0;
      assert xs[1..][k] == xs[k + 1];
    }
  }

  // ------------------------------------------------------------ fallback attempts

  /** One call of `try_decode_single`: oriented matrix, version, format, traversal, confidences. */
  datatype Attempt = Attempt(
    grid: Grid,
    version: u8,
    format: Format.FormatInfo,
    startUpward: bool,
    swapColumns: bool,
    confidence: Option<seq<u8>>)

  /** `traversal_opts`: (start_upward, swap_columns) in the order tried. */
  const Traversals: seq<(bool, bool)> := [(true, false), (true, true), (false, false), (false, true)]

  /** `fallback_ec`. */
  const FallbackLevels: seq<ECLevel> := [L, M]

  /** The four traversals for one level and mask. */
  function MaskAttempts(g: Grid, version: u8, level: ECLevel, mask: nat, conf: Option<seq<u8>>): (r: seq<Attempt>)
    requires mask < 8
    ensures |r| == 4
  {
    var info := Format.FormatInfo(level, MaskFromBits(mask).value);
    seq(4, k requires 0 <= k < 4 => Attempt(g, version, info, Traversals[k].0, Traversals[k].1, conf))
  }

  /** Masks `mask`..7 for one level. */
  function MasksFrom(g: Grid, version: u8, level: ECLevel, mask: nat, conf: Option<seq<u8>>): (r: seq<Attempt>)
    requires mask <= 8
    ensures |r| == 4 * (8 - mask)
    decreases 8 - mask
  {
    if mask == 8 then [] else MaskAttempts(g, version, level, mask, conf) + MasksFrom(g, version, level, mask + 1, conf)
  }

  /** Levels `FallbackLevels[i..]`, each with every mask. */
  function LevelsFrom(g: Grid, version: u8, i: nat, conf: Option<seq<u8>>): (r: seq<Attempt>)
    requires i <= 2
    ensures |r| == 32 * (2 - i)
    decreases 2 - i
  {
    if i == 2 then [] else MasksFrom(g, version, FallbackLevels[i], 0, conf) + LevelsFrom(g, version, i + 1, conf)
  }

  /** Every fallback attempt on one orientation. */
  function OrientedAttempts(g: Grid, version: u8, conf: Option<seq<u8>>): (r: seq<Attempt>)
  {
    LevelsFrom(g, version, 0, conf)
  }

  /** The fallback attempts on one orientation: none unless its version matches. */
  function MatchingAttempts(g: Grid, version: u8, conf: Option<seq<u8>>): seq<Attempt>
    requires Wf(g)
  {
    if Orientation.VersionMatches(g, version as nat) then OrientedAttempts(g, version, conf) else []
  }

  /** The fallback attempts on the orientations `cands[i..]` whose version matches. */
  function FallbackFrom(cands: seq<Grid>, i: nat, version: u8, conf: Option<seq<u8>>): seq<Attempt>
    requires i <= |cands| && forall j :: 0 <= j < |cands| ==> Wf(cands[j])
    decreases |cands| - i
  {
    if i == |cands| then []
    else
      MatchingAttempts(cands[i], version, conf)
      + FallbackFrom(cands, i + 1, version, conf)
  }

  /** Position `4 * (m - mask) + t` of `MasksFrom` is traversal `t` of mask `m`. */
  lemma {:induction false} MasksFromAt(g: Grid, version: u8, level: ECLevel, mask: nat, conf: Option<seq<u8>>, m: nat, t: nat)
    requires mask <= m < 8 && t < 4
    ensures MasksFrom(g, version, level, mask, conf)[4 * (m - mask) + t] == MaskAttempts(g, version, level, m, conf)[t]
    decreases m - mask
  {
    var here := MaskAttempts(g, version, level, mask, conf);
    var rest := MasksFrom(g, version, level, mask + 1, conf);
    assert MasksFrom(g, version, level, mask, conf) == here + rest;
    if m == mask {
      assert (here + rest)[t] == here[t];
    } else {
      MasksFromAt(g, version, level, mask + 1, conf, m, t);
      assert (here + rest)[4 * (m - mask) + t] == rest[4 * (m - (mask + 1)) + t];
    }
  }

  /** Position `t` of `MaskAttempts` is traversal `t`. */
  lemma MaskAttemptsAt(g: Grid, version: u8, level: ECLevel, mask: nat, conf: Option<seq<u8>>, t: nat)
    requires mask < 8 && t < 4
    ensures MaskAttempts(g, version, level, mask, conf)[t]
      == Attempt(g, version, Format.FormatInfo(level, MaskFromBits(mask).value), Traversals[t].0, Traversals[t].1, conf)
  {
  }

  /**
   * The fallback on one orientation makes 64 attempts: position
   * `32 * l + 4 * m + t` tries level `FallbackLevels[l]`, mask `m` and
   * traversal `t`.
   */
  lemma OrientedAttemptsAt(g: Grid, version: u8, conf: Option<seq<u8>>, l: nat, m: nat, t: nat)
    requires l < 2 && m < 8 && t < 4
    ensures |OrientedAttempts(g, version, conf)| == 64
    ensures OrientedAttempts(g, version, conf)[32 * l + 4 * m + t]
      == Attempt(g, version, Format.FormatInfo(FallbackLevels[l], MaskFromBits(m).value), Traversals[t].0, Traversals[t].1, conf)
  {
    var level := FallbackLevels[l];
    var k := 4 * m + t;
    OrientedLevels(g, version, conf);
    MasksFromAt(g, version, level, 0, conf, m, t);
    MaskAttemptsAt(g, version, level, m, conf, t);
    if l == 0 {
      assert level == L && 32 * l + 4 * m + t == k;
    } else {
      assert level == M && 32 * l + 4 * m + t == 32 + k;
    }
  }

  /** The fallback on one orientation: level L with every mask, then level M. */
  lemma OrientedLevels(g: Grid, version: u8, conf: Option<seq<u8>>)
    ensures forall k :: 0 <= k < 32 ==> OrientedAttempts(g, version, conf)[k] == MasksFrom(g, version, L, 0, conf)[k]
    ensures forall k :: 0 <= k < 32 ==> OrientedAttempts(g, version, conf)[32 + k] == MasksFrom(g, version, M, 0, conf)[k]
  {
    var ls := MasksFrom(g, version, L, 0, conf);
    var ms := MasksFrom(g, version, M, 0, conf);
    assert OrientedAttempts(g, version, conf) == ls + (ms + []);
  }

  /** Every fallback attempt on an orientation uses it, the version, the confidences, and level L or M. */
  lemma OrientedAttemptFields(g: Grid, version: u8, conf: Option<seq<u8>>, k: nat)
    requires k < 64
    ensures |OrientedAttempts(g, version, conf)| == 64
    ensures var a := OrientedAttempts(g, version, conf)[k];
      a.grid == g && a.version == version && a.confidence == conf && (a.format.ecLevel == L || a.format.ecLevel == M)
  {
    var l := k / 32;
    var m := (k % 32) / 4;
    var t := k % 4;
    assert k == 32 * l + 4 * m + t;
    OrientedAttemptsAt(g, version, conf, l, m, t);
  }

  // ------------------------------------------------------------ fallback loops

  /** The contents of a matrix, as handed to `try_decode_single`. */
  method Snapshot(m: BitMatrix) returns (g: Grid)
    requires m.Valid()
    ensures g == m.grid
  {
    var rows: seq<seq<bool>> := [];
    for y := 0 to m.height
      invariant |rows| == y
      invariant forall b :: 0 <= b < y ==> rows[b] == m.grid.rows[b]
    {
      var row: seq<bool> := [];
      for x := 0 to m.width
        invariant row == m.grid.rows[y][..x]
      {
        var v := m.Get(x, y);
        row := row + [v];
      }
      rows := rows + [row];
    }
    g := Grid(m.width, m.height, rows);
  }

  /** The four traversals of `traversal_opts` for one format. */
  method TryTraversals<R>(g: Grid, version: u8, level: ECLevel, mask: nat, conf: Option<seq<u8>>, decodeSingle: Attempt -> Option<R>)
    returns (r: Option<R>)
    requires mask < 8
    ensures r == FirstSome(MaskAttempts(g, version, level, mask, conf), decodeSingle)
  {
    ghost var xs := MaskAttempts(g, version, level, mask, conf);
    var info := Format.FormatInfo(level, MaskFromBits(mask).value);
    for k := 0 to 4
      invariant FirstSome(xs, decodeSingle) == FirstSome(xs[k..], decodeSingle)
    {
      var (startUpward, swapColumns) := Traversals[k];
      assert xs[k] == Attempt(g, version, info, startUpward, swapColumns, conf);
      assert xs[k..][1..] == xs[k + 1..];
      r := decodeSingle(Attempt(g, version, info, startUpward, swapColumns, conf));
      if r.Some? {
        return;
      }
    }
    r := None;
  }

  /** `for mask in 0..8u8` with `MaskPattern::from_bits` for one level. */
  method TryMasks<R>(g: Grid, version: u8, level: ECLevel, conf: Option<seq<u8>>, decodeSingle: Attempt -> Option<R>)
    returns (r: Option<R>)
    ensures r == FirstSome(MasksFrom(g, version, level, 0, conf), decodeSingle)
  {
    for mask := 0 to 8
      invariant FirstSome(MasksFrom(g, version, level, 0, conf), decodeSingle) == FirstSome(MasksFrom(g, version, level, mask, conf), decodeSingle)
    {
      FirstSomeAppend(MaskAttempts(g, version, level, mask, conf), MasksFrom(g, version, level, mask + 1, conf), decodeSingle);
      match MaskFromBits(mask)
      case Some(_) =>
        r := TryTraversals(g, version, level, mask, conf, decodeSingle);
        if r.Some? {
          return;
        }
      case None =>
    }
    r := None;
  }

  /** The fallback on one orientation: skipped when its version does not match. */
  method TryOriented<R>(oriented: BitMatrix, version: u8, conf: Option<seq<u8>>, decodeSingle: Attempt -> Option<R>)
    returns (r: Option<R>)
    requires oriented.Valid()
    ensures r == FirstSome(MatchingAttempts(oriented.grid, version, conf), decodeSingle)
  {
    var matches := Orientation.VersionMatchesCandidate(oriented, version as nat);
    if !matches {
      return None;
    }
    var g := Snapshot(oriented);
    for i := 0 to 2
      invariant FirstSome(OrientedAttempts(g, version, conf), decodeSingle) == FirstSome(LevelsFrom(g, version, i, conf), decodeSingle)
    {
      FirstSomeAppend(MasksFrom(g, version, FallbackLevels[i], 0, conf), LevelsFrom(g, version, i + 1, conf), decodeSingle);
      r := TryMasks(g, version, FallbackLevels[i], conf, decodeSingle);
      if r.Some? {
        return;
      }
    }
    r := None;
  }

  /** The fallback from orientation `i`: its own attempts first, then the later orientations. */
  lemma FallbackStep<R>(grids: seq<Grid>, i: nat, version: u8, conf: Option<seq<u8>>, decodeSingle: Attempt -> Option<R>)
    requires i < |grids| && forall j :: 0 <= j < |grids| ==> Wf(grids[j])
    ensures var here := FirstSome(MatchingAttempts(grids[i], version, conf), decodeSingle);
      FirstSome(FallbackFrom(grids, i, version, conf), decodeSingle)
      == if here.Some? then here else FirstSome(FallbackFrom(grids, i + 1, version, conf), decodeSingle)
  {
    FirstSomeAppend(MatchingAttempts(grids[i], version, conf), FallbackFrom(grids, i + 1, version, conf), decodeSingle);
  }

  /** The last-resort loop over the orientations. */
  method Fallback<R>(orientations: seq<BitMatrix>, ghost grids: seq<Grid>, version: u8, conf: Option<seq<u8>>, decodeSingle: Attempt -> Option<R>)
    returns (r: Option<R>)
    requires Orientation.Holds(orientations, grids)
    ensures r == FirstSome(FallbackFrom(grids, 0, version, conf), decodeSingle)
  {
    ghost var whole := FirstSome(FallbackFrom(grids, 0, version, conf), decodeSingle);
    for i := 0 to |orientations|
      invariant whole == FirstSome(FallbackFrom(grids, i, version, conf), decodeSingle)
    {
      FallbackStep(grids, i, version, conf, decodeSingle);
      r := TryOriented(orientations[i], version, conf, decodeSingle);
      if r.Some? {
        return;
      }
    }
    r := None;
  }

  // ------------------------------------------------------------ candidate search

  /** The orientations tried: the strict candidates, else the relaxed ones. */
  function Orientations(g: Grid, s: Settings): (r: seq<Grid>)
    requires Wf(g)
    ensures forall i :: 0 <= i < |r| ==> Wf(r[i])
  {
    var strict := Orientation.Candidates(g);
    if |strict| > 0 then strict else Orientation.RelaxedCandidates(g, RelaxedTolerance(s))
  }

  /** The first success of the fallback attempts over the orientations. */
  function SearchSpec<R>(g: Grid, version: u8, conf: Option<seq<u8>>, s: Settings, decodeSingle: Attempt -> Option<R>): Option<R>
    requires Wf(g)
  {
    FirstSome(FallbackFrom(Orientations(g, s), 0, version, conf), decodeSingle)
  }

  /**
   * The fast path: on each orientation whose version matches, the format
   * read by `FormatInfo::extract` and its four traversals. Extraction never
   * succeeds, so nothing is ever tried and the fast path finds nothing.
   */
  method FastPath<R>(orientations: seq<BitMatrix>, ghost grids: seq<Grid>, version: u8, conf: Option<seq<u8>>, decodeSingle: Attempt -> Option<R>)
    returns (r: Option<R>)
    requires Orientation.Holds(orientations, grids)
    ensures r.None?
  {
    for i := 0 to |orientations|
      invariant Orientation.Holds(orientations, grids)
    {
      var matches := Orientation.VersionMatchesCandidate(orientations[i], version as nat);
      if !matches {
        continue;
      }
      var formatInfo := Format.Extract(orientations[i]);
      if formatInfo.Some? {
        assert false;
      }
    }
    r := None;
  }

  /**
   * The orientation search of `decode_from_matrix_internal`: candidates, the
   * fast path, then the fallback; `none` reports that there was no orientation.
   */
  method OrientedSearch<R>(matrix: BitMatrix, version: u8, conf: Option<seq<u8>>, s: Settings, decodeSingle: Attempt -> Option<R>)
    returns (r: Option<R>, none: bool)
    requires matrix.Valid()
    ensures none <==> |Orientations(matrix.grid, s)| == 0
    ensures r == SearchSpec(matrix.grid, version, conf, s, decodeSingle)
  {
    var orientations := Orientation.CandidateOrientations(matrix);
    ghost var grids := Orientation.Candidates(matrix.grid);
    if |orientations| == 0 {
      var mismatches := RelaxedTolerance(s);
      orientations := Orientation.CandidateOrientationsRelaxed(matrix, mismatches);
      grids := Orientation.RelaxedCandidates(matrix.grid, mismatches);
    }
    if |orientations| == 0 {
      return None, true;
    }
    assert grids == Orientations(matrix.grid, s);
    r := FastPath(orientations, grids, version, conf, decodeSingle);
    if r.None? {
      r := Fallback(orientations, grids, version, conf, decodeSingle);
    }
    none := false;
  }

  /** Attempt `a` is one the fallback makes: on an orientation in `pool` whose version matches, at level L or M. */
  ghost predicate FallbackAttempt(a: Attempt, pool: seq<Grid>, version: u8, conf: Option<seq<u8>>)
  {
    && a.grid in pool && Wf(a.grid) && Orientation.VersionMatches(a.grid, version as nat)
    && a.version == version && a.confidence == conf && (a.format.ecLevel == L || a.format.ecLevel == M)
  }

  /** Every fallback success comes from an attempt at level L or M on a matching orientation. */
  lemma {:induction false} FallbackSound<R>(cands: seq<Grid>, i: nat, version: u8, conf: Option<seq<u8>>, decodeSingle: Attempt -> Option<R>)
    requires i <= |cands| && forall j :: 0 <= j < |cands| ==> Wf(cands[j])
    requires FirstSome(FallbackFrom(cands, i, version, conf), decodeSingle).Some?
    ensures exists a :: (decodeSingle(a) == FirstSome(FallbackFrom(cands, i, version, conf), decodeSingle)
      && FallbackAttempt(a, cands[i..], version, conf))
    decreases |cands| - i
  {
    var here := MatchingAttempts(cands[i], version, conf);
    var rest := FallbackFrom(cands, i + 1, version, conf);
    assert FallbackFrom(cands, i, version, conf) == here + rest;
    FirstSomeAppend(here, rest, decodeSingle);
    if FirstSome(here, decodeSingle).Some? {
      HereSound(cands, i, version, conf, decodeSingle);
    } else {
      FallbackSound(cands, i + 1, version, conf, decodeSingle);
      var a :| decodeSingle(a) == FirstSome(rest, decodeSingle) && FallbackAttempt(a, cands[i + 1..], version, conf);
      PoolTail(a, cands, i, version, conf);
    }
  }

  /** A success among the attempts on `cands[i]` comes from one of them. */
  lemma HereSound<R>(cands: seq<Grid>, i: nat, version: u8, conf: Option<seq<u8>>, decodeSingle: Attempt -> Option<R>)
    requires i < |cands| && forall j :: 0 <= j < |cands| ==> Wf(cands[j])
    requires FirstSome(MatchingAttempts(cands[i], version, conf), decodeSingle).Some?
    ensures exists a :: (decodeSingle(a) == FirstSome(MatchingAttempts(cands[i], version, conf), decodeSingle)
      && FallbackAttempt(a, cands[i..], version, conf))
  {
    var here := MatchingAttempts(cands[i], version, conf);
    FirstSomeMeaning(here, decodeSingle);
    var k :| 0 <= k < |here| && decodeSingle(here[k]) == FirstSome(here, decodeSingle);
    OrientedAttemptFields(cands[i], version, conf, k);
    assert here[k].grid == cands[i..][0];
    assert FallbackAttempt(here[k], cands[i..], version, conf);
  }

  /** An attempt on a later orientation is one on `cands[i..]`. */
  lemma PoolTail(a: Attempt, cands: seq<Grid>, i: nat, version: u8, conf: Option<seq<u8>>)
    requires i < |cands| && FallbackAttempt(a, cands[i + 1..], version, conf)
    ensures FallbackAttempt(a, cands[i..], version, conf)
  {
    assert cands[i + 1..] == cands[i..][1..];
  }

  /** Each orientation costs at most 64 fallback attempts. */
  lemma {:induction false} FallbackCount(cands: seq<Grid>, i: nat, version: u8, conf: Option<seq<u8>>)
    requires i <= |cands| && forall j :: 0 <= j < |cands| ==> Wf(cands[j])
    ensures |FallbackFrom(cands, i, version, conf)| <= 64 * (|cands| - i)
    decreases |cands| - i
  {
    if i < |cands| {
      OrientedAttemptFields(cands[i], version, conf, 0);
      FallbackCount(cands, i + 1, version, conf);
    }
  }

  // ------------------------------------------------------------ uncertain modules

  lemma MulLeft(a: nat, b: nat, c: nat)
    requires b <= c
    ensures a * b <= a * c
  {
  }

  /** The row after row `y` starts `dim` further on and still fits. */
  lemma RowStep(dim: nat, y: nat)
    requires y < dim
    ensures (y + 1) * dim == y * dim + dim <= dim * dim
  {
    MulLeft(dim, y + 1, dim);
  }

  /** Row-major indices split back into column and row. */
  lemma DivModIndex(dim: nat, x: nat, y: nat)
    requires x < dim && y < dim
    ensures y * dim + x < dim * dim
    ensures (y * dim + x) / dim == y && (y * dim + x) % dim == x
  {
    MulLeft(dim, y + 1, dim);
    var n := y * dim + x;
    var q, r := n / dim, n % dim;
    assert n == q * dim + r;
    if q > y {
      MulLeft(dim, y + 1, q);
      assert false;
    } else if q < y {
      MulLeft(dim, q + 1, y);
      assert false;
    }
  }

  /** Row-major index `i` is uncertain: not set in the function mask, confidence at most `threshold`. */
  predicate Uncertain(dim: nat, func: Grid, conf: seq<u8>, threshold: u8, i: nat)
    requires Wf(func) && i < dim * dim <= |conf|
  {
    !Cell(func, i % dim, i / dim) && conf[i] <= threshold
  }

  /**
   * `r` lists `(index, confidence)` of exactly the uncertain modules among
   * the first `k` row-major indices, in index order.
   */
  predicate UncertainListing(dim: nat, func: Grid, conf: seq<u8>, threshold: u8, k: nat, r: seq<(nat, u8)>)
    requires Wf(func) && k <= dim * dim <= |conf|
  {
    (forall j :: 0 <= j < |r| ==> r[j].0 < k && r[j].1 == conf[r[j].0] && Uncertain(dim, func, conf, threshold, r[j].0))
    && (forall j, j' :: 0 <= j < j' < |r| ==> r[j].0 < r[j'].0)
    && (forall i :: 0 <= i < k && Uncertain(dim, func, conf, threshold, i) ==> exists j :: 0 <= j < |r| && r[j].0 == i)
  }

  /** The uncertain modules among the first `k` row-major indices, in the order the loops meet them. */
  function UncertainUpTo(dim: nat, func: Grid, conf: seq<u8>, threshold: u8, k: nat): seq<(nat, u8)>
    requires Wf(func) && k <= dim * dim <= |conf|
  {
    if k == 0 then []
    else
      var init := UncertainUpTo(dim, func, conf, threshold, k - 1);
      if Uncertain(dim, func, conf, threshold, k - 1) then init + [(k - 1, conf[k - 1])] else init
  }

  /** The collected list holds exactly the uncertain modules, in index order. */
  lemma {:induction false} UncertainUpToListing(dim: nat, func: Grid, conf: seq<u8>, threshold: u8, k: nat)
    requires Wf(func) && k <= dim * dim <= |conf|
    ensures UncertainListing(dim, func, conf, threshold, k, UncertainUpTo(dim, func, conf, threshold, k))
  {
    if k > 0 {
      UncertainUpToListing(dim, func, conf, threshold, k - 1);
      UncertainStep(dim, func, conf, threshold, k, UncertainUpTo(dim, func, conf, threshold, k - 1));
    }
  }

  /** One more index: appended when it is uncertain. */
  lemma UncertainStep(dim: nat, func: Grid, conf: seq<u8>, threshold: u8, k: nat, init: seq<(nat, u8)>)
    requires Wf(func) && 0 < k <= dim * dim <= |conf|
    requires UncertainListing(dim, func, conf, threshold, k - 1, init)
    ensures UncertainListing(dim, func, conf, threshold, k,
      if Uncertain(dim, func, conf, threshold, k - 1) then init + [(k - 1, conf[k - 1])] else init)
  {
    if Uncertain(dim, func, conf, threshold, k - 1) {
      var e := (k - 1, conf[k - 1]);
      var r := init + [e];
      AppendOrdered(init, e);
      forall j | 0 <= j < |r|
        ensures r[j].0 < k && r[j].1 == conf[r[j].0] && Uncertain(dim, func, conf, threshold, r[j].0)
      {
        if j < |init| {
          assert r[j] == init[j];
        }
      }
      forall i | 0 <= i < k && Uncertain(dim, func, conf, threshold, i)
        ensures exists j :: 0 <= j < |r| && r[j].0 == i
      {
        if i < k - 1 {
          var j :| 0 <= j < |init| && init[j].0 == i;
          assert r[j] == init[j];
        } else {
          assert r[|init|].0 == i;
        }
      }
    }
  }

  /** An entry past every index of a strictly increasing list keeps it strictly increasing. */
  lemma AppendOrdered(init: seq<(nat, u8)>, e: (nat, u8))
    requires forall j, j' :: 0 <= j < j' < |init| ==> init[j].0 < init[j'].0
    requires forall j :: 0 <= j < |init| ==> init[j].0 < e.0
    ensures var r := init + [e];
      forall j, j' :: 0 <= j < j' < |r| ==> r[j].0 < r[j'].0
  {
    var r := init + [e];
    forall j, j' | 0 <= j < j' < |r|
      ensures r[j].0 < r[j'].0
    {
      assert r[j] == init[j];
      if j' < |init| {
        assert r[j'] == init[j'];
      }
    }
  }

  /** The step of the collecting loops at column `x` of row `y`. */
  lemma UncertainAt(dim: nat, func: Grid, conf: seq<u8>, threshold: u8, x: nat, y: nat)
    requires Wf(func) && x < dim && y < dim && dim * dim <= |conf|
    ensures y * dim + x < dim * dim && y * dim + x < |conf|
    ensures UncertainUpTo(dim, func, conf, threshold, y * dim + x + 1) ==
      if !Cell(func, x, y) && conf[y * dim + x] <= threshold
      then UncertainUpTo(dim, func, conf, threshold, y * dim + x) + [(y * dim + x, conf[y * dim + x])]
      else UncertainUpTo(dim, func, conf, threshold, y * dim + x)
  {
    DivModIndex(dim, x, y);
  }

  /** The loops collecting `uncertain`, reading the function mask `func`. */
  method CollectUncertain(dim: nat, func: FunctionMask.FunctionMask, conf: seq<u8>, threshold: u8) returns (uncertain: seq<(nat, u8)>)
    requires func.Valid() && dim * dim <= |conf|
    ensures uncertain == UncertainUpTo(dim, func.mask.grid, conf, threshold, dim * dim)
  {
    uncertain := [];
    for y := 0 to dim
      invariant y * dim <= dim * dim
      invariant uncertain == UncertainUpTo(dim, func.mask.grid, conf, threshold, y * dim)
    {
      RowStep(dim, y);
      RowUncertainUpTo(dim, func.mask.grid, conf, threshold, y, dim);
      uncertain := CollectRow(dim, func, conf, threshold, y, y * dim, uncertain);
    }
  }

  /** The uncertain entries of row `y`, which starts at index `start`, before column `x`. */
  function RowUncertain(func: Grid, conf: seq<u8>, threshold: u8, y: nat, start: nat, x: nat): seq<(nat, u8)>
    requires Wf(func) && start + x <= |conf|
  {
    if x == 0 then []
    else
      var init := RowUncertain(func, conf, threshold, y, start, x - 1);
      if !Cell(func, x - 1, y) && conf[start + x - 1] <= threshold
      then init + [(start + x - 1, conf[start + x - 1])]
      else init
  }

  /** Collecting row `y` up to column `x` extends the collection of the rows above it. */
  lemma {:induction false} RowUncertainUpTo(dim: nat, func: Grid, conf: seq<u8>, threshold: u8, y: nat, x: nat)
    requires Wf(func) && x <= dim && y < dim && dim * dim <= |conf|
    ensures y * dim + x <= dim * dim
    ensures UncertainUpTo(dim, func, conf, threshold, y * dim + x)
      == UncertainUpTo(dim, func, conf, threshold, y * dim) + RowUncertain(func, conf, threshold, y, y * dim, x)
  {
    RowStep(dim, y);
    if x > 0 {
      RowUncertainUpTo(dim, func, conf, threshold, y, x - 1);
      UncertainAt(dim, func, conf, threshold, x - 1, y);
    }
  }

  /** The inner loop of `CollectUncertain`: row `y`, which starts at index `start`, column by column. */
  method CollectRow(dim: nat, func: FunctionMask.FunctionMask, conf: seq<u8>, threshold: u8, y: nat, start: nat, init: seq<(nat, u8)>)
    returns (uncertain: seq<(nat, u8)>)
    requires func.Valid() && start == y * dim && start + dim <= |conf|
    ensures uncertain == init + RowUncertain(func.mask.grid, conf, threshold, y, start, dim)
  {
    ghost var g := func.mask.grid;
    uncertain := init;
    for x := 0 to dim
      invariant uncertain == init + RowUncertain(g, conf, threshold, y, start, x)
    {
      var isFunction := func.IsFunction(x, y);
      if isFunction {
        continue;
      }
      var idx := y * dim + x;
      var c := conf[idx];
      if c <= threshold {
        uncertain := uncertain + [(idx, c)];
      }
    }
  }

  /** The key of `sort_by_key(|(idx, c)| (c, idx))`, compared lexicographically. */
  predicate KeyLe(a: (nat, u8), b: (nat, u8))
  {
    a.1 < b.1 || (a.1 == b.1 && a.0 <= b.0)
  }

  predicate SortedByKey(s: seq<(nat, u8)>)
  {
    forall i, j :: 0 <= i < j < |s| ==> KeyLe(s[i], s[j])
  }

  /** Inserts `x` before the first entry it does not follow. */
  function Insert(x: (nat, u8), s: seq<(nat, u8)>): (r: seq<(nat, u8)>)
    ensures multiset(r) == multiset(s) + multiset{x}
    ensures SortedByKey(s) ==> SortedByKey(r)
  {
    if |s| == 0 then [x]
    else if KeyLe(x, s[0]) then [x] + s
    else
      assert s == [s[0]] + s[1..];
      var rest := Insert(x, s[1..]);
      InsertBehind(x, s, rest);
      [s[0]] + rest
  }

  /** Inserting behind the head keeps the head first. */
  lemma InsertBehind(x: (nat, u8), s: seq<(nat, u8)>, rest: seq<(nat, u8)>)
    requires |s| > 0 && !KeyLe(x, s[0]) && multiset(rest) == multiset(s[1..]) + multiset{x}
    ensures SortedByKey(s) && SortedByKey(rest) ==> SortedByKey([s[0]] + rest)
  {
    if SortedByKey(s) && SortedByKey(rest) {
      forall j | 0 <= j < |rest|
        ensures KeyLe(s[0], rest[j])
      {
        assert rest[j] in multiset(rest);
        if rest[j] != x {
          assert rest[j] in multiset(s[1..]);
          var k :| 0 <= k < |s[1..]| && s[1..][k] == rest[j];
          assert s[k + 1] == rest[j];
        }
      }
      var r := [s[0]] + rest;
      forall i, j | 0 <= i < j < |r|
        ensures KeyLe(r[i], r[j])
      {
        assert r[j] == rest[j - 1];
        if i > 0 {
          assert r[i] == rest[i - 1];
        }
      }
    }
  }

  /** `uncertain.sort_by_key`: a permutation ordered by (confidence, index). */
  function SortByKey(s: seq<(nat, u8)>): (r: seq<(nat, u8)>)
    ensures multiset(r) == multiset(s) && SortedByKey(r)
  {
    if |s| == 0 then []
    else
      assert s == [s[0]] + s[1..];
      Insert(s[0], SortByKey(s[1..]))
  }

  /** `positions`: the indices of the first `top_n` sorted entries. */
  function Positions(sorted: seq<(nat, u8)>, topN: nat): (p: seq<nat>)
    ensures |p| == Min(topN, |sorted|) && forall i :: 0 <= i < |p| ==> p[i] == sorted[i].0
  {
    seq(Min(topN, |sorted|), i requires 0 <= i < Min(topN, |sorted|) => sorted[i].0)
  }

  /** The modules the beam flips: the positions of the sorted uncertain modules. */
  function Chosen(dim: nat, func: Grid, conf: seq<u8>, threshold: u8, topN: nat): seq<nat>
    requires Wf(func) && dim * dim <= |conf|
  {
    Positions(SortByKey(UncertainUpTo(dim, func, conf, threshold, dim * dim)), topN)
  }

  /** An element occurring twice in a sequence has multiplicity at least two. */
  lemma TwiceCounted(s: seq<(nat, u8)>, i: nat, j: nat)
    requires i < j < |s| && s[i] == s[j]
    ensures multiset(s)[s[i]] >= 2
  {
    assert s == s[..j] + [s[j]] + s[j + 1..];
    assert s[i] in s[..j];
  }

  /** A list with strictly increasing indices holds each entry at most once. */
  lemma {:induction false} OnceCounted(s: seq<(nat, u8)>, e: (nat, u8))
    requires forall j, j' :: 0 <= j < j' < |s| ==> s[j].0 < s[j'].0
    ensures multiset(s)[e] <= 1
  {
    if |s| > 0 {
      var init := s[..|s| - 1];
      assert s == init + [s[|s| - 1]];
      OnceCounted(init, e);
      if e == s[|s| - 1] {
        assert e !in init;
      }
    }
  }

  /** An entry of a reordering `s` of a listing `u` is an uncertain module with its own confidence. */
  lemma PermutedEntry(dim: nat, func: Grid, conf: seq<u8>, threshold: u8, u: seq<(nat, u8)>, s: seq<(nat, u8)>, k: nat)
    requires Wf(func) && dim * dim <= |conf| && UncertainListing(dim, func, conf, threshold, dim * dim, u)
    requires multiset(s) == multiset(u) && k < |s|
    ensures s[k].0 < dim * dim && s[k].1 == conf[s[k].0] && Uncertain(dim, func, conf, threshold, s[k].0)
  {
    assert s[k] in multiset(u);
    var j :| 0 <= j < |u| && u[j] == s[k];
  }

  /** A reordering of a listing holds each module once. */
  lemma PermutedDistinct(u: seq<(nat, u8)>, s: seq<(nat, u8)>, i: nat, j: nat)
    requires (forall a, b :: 0 <= a < b < |u| ==> u[a].0 < u[b].0) && multiset(s) == multiset(u) && i < j < |s|
    ensures s[i] != s[j]
  {
    if s[i] == s[j] {
      TwiceCounted(s, i, j);
      OnceCounted(u, s[i]);
    }
  }

  /** A reordering of a listing holds no entry twice. */
  lemma PermutedAllDistinct(u: seq<(nat, u8)>, s: seq<(nat, u8)>)
    requires (forall a, b :: 0 <= a < b < |u| ==> u[a].0 < u[b].0) && multiset(s) == multiset(u)
    ensures forall i, j :: 0 <= i < j < |s| ==> s[i] != s[j]
  {
    forall i, j | 0 <= i < j < |s|
      ensures s[i] != s[j]
    {
      PermutedDistinct(u, s, i, j);
    }
  }

  /** A reordering of a listing still holds every uncertain module. */
  lemma PermutedComplete(dim: nat, func: Grid, conf: seq<u8>, threshold: u8, u: seq<(nat, u8)>, s: seq<(nat, u8)>, q: nat)
    requires Wf(func) && dim * dim <= |conf| && UncertainListing(dim, func, conf, threshold, dim * dim, u)
    requires multiset(s) == multiset(u) && q < dim * dim && Uncertain(dim, func, conf, threshold, q)
    ensures exists k :: 0 <= k < |s| && s[k].0 == q
  {
    var j :| 0 <= j < |u| && u[j].0 == q;
    assert u[j] in multiset(s);
    var k :| 0 <= k < |s| && s[k] == u[j];
  }

  /** Every entry of the sorted list `s` is an uncertain module with its own confidence. */
  lemma SortedUncertain(dim: nat, func: Grid, conf: seq<u8>, threshold: u8, s: seq<(nat, u8)>)
    requires Wf(func) && dim * dim <= |conf| && s == SortByKey(UncertainUpTo(dim, func, conf, threshold, dim * dim))
    ensures forall k :: 0 <= k < |s| ==> s[k].0 < dim * dim && s[k].1 == conf[s[k].0] && Uncertain(dim, func, conf, threshold, s[k].0)
  {
    var u := UncertainUpTo(dim, func, conf, threshold, dim * dim);
    UncertainUpToListing(dim, func, conf, threshold, dim * dim);
    forall k | 0 <= k < |s|
      ensures s[k].0 < dim * dim && s[k].1 == conf[s[k].0] && Uncertain(dim, func, conf, threshold, s[k].0)
    {
      PermutedEntry(dim, func, conf, threshold, u, s, k);
    }
  }

  /** The sorted list `s` holds each module once. */
  lemma SortedDistinct(dim: nat, func: Grid, conf: seq<u8>, threshold: u8, s: seq<(nat, u8)>)
    requires Wf(func) && dim * dim <= |conf| && s == SortByKey(UncertainUpTo(dim, func, conf, threshold, dim * dim))
    ensures forall i, j :: 0 <= i < j < |s| ==> s[i] != s[j]
  {
    var u := UncertainUpTo(dim, func, conf, threshold, dim * dim);
    UncertainUpToListing(dim, func, conf, threshold, dim * dim);
    PermutedAllDistinct(u, s);
  }

  /** Every uncertain module is somewhere in the sorted list `s`. */
  lemma SortedComplete(dim: nat, func: Grid, conf: seq<u8>, threshold: u8, s: seq<(nat, u8)>)
    requires Wf(func) && dim * dim <= |conf| && s == SortByKey(UncertainUpTo(dim, func, conf, threshold, dim * dim))
    ensures forall q :: 0 <= q < dim * dim && Uncertain(dim, func, conf, threshold, q) ==> exists k :: 0 <= k < |s| && s[k].0 == q
  {
    var u := UncertainUpTo(dim, func, conf, threshold, dim * dim);
    UncertainUpToListing(dim, func, conf, threshold, dim * dim);
    forall q | 0 <= q < dim * dim && Uncertain(dim, func, conf, threshold, q)
      ensures exists k :: 0 <= k < |s| && s[k].0 == q
    {
      PermutedComplete(dim, func, conf, threshold, u, s, q);
    }
  }

  /** At most `top_n` modules are chosen, each of them uncertain. */
  lemma ChosenUncertain(dim: nat, func: Grid, conf: seq<u8>, threshold: u8, topN: nat)
    requires Wf(func) && dim * dim <= |conf|
    ensures var p := Chosen(dim, func, conf, threshold, topN);
      |p| <= topN && forall i :: 0 <= i < |p| ==> p[i] < dim * dim && Uncertain(dim, func, conf, threshold, p[i])
  {
    var s := SortByKey(UncertainUpTo(dim, func, conf, threshold, dim * dim));
    SortedUncertain(dim, func, conf, threshold, s);
    var p := Positions(s, topN);
    assert forall i :: 0 <= i < |p| ==> p[i] == s[i].0;
  }

  /** The chosen modules are distinct, least confident first, ties by index. */
  lemma ChosenSorted(dim: nat, func: Grid, conf: seq<u8>, threshold: u8, topN: nat)
    requires Wf(func) && dim * dim <= |conf|
    ensures var p := Chosen(dim, func, conf, threshold, topN);
      (forall i :: 0 <= i < |p| ==> p[i] < dim * dim)
      && forall i, j :: 0 <= i < j < |p| ==> conf[p[i]] < conf[p[j]] || (conf[p[i]] == conf[p[j]] && p[i] < p[j])
  {
    var s := SortByKey(UncertainUpTo(dim, func, conf, threshold, dim * dim));
    SortedUncertain(dim, func, conf, threshold, s);
    SortedDistinct(dim, func, conf, threshold, s);
    assert forall k :: 0 <= k < |s| ==> s[k].0 < dim * dim;
    PositionsOrdered(s, conf, topN);
  }

  /** The leading positions of a sorted list of distinct entries, each with its own confidence, are in key order. */
  lemma PositionsOrdered(s: seq<(nat, u8)>, conf: seq<u8>, topN: nat)
    requires SortedByKey(s) && (forall i, j :: 0 <= i < j < |s| ==> s[i] != s[j])
    requires forall k :: 0 <= k < |s| ==> s[k].0 < |conf| && s[k].1 == conf[s[k].0]
    ensures var p := Positions(s, topN);
      (forall i :: 0 <= i < |p| ==> p[i] < |conf|)
      && forall i, j :: 0 <= i < j < |p| ==> conf[p[i]] < conf[p[j]] || (conf[p[i]] == conf[p[j]] && p[i] < p[j])
  {
    var p := Positions(s, topN);
    forall i, j | 0 <= i < j < |p|
      ensures conf[p[i]] < conf[p[j]] || (conf[p[i]] == conf[p[j]] && p[i] < p[j])
    {
      assert KeyLe(s[i], s[j]) && s[i] != s[j];
    }
  }

  /** An uncertain module is left out only when `top_n` were taken, none more confident than it. */
  lemma ChosenTaken(dim: nat, func: Grid, conf: seq<u8>, threshold: u8, topN: nat)
    requires Wf(func) && dim * dim <= |conf|
    ensures var p := Chosen(dim, func, conf, threshold, topN);
      (forall i :: 0 <= i < |p| ==> p[i] < dim * dim)
      && forall q :: 0 <= q < dim * dim && Uncertain(dim, func, conf, threshold, q) && q !in p ==>
        |p| == topN && forall i :: 0 <= i < |p| ==> conf[p[i]] <= conf[q]
  {
    var s := SortByKey(UncertainUpTo(dim, func, conf, threshold, dim * dim));
    SortedUncertain(dim, func, conf, threshold, s);
    SortedComplete(dim, func, conf, threshold, s);
    var p := Positions(s, topN);
    forall q | 0 <= q < dim * dim && Uncertain(dim, func, conf, threshold, q) && q !in p
      ensures |p| == topN && forall i :: 0 <= i < |p| ==> conf[p[i]] <= conf[q]
    {
      var k :| 0 <= k < |s| && s[k].0 == q;
      PositionsTaken(s, conf, topN, k);
    }
  }

  /** An entry of a sorted list left out of its leading positions follows all `top_n` of them. */
  lemma PositionsTaken(s: seq<(nat, u8)>, conf: seq<u8>, topN: nat, k: nat)
    requires SortedByKey(s) && forall j :: 0 <= j < |s| ==> s[j].0 < |conf| && s[j].1 == conf[s[j].0]
    requires k < |s| && s[k].0 !in Positions(s, topN)
    ensures var p := Positions(s, topN);
      |p| == topN && forall i :: 0 <= i < |p| ==> conf[p[i]] <= conf[s[k].0]
  {
    var p := Positions(s, topN);
    if k < |p| {
      assert false;
    }
    forall i | 0 <= i < |p|
      ensures conf[p[i]] <= conf[s[k].0]
    {
      assert KeyLe(s[i], s[k]);
    }
  }

  /** No module is chosen twice. */
  lemma ChosenDistinct(dim: nat, func: Grid, conf: seq<u8>, threshold: u8, topN: nat)
    requires Wf(func) && dim * dim <= |conf|
    ensures Distinct(Chosen(dim, func, conf, threshold, topN))
  {
    ChosenSorted(dim, func, conf, threshold, topN);
  }

  /** With the mask of `version`, the uncertain modules are the data modules at or under the threshold. */
  lemma UncertainIsData(dim: nat, version: u8, conf: seq<u8>, threshold: u8, i: nat)
    requires i < dim * dim <= |conf|
    ensures Uncertain(dim, FunctionMask.FunctionGrid(version), conf, threshold, i)
      <==> !FunctionMask.FunctionModule(version, i % dim, i / dim) && conf[i] <= threshold
  {
    var g := FunctionMask.FunctionGrid(version);
    assert Cell(g, i % dim, i / dim) == FunctionMask.FunctionModule(version, i % dim, i / dim);
  }

  /**
   * The beam's chosen modules for `version`: data modules (never a function
   * module) at or under the threshold, least confident first.
   */
  lemma ChosenMeaning(dim: nat, version: u8, conf: seq<u8>, threshold: u8, topN: nat)
    requires dim * dim <= |conf|
    ensures var p := Chosen(dim, FunctionMask.FunctionGrid(version), conf, threshold, topN);
      |p| <= topN
      && (forall i :: 0 <= i < |p| ==>
            (p[i] < dim * dim && conf[p[i]] <= threshold && !FunctionMask.FunctionModule(version, p[i] % dim, p[i] / dim)))
      && (forall i, j :: 0 <= i < j < |p| ==> conf[p[i]] < conf[p[j]] || (conf[p[i]] == conf[p[j]] && p[i] < p[j]))
      && (forall q :: 0 <= q < dim * dim && !FunctionMask.FunctionModule(version, q % dim, q / dim) && conf[q] <= threshold && q !in p ==>
           (|p| == topN && forall i :: 0 <= i < |p| ==> conf[p[i]] <= conf[q]))
  {
    var g := FunctionMask.FunctionGrid(version);
    ChosenUncertain(dim, g, conf, threshold, topN);
    ChosenSorted(dim, g, conf, threshold, topN);
    ChosenTaken(dim, g, conf, threshold, topN);
    forall i | 0 <= i < dim * dim
      ensures Uncertain(dim, g, conf, threshold, i) <==> !FunctionMask.FunctionModule(version, i % dim, i / dim) && conf[i] <= threshold
    {
      UncertainIsData(dim, version, conf, threshold, i);
    }
  }

  // ------------------------------------------------------------ flip sets

  /** The single flips, in position order. */
  function Singles(p: seq<nat>): seq<seq<nat>>
  {
    seq(|p|, i requires 0 <= i < |p| => [p[i]])
  }

  /** The pairs whose first position is `a`. */
  function PairRow(p: seq<nat>, a: nat): seq<seq<nat>>
    requires a < |p|
  {
    seq(|p| - a - 1, j requires 0 <= j < |p| - a - 1 => [p[a], p[a + 1 + j]])
  }

  /** The pairs whose first position is `a` or later, lexicographically. */
  function PairsFrom(p: seq<nat>, a: nat): seq<seq<nat>>
    requires a <= |p|
    decreases |p| - a
  {
    if a == |p| then [] else PairRow(p, a) + PairsFrom(p, a + 1)
  }

  /** The triples starting with positions `a`, `b`. */
  function TripleRow(p: seq<nat>, a: nat, b: nat): seq<seq<nat>>
    requires a < b < |p|
  {
    seq(|p| - b - 1, j requires 0 <= j < |p| - b - 1 => [p[a], p[b], p[b + 1 + j]])
  }

  /** The triples starting with `a` whose second position is `b` or later. */
  function TriplesWith(p: seq<nat>, a: nat, b: nat): seq<seq<nat>>
    requires a < b <= |p|
    decreases |p| - b
  {
    if b == |p| then [] else TripleRow(p, a, b) + TriplesWith(p, a, b + 1)
  }

  /** The triples whose first position is `a` or later. */
  function TriplesFrom(p: seq<nat>, a: nat): seq<seq<nat>>
    requires a <= |p|
    decreases |p| - a
  {
    if a == |p| then [] else TriplesWith(p, a, a + 1) + TriplesFrom(p, a + 1)
  }

  /** The flip sets in the order the beam tries them, up to `max_depth` modules each. */
  function FlipSets(p: seq<nat>, maxDepth: nat): seq<seq<nat>>
  {
    Singles(p) + (if maxDepth >= 2 then PairsFrom(p, 0) else []) + (if maxDepth >= 3 then TriplesFrom(p, 0) else [])
  }

  /** `fs` picks entries of `p` at strictly increasing positions. */
  predicate Picks(p: seq<nat>, fs: seq<nat>, size: nat)
  {
    |fs| == size && forall e :: e in fs ==> e in p
  }

  /** Distinct positions give flip sets of distinct modules. */
  predicate Distinct(s: seq<nat>)
  {
    forall i, j :: 0 <= i < j < |s| ==> s[i] != s[j]
  }

  lemma {:induction false} PairsShape(p: seq<nat>, a: nat)
    requires a <= |p|
    ensures forall k :: 0 <= k < |PairsFrom(p, a)| ==> Picks(p, PairsFrom(p, a)[k], 2) && (Distinct(p) ==> Distinct(PairsFrom(p, a)[k]))
    decreases |p| - a
  {
    if a < |p| {
      PairsShape(p, a + 1);
      var row := PairRow(p, a);
      forall k | 0 <= k < |PairsFrom(p, a)|
        ensures Picks(p, PairsFrom(p, a)[k], 2) && (Distinct(p) ==> Distinct(PairsFrom(p, a)[k]))
      {
        if k >= |row| {
          assert PairsFrom(p, a)[k] == PairsFrom(p, a + 1)[k - |row|];
        }
      }
    }
  }

  lemma {:induction false} TriplesWithShape(p: seq<nat>, a: nat, b: nat)
    requires a < b <= |p|
    ensures forall k :: 0 <= k < |TriplesWith(p, a, b)| ==> Picks(p, TriplesWith(p, a, b)[k], 3) && (Distinct(p) ==> Distinct(TriplesWith(p, a, b)[k]))
    decreases |p| - b
  {
    if b < |p| {
      TriplesWithShape(p, a, b + 1);
      var row := TripleRow(p, a, b);
      forall k | 0 <= k < |TriplesWith(p, a, b)|
        ensures Picks(p, TriplesWith(p, a, b)[k], 3) && (Distinct(p) ==> Distinct(TriplesWith(p, a, b)[k]))
      {
        if k >= |row| {
          assert TriplesWith(p, a, b)[k] == TriplesWith(p, a, b + 1)[k - |row|];
        }
      }
    }
  }

  lemma {:induction false} TriplesShape(p: seq<nat>, a: nat)
    requires a <= |p|
    ensures forall k :: 0 <= k < |TriplesFrom(p, a)| ==> Picks(p, TriplesFrom(p, a)[k], 3) && (Distinct(p) ==> Distinct(TriplesFrom(p, a)[k]))
    decreases |p| - a
  {
    if a < |p| {
      TriplesShape(p, a + 1);
      TriplesWithShape(p, a, a + 1);
      var head := TriplesWith(p, a, a + 1);
      forall k | 0 <= k < |TriplesFrom(p, a)|
        ensures Picks(p, TriplesFrom(p, a)[k], 3) && (Distinct(p) ==> Distinct(TriplesFrom(p, a)[k]))
      {
        if k < |head| {
          assert TriplesFrom(p, a)[k] == head[k];
        } else {
          assert TriplesFrom(p, a)[k] == TriplesFrom(p, a + 1)[k - |head|];
        }
      }
    }
  }

  /**
   * Every flip set holds between one and `max_depth` entries of the
   * positions, and distinct modules when the positions are distinct.
   */
  lemma FlipSetsShape(p: seq<nat>, maxDepth: nat)
    ensures forall k :: 0 <= k < |FlipSets(p, maxDepth)| ==>
      var fs := FlipSets(p, maxDepth)[k];
      1 <= |fs| <= Max(maxDepth, 1) && Picks(p, fs, |fs|) && (Distinct(p) ==> Distinct(fs))
  {
    var pairs := if maxDepth >= 2 then PairsFrom(p, 0) else [];
    var triples := if maxDepth >= 3 then TriplesFrom(p, 0) else [];
    PairsShape(p, 0);
    TriplesShape(p, 0);
    var all := FlipSets(p, maxDepth);
    forall k | 0 <= k < |all|
      ensures 1 <= |all[k]| <= Max(maxDepth, 1) && Picks(p, all[k], |all[k]|) && (Distinct(p) ==> Distinct(all[k]))
    {
      if k < |Singles(p)| {
        assert all[k] == Singles(p)[k];
      } else if k < |Singles(p)| + |pairs| {
        assert all[k] == pairs[k - |Singles(p)|];
      } else {
        assert all[k] == triples[k - |Singles(p)| - |pairs|];
      }
    }
  }

  // ------------------------------------------------------------ flipping

  /** The matrix `decode_with_flips` decodes: each listed index below `dim * dim` toggled in turn. */
  function FlipAll(g: Grid, flips: seq<nat>): (r: Grid)
    requires Wf(g)
    ensures Wf(r) && r.width == g.width && r.height == g.height
  {
    if |flips| == 0 then g
    else
      var before := FlipAll(g, flips[..|flips| - 1]);
      var idx := flips[|flips| - 1];
      var dim := g.width;
      if idx >= dim * dim then before
      else SetCell(before, idx % dim, idx / dim, !Cell(before, idx % dim, idx / dim))
  }

  /** An index below `dim * dim` names the cell at its column and row. */
  lemma IndexOfCell(dim: nat, idx: nat)
    requires idx < dim * dim
    ensures idx % dim < dim && idx / dim < dim && idx == (idx / dim) * dim + idx % dim
  {
    if idx / dim >= dim {
      MulLeft(dim, dim, idx / dim);
    }
  }

  /** Index `idx` names cell (x, y) exactly when it is that cell's row-major index. */
  lemma SameCell(dim: nat, idx: nat, x: nat, y: nat)
    requires idx < dim * dim && x < dim
    ensures (x == idx % dim && y == idx / dim) <==> (y < dim && y * dim + x == idx)
  {
    IndexOfCell(dim, idx);
    if y < dim {
      DivModIndex(dim, x, y);
    }
  }

  /**
   * Flipping distinct indices toggles exactly the cells whose row-major
   * index is listed, and leaves every other cell as it was.
   */
  lemma {:induction false} FlipAllCell(g: Grid, flips: seq<nat>, x: nat, y: nat)
    requires Wf(g) && Distinct(flips) && x < g.width && y < g.height
    ensures Cell(FlipAll(g, flips), x, y) == (Cell(g, x, y) != (y < g.width && y * g.width + x in flips))
  {
    if |flips| > 0 {
      var dim := g.width;
      var init := flips[..|flips| - 1];
      var idx := flips[|flips| - 1];
      assert flips == init + [idx];
      assert Distinct(init) by {
        forall i, j | 0 <= i < j < |init|
          ensures init[i] != init[j]
        {
          assert init[i] == flips[i] && init[j] == flips[j];
        }
      }
      assert idx !in init by {
        forall i | 0 <= i < |init|
          ensures init[i] != idx
        {
          assert init[i] == flips[i];
        }
      }
      FlipAllCell(g, init, x, y);
      var before := FlipAll(g, init);
      if idx < dim * dim {
        IndexOfCell(dim, idx);
        SameCell(dim, idx, x, y);
      } else if y < dim {
        DivModIndex(dim, x, y);
      }
    }
  }

  /** What one flip set decodes to: the orientation search on the flipped matrix. */
  function FlipOutcome<R>(g: Grid, version: u8, s: Settings, decodeSingle: Attempt -> Option<R>): seq<nat> -> Option<R>
    requires Wf(g)
  {
    flips => SearchSpec(FlipAll(g, flips), version, None, s, decodeSingle)
  }

  /** `decode_with_flips`: a clone with the flips applied, decoded without confidences. */
  method DecodeWithFlips<R>(matrix: BitMatrix, version: u8, flips: seq<nat>, s: Settings, decodeSingle: Attempt -> Option<R>)
    returns (r: Option<R>)
    requires matrix.Valid()
    ensures r == FlipOutcome(matrix.grid, version, s, decodeSingle)(flips)
  {
    var dim := matrix.width;
    var mutated := matrix.Clone();
    for k := 0 to |flips|
      invariant fresh(mutated) && fresh(mutated.data) && mutated.Valid()
      invariant mutated.width == dim && mutated.height == matrix.height
      invariant mutated.grid == FlipAll(matrix.grid, flips[..k])
    {
      var idx := flips[k];
      assert flips[..k + 1][..k] == flips[..k];
      if idx >= dim * dim {
        continue;
      }
      var x := idx % dim;
      var y := idx / dim;
      var v := mutated.Get(x, y);
      mutated.Set(x, y, !v);
    }
    assert flips[..|flips|] == flips;
    var none;
    r, none := OrientedSearch(mutated, version, None, s, decodeSingle);
  }

  // ------------------------------------------------------------ beam repair

  /**
   * The attempt loops of the beam, flattened: the flip sets in the order the
   * nested loops visit them, the budget checked before each attempt.
   */
  method TryFlipSets<R>(matrix: BitMatrix, version: u8, sets: seq<seq<nat>>, s: Settings, decodeSingle: Attempt -> Option<R>,
                        maxAttempts: nat)
    returns (r: Option<R>, attempts: nat)
    requires matrix.Valid()
    ensures (r, attempts) == Run(sets, maxAttempts, FlipOutcome(matrix.grid, version, s, decodeSingle))
  {
    ghost var f := FlipOutcome(matrix.grid, version, s, decodeSingle);
    RunStart(sets, maxAttempts, f);
    attempts := 0;
    for i := 0 to |sets|
      invariant attempts == i <= maxAttempts
      invariant Run(sets, maxAttempts, f) == Shift(Run(sets[i..], maxAttempts - i, f), i)
    {
      if attempts >= maxAttempts {
        RunEnd(sets, i, maxAttempts, f);
        return None, attempts;
      }
      attempts := attempts + 1;
      r := DecodeWithFlips(matrix, version, sets[i], s, decodeSingle);
      if r.Some? {
        RunHit(sets, i, maxAttempts, f);
        return;
      }
      RunSkip(sets, i, maxAttempts, f);
    }
    RunEnd(sets, |sets|, maxAttempts, f);
    r := None;
  }

  /**
   * The beam repair with the number of `decode_with_flips` calls it makes:
   * nothing when the confidences do not cover the matrix or no module is
   * uncertain, else the counted search over the flip sets.
   */
  function BeamRun<R>(g: Grid, version: u8, conf: seq<u8>, s: Settings, decodeSingle: Attempt -> Option<R>): (Option<R>, nat)
    requires Wf(g) && (|conf| == g.width * g.height ==> g.width <= g.height)
  {
    if |conf| != g.width * g.height then (None, 0)
    else
      var dim := g.width;
      MulLeft(dim, dim, g.height);
      var sorted := SortByKey(UncertainUpTo(dim, FunctionMask.FunctionGrid(version), conf, ConfThreshold(s), dim * dim));
      if |sorted| == 0 then (None, 0)
      else Run(FlipSets(Positions(sorted, TopN(s)), MaxDepth(s)), MaxAttempts(s), FlipOutcome(g, version, s, decodeSingle))
  }

  /** `attempt_uncertain_module_beam_repair`, with the number of attempts it made. */
  method BeamRepair<R>(matrix: BitMatrix, version: u8, conf: seq<u8>, s: Settings, decodeSingle: Attempt -> Option<R>)
    returns (r: Option<R>, attempts: nat)
    requires matrix.Valid() && (|conf| == matrix.width * matrix.height ==> matrix.width <= matrix.height)
    ensures (r, attempts) == BeamRun(matrix.grid, version, conf, s, decodeSingle)
  {
    if |conf| != matrix.width * matrix.height {
      return None, 0;
    }
    var topN, maxAttempts, maxDepth, threshold := TopN(s), MaxAttempts(s), MaxDepth(s), ConfThreshold(s);
    var dim := matrix.width;
    MulLeft(dim, dim, matrix.height);
    var func := new FunctionMask.FunctionMask(version);
    var uncertain := CollectUncertain(dim, func, conf, threshold);
    var sorted := SortByKey(uncertain);
    if |sorted| == 0 {
      return None, 0;
    }
    var positions := Positions(sorted, topN);
    r, attempts := TryFlipSets(matrix, version, FlipSets(positions, maxDepth), s, decodeSingle, maxAttempts);
  }

  /** The beam calls `decode_with_flips` at most `max_attempts` times, so at most 64. */
  lemma BeamAttemptsBound<R>(g: Grid, version: u8, conf: seq<u8>, s: Settings, decodeSingle: Attempt -> Option<R>)
    requires Wf(g) && (|conf| == g.width * g.height ==> g.width <= g.height)
    ensures BeamRun(g, version, conf, s, decodeSingle).1 <= MaxAttempts(s) <= 64
    ensures |conf| != g.width * g.height ==> BeamRun(g, version, conf, s, decodeSingle) == (None, 0)
  {
  }

  /**
   * A beam success is the decoding of some flip set of at most `max_depth`
   * distinct chosen modules, every earlier set within the budget having failed.
   */
  /** A success over the flip sets of distinct positions comes from one small set of distinct chosen positions. */
  lemma FlipSetsWitness<R>(p: seq<nat>, maxDepth: nat, budget: nat, f: seq<nat> -> Option<R>)
    requires Distinct(p) && 1 <= maxDepth && Run(FlipSets(p, maxDepth), budget, f).0.Some?
    ensures exists fs :: (|fs| <= maxDepth && Distinct(fs) && (forall e :: e in fs ==> e in p)
      && f(fs) == Run(FlipSets(p, maxDepth), budget, f).0)
  {
    var all := FlipSets(p, maxDepth);
    FlipSetsShape(p, maxDepth);
    RunSound(all, budget, f);
    var k :| 0 <= k < |all| && k < budget && f(all[k]) == Run(all, budget, f).0;
    var fs := all[k];
    assert Picks(p, fs, |fs|);
  }

  lemma BeamSound<R>(g: Grid, version: u8, conf: seq<u8>, s: Settings, decodeSingle: Attempt -> Option<R>)
    requires Wf(g) && |conf| == g.width * g.height && g.width <= g.height
    requires BeamRun(g, version, conf, s, decodeSingle).0.Some?
    ensures g.width * g.width <= |conf|
    ensures exists fs :: (|fs| <= MaxDepth(s) && Distinct(fs)
      && (forall e :: e in fs ==> e in Chosen(g.width, FunctionMask.FunctionGrid(version), conf, ConfThreshold(s), TopN(s)))
      && FlipOutcome(g, version, s, decodeSingle)(fs) == BeamRun(g, version, conf, s, decodeSingle).0)
  {
    MulLeft(g.width, g.width, g.height);
    ChosenDistinct(g.width, FunctionMask.FunctionGrid(version), conf, ConfThreshold(s), TopN(s));
    FlipSetsWitness(Chosen(g.width, FunctionMask.FunctionGrid(version), conf, ConfThreshold(s), TopN(s)),
      MaxDepth(s), MaxAttempts(s), FlipOutcome(g, version, s, decodeSingle));
  }

  // ------------------------------------------------------------ decoding a matrix

  /** What `decode_from_matrix_internal` returns. */
  function DecodeSpec<R>(g: Grid, version: u8, conf: Option<seq<u8>>, s: Settings, decodeSingle: Attempt -> Option<R>): Option<R>
    requires Wf(g) && (conf.Some? && |conf.value| == g.width * g.height ==> g.width <= g.height)
  {
    if |Orientations(g, s)| == 0 then None
    else
      var found := SearchSpec(g, version, conf, s, decodeSingle);
      if found.Some? || conf.None? then found
      else BeamRun(g, version, conf.value, s, decodeSingle).0
  }

  /** `decode_from_matrix_internal`. */
  method DecodeFromMatrixInternal<R>(matrix: BitMatrix, version: u8, conf: Option<seq<u8>>, s: Settings, decodeSingle: Attempt -> Option<R>)
    returns (r: Option<R>)
    requires matrix.Valid()
    requires conf.Some? && |conf.value| == matrix.width * matrix.height ==> matrix.width <= matrix.height
    ensures r == DecodeSpec(matrix.grid, version, conf, s, decodeSingle)
  {
    var none;
    r, none := OrientedSearch(matrix, version, conf, s, decodeSingle);
    if none || r.Some? {
      return;
    }
    if conf.Some? {
      var attempts;
      r, attempts := BeamRepair(matrix, version, conf.value, s, decodeSingle);
    }
  }

  /** `decode_from_matrix`: no confidences. */
  method DecodeFromMatrix<R>(matrix: BitMatrix, version: u8, s: Settings, decodeSingle: Attempt -> Option<R>)
    returns (r: Option<R>)
    requires matrix.Valid()
    ensures r == DecodeSpec(matrix.grid, version, None, s, decodeSingle)
  {
    r := DecodeFromMatrixInternal(matrix, version, None, s, decodeSingle);
  }

  /** `decode_from_matrix_with_confidence`. */
  method DecodeFromMatrixWithConfidence<R>(matrix: BitMatrix, version: u8, conf: seq<u8>, s: Settings, decodeSingle: Attempt -> Option<R>)
    returns (r: Option<R>)
    requires matrix.Valid()
    requires |conf| == matrix.width * matrix.height ==> matrix.width <= matrix.height
    ensures r == DecodeSpec(matrix.grid, version, Some(conf), s, decodeSingle)
  {
    r := DecodeFromMatrixInternal(matrix, version, Some(conf), s, decodeSingle);
  }

  /**
   * Without confidences decoding is the orientation search alone, which is
   * what `decode_with_flips` relies on; with no orientation the result is
   * None even when confidences are supplied.
   */
  lemma DecodeWithoutConfidence<R>(g: Grid, version: u8, conf: Option<seq<u8>>, s: Settings, decodeSingle: Attempt -> Option<R>)
    requires Wf(g) && (conf.Some? && |conf.value| == g.width * g.height ==> g.width <= g.height)
    ensures DecodeSpec(g, version, None, s, decodeSingle) == SearchSpec(g, version, None, s, decodeSingle)
    ensures |Orientations(g, s)| == 0 ==> DecodeSpec(g, version, conf, s, decodeSingle).None?
  {
  }

  /**
   * A decoded result comes either from a fallback attempt at level L or M
   * on a candidate orientation whose version matches, or, with confidences,
   * from the beam.
   */
  lemma DecodeSound<R>(g: Grid, version: u8, conf: Option<seq<u8>>, s: Settings, decodeSingle: Attempt -> Option<R>)
    requires Wf(g) && (conf.Some? && |conf.value| == g.width * g.height ==> g.width <= g.height)
    requires DecodeSpec(g, version, conf, s, decodeSingle).Some?
    ensures SearchSpec(g, version, conf, s, decodeSingle).Some? ==>
      exists a :: decodeSingle(a) == DecodeSpec(g, version, conf, s, decodeSingle)
        && a.grid in Orientations(g, s) && Orientation.VersionMatches(a.grid, version as nat)
        && a.version == version && a.confidence == conf && (a.format.ecLevel == L || a.format.ecLevel == M)
    ensures SearchSpec(g, version, conf, s, decodeSingle).None? ==>
      conf.Some? && DecodeSpec(g, version, conf, s, decodeSingle) == BeamRun(g, version, conf.value, s, decodeSingle).0
  {
    if SearchSpec(g, version, conf, s, decodeSingle).Some? {
      FallbackSound(Orientations(g, s), 0, version, conf, decodeSingle);
      assert Orientations(g, s)[0..] == Orientations(g, s);
    }
  }
}
