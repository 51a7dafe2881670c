/**
 * Block de-interleaving and error correction of the codeword stream
 * (`deinterleave_and_correct`, src/decoder/qr_decoder/payload.rs).
 *
 * The stream holds the data codewords of all blocks round-robin (the short
 * blocks drop out of the last round), then the EC codewords round-robin.
 * `Layout` and the index functions say where codeword `i` of block `b` sits;
 * `Locate` is their inverse. `Deinterleave` is the reference result and
 * `DeinterleaveAndCorrect` the source's nested loops proved against it.
 */
module Deinterleave {
  import opened Wrappers
  import opened QrCode
  import EcTables
  import ReedSolomon
  import Gf256
  import Bits

  /** `num_blocks` blocks of `ecc` EC codewords each, sharing `dataTotal` data codewords. */
  datatype Layout = Layout(numBlocks: nat, ecc: nat, dataTotal: nat)

  /** A layout with at least one block over a stream of exactly its size. */
  predicate Fits(cw: seq<u8>, l: Layout)
  {
    l.numBlocks >= 1 && |cw| == l.dataTotal + l.numBlocks * l.ecc
  }

  /** `short_len`: data codewords of a short block. */
  function ShortLen(l: Layout): nat
    requires l.numBlocks >= 1
  {
    l.dataTotal / l.numBlocks
  }

  /** `num_long_blocks`: the last blocks carry one data codeword more. */
  function NumLong(l: Layout): nat
    requires l.numBlocks >= 1
  {
    l.dataTotal % l.numBlocks
  }

  /** `num_short_blocks`. */
  function NumShort(l: Layout): nat
    requires l.numBlocks >= 1
  {
    l.numBlocks - NumLong(l)
  }

  /** The data length of block `b`: short for the first `NumShort` blocks, long after. */
  function DataLen(l: Layout, b: nat): nat
    requires l.numBlocks >= 1
  {
    if b < NumShort(l) then ShortLen(l) else ShortLen(l) + 1
  }

  /** Where data codeword `i` of block `b` sits in the stream. */
  function DataIndex(l: Layout, b: nat, i: nat): nat
    requires l.numBlocks >= 1
  {
    if i < ShortLen(l) then i * l.numBlocks + b else ShortLen(l) * l.numBlocks + SatSub(b, NumShort(l))
  }

  /** Where EC codeword `e` of block `b` sits in the stream. */
  function EccIndex(l: Layout, b: nat, e: nat): nat
  {
    l.dataTotal + e * l.numBlocks + b
  }

  lemma LayoutSplit(l: Layout)
    requires l.numBlocks >= 1
    ensures ShortLen(l) * l.numBlocks + NumLong(l) == l.dataTotal
    ensures NumLong(l) < l.numBlocks && NumShort(l) >= 1
  {
  }

  /** Stream positions before data round `i` has been dealt. */
  function Dealt(l: Layout, i: nat): nat
    requires l.numBlocks >= 1
  {
    if i <= ShortLen(l) then i * l.numBlocks else l.dataTotal
  }

  /** Codewords round `i` has dealt to the blocks before `b`. */
  function DealtInRound(l: Layout, i: nat, b: nat): nat
    requires l.numBlocks >= 1
  {
    if i < ShortLen(l) then b else SatSub(b, NumShort(l))
  }

  /** Every data position lies before the EC codewords. */
  lemma DataIndexBound(l: Layout, b: nat, i: nat)
    requires l.numBlocks >= 1 && b < l.numBlocks && i < DataLen(l, b)
    ensures DataIndex(l, b, i) < l.dataTotal
  {
    LayoutSplit(l);
    if i < ShortLen(l) {
      MulStep(i, ShortLen(l), l.numBlocks);
    }
  }

  /** i * n + n <= s * n when i < s. */
  lemma {:induction false} MulStep(i: nat, s: nat, n: nat)
    requires i < s
    ensures i * n + n <= s * n
  {
    assert (s - 1) * n + n == s * n;
    if i + 1 < s {
      MulStep(i, s - 1, n);
    }
  }

  /** Every EC position lies inside the stream. */
  lemma EccIndexBound(cw: seq<u8>, l: Layout, b: nat, e: nat)
    requires Fits(cw, l) && b < l.numBlocks && e < l.ecc
    ensures l.dataTotal <= EccIndex(l, b, e) < |cw|
  {
    MulStep(e, l.ecc, l.numBlocks);
    assert l.numBlocks * l.ecc == l.ecc * l.numBlocks;
  }

  /** The block and position of stream index `p` among the data codewords. */
  function Locate(l: Layout, p: nat): (nat, nat)
    requires l.numBlocks >= 1
  {
    if p < ShortLen(l) * l.numBlocks then (p % l.numBlocks, p / l.numBlocks)
    else (NumShort(l) + (p - ShortLen(l) * l.numBlocks), ShortLen(l))
  }

  lemma MulMono(a: nat, s: nat, n: nat)
    requires s <= a
    ensures s * n <= a * n
  {
    if s < a {
      MulStep(s, a, n);
    }
  }

  /** p / n < s when p < s * n. */
  lemma DivBelow(p: nat, n: nat, s: nat)
    requires n >= 1 && p < s * n
    ensures p / n < s
  {
    var q := p / n;
    assert q * n <= p;
    if s <= q {
      MulMono(q, s, n);
    }
  }

  /** Every data position is the place of exactly the codeword `Locate` names. */
  lemma LocateIsInverse(l: Layout, p: nat)
    requires l.numBlocks >= 1 && p < l.dataTotal
    ensures Locate(l, p).0 < l.numBlocks && Locate(l, p).1 < DataLen(l, Locate(l, p).0)
    ensures DataIndex(l, Locate(l, p).0, Locate(l, p).1) == p
  {
    LayoutSplit(l);
    var n := l.numBlocks;
    if p < ShortLen(l) * n {
      DivBelow(p, n, ShortLen(l));
      assert p == (p / n) * n + p % n;
    }
  }

  /** No two data codewords share a place: `Locate` recovers block and position. */
  lemma LocateOfDataIndex(l: Layout, b: nat, i: nat)
    requires l.numBlocks >= 1 && b < l.numBlocks && i < DataLen(l, b)
    ensures Locate(l, DataIndex(l, b, i)) == (b, i)
  {
    LayoutSplit(l);
    var n := l.numBlocks;
    if i < ShortLen(l) {
      MulStep(i, ShortLen(l), n);
      Bits.DivModUnique(i * n + b, n, i, b);
    }
  }

  /** The EC codewords are dealt round-robin: the block and round of an EC position. */
  lemma LocateEcc(cw: seq<u8>, l: Layout, q: nat)
    requires Fits(cw, l) && l.dataTotal <= q < |cw|
    ensures var b, e := (q - l.dataTotal) % l.numBlocks, (q - l.dataTotal) / l.numBlocks;
      b < l.numBlocks && e < l.ecc && EccIndex(l, b, e) == q
  {
    var n := l.numBlocks;
    var d := q - l.dataTotal;
    var b, e := d % n, d / n;
    assert d == e * n + b;
  }

  /** The first `n` data codewords of block `b`. */
  function DataPart(cw: seq<u8>, l: Layout, b: nat, n: nat): (r: seq<u8>)
    requires Fits(cw, l) && b < l.numBlocks && n <= DataLen(l, b)
    ensures |r| == n
    ensures forall k :: 0 <= k < n ==> DataIndex(l, b, k) < l.dataTotal && r[k] == cw[DataIndex(l, b, k)]
  {
    if n == 0 then []
    else
      DataIndexBound(l, b, n - 1);
      DataPart(cw, l, b, n - 1) + [cw[DataIndex(l, b, n - 1)]]
  }

  /** The first `n` EC codewords of block `b`. */
  function EccPart(cw: seq<u8>, l: Layout, b: nat, n: nat): (r: seq<u8>)
    requires Fits(cw, l) && b < l.numBlocks && n <= l.ecc
    ensures |r| == n
    ensures forall k :: 0 <= k < n ==> l.dataTotal <= EccIndex(l, b, k) < |cw| && r[k] == cw[EccIndex(l, b, k)]
  {
    if n == 0 then []
    else
      EccIndexBound(cw, l, b, n - 1);
      EccPart(cw, l, b, n - 1) + [cw[EccIndex(l, b, n - 1)]]
  }

  /** Block `b` as the received RS word: its data codewords, then its EC codewords. */
  function Block(cw: seq<u8>, l: Layout, b: nat): (r: seq<u8>)
    requires Fits(cw, l) && b < l.numBlocks
    ensures |r| == DataLen(l, b) + l.ecc
    ensures forall k :: 0 <= k < DataLen(l, b) ==> DataIndex(l, b, k) < l.dataTotal && r[k] == cw[DataIndex(l, b, k)]
    ensures forall e :: 0 <= e < l.ecc ==> l.dataTotal <= EccIndex(l, b, e) < |cw| && r[DataLen(l, b) + e] == cw[EccIndex(l, b, e)]
  {
    DataPart(cw, l, b, DataLen(l, b)) + EccPart(cw, l, b, l.ecc)
  }

  /** Data codewords of the blocks before `k`. */
  function Offset(l: Layout, k: nat): nat
    requires l.numBlocks >= 1
  {
    if k == 0 then 0 else Offset(l, k - 1) + DataLen(l, k - 1)
  }

  lemma {:induction false} OffsetClosed(l: Layout, k: nat)
    requires l.numBlocks >= 1
    ensures Offset(l, k) == k * ShortLen(l) + SatSub(k, NumShort(l))
  {
    if k > 0 {
      OffsetClosed(l, k - 1);
      assert k * ShortLen(l) == (k - 1) * ShortLen(l) + ShortLen(l);
    }
  }

  /** The blocks' data lengths add up to `dataTotal`. */
  lemma OffsetOfAll(l: Layout)
    requires l.numBlocks >= 1
    ensures Offset(l, l.numBlocks) == l.dataTotal
  {
    OffsetClosed(l, l.numBlocks);
    LayoutSplit(l);
  }

  /** Every block's outcome keeps at least the block's data length. */
  predicate Sized(l: Layout, outs: seq<ReedSolomon.Outcome>)
    requires l.numBlocks >= 1
  {
    |outs| == l.numBlocks && forall c :: 0 <= c < |outs| ==> DataLen(l, c) <= |outs[c].word|
  }

  /**
   * Collecting the first `k` decode outcomes in block order: the corrected
   * data part of each, or None from the first block that failed.
   */
  function Gather(l: Layout, outs: seq<ReedSolomon.Outcome>, k: nat): Option<seq<u8>>
    requires l.numBlocks >= 1 && Sized(l, outs) && k <= |outs|
  {
    if k == 0 then Some([])
    else
      match Gather(l, outs, k - 1)
      case None => None
      case Some(acc) =>
        if outs[k - 1].result.Err? then None else Some(acc + outs[k - 1].word[..DataLen(l, k - 1)])
  }

  lemma GatherStep(l: Layout, outs: seq<ReedSolomon.Outcome>, b: nat, acc: seq<u8>)
    requires l.numBlocks >= 1 && Sized(l, outs) && b < |outs|
    requires Gather(l, outs, b) == Some(acc) && outs[b].result.Ok?
    ensures Gather(l, outs, b + 1) == Some(acc + outs[b].word[..DataLen(l, b)])
  {
  }

  /** A failed block stays failed. */
  lemma {:induction false} GatherFailureStays(l: Layout, outs: seq<ReedSolomon.Outcome>, k: nat, n: nat)
    requires l.numBlocks >= 1 && Sized(l, outs) && k <= n <= |outs| && Gather(l, outs, k).None?
    ensures Gather(l, outs, n).None?
    decreases n - k
  {
    if k < n {
      GatherFailureStays(l, outs, k + 1, n);
    }
  }

  /** Collecting succeeds exactly when every block decoded. */
  lemma {:induction false} GatherSomeIff(l: Layout, outs: seq<ReedSolomon.Outcome>, k: nat)
    requires l.numBlocks >= 1 && Sized(l, outs) && k <= |outs|
    ensures Gather(l, outs, k).Some? <==> forall c :: 0 <= c < k ==> outs[c].result.Ok?
  {
    if k > 0 {
      GatherSomeIff(l, outs, k - 1);
    }
  }

  /** On success the output holds `Offset(l, k)` codewords, `DataLen` per block. */
  lemma {:induction false} GatherLength(l: Layout, outs: seq<ReedSolomon.Outcome>, k: nat)
    requires l.numBlocks >= 1 && Sized(l, outs) && k <= |outs| && Gather(l, outs, k).Some?
    ensures |Gather(l, outs, k).value| == Offset(l, k)
  {
    if k > 0 {
      GatherLength(l, outs, k - 1);
    }
  }

  /** The output at `Offset(l, b) + i` is codeword `i` of block `b`'s corrected word. */
  lemma {:induction false} GatherAt(l: Layout, outs: seq<ReedSolomon.Outcome>, k: nat, b: nat, i: nat)
    requires l.numBlocks >= 1 && Sized(l, outs) && k <= |outs| && Gather(l, outs, k).Some?
    requires b < k && i < DataLen(l, b)
    ensures Offset(l, b) + i < |Gather(l, outs, k).value|
    ensures Gather(l, outs, k).value[Offset(l, b) + i] == outs[b].word[i]
  {
    GatherLength(l, outs, k - 1);
    if b < k - 1 {
      GatherAt(l, outs, k - 1, b, i);
    }
  }

  /** The decode outcome of every block. */
  function Outcomes(gf: Gf256.Field, cw: seq<u8>, l: Layout): (r: seq<ReedSolomon.Outcome>)
    requires Fits(cw, l)
    ensures Sized(l, r)
    ensures forall c :: 0 <= c < l.numBlocks ==> r[c] == ReedSolomon.DecodeSpec(gf, l.ecc, Block(cw, l, c))
  {
    seq(l.numBlocks, c requires 0 <= c < l.numBlocks => ReedSolomon.DecodeSpec(gf, l.ecc, Block(cw, l, c)))
  }

  /** The layout for `total` codewords and a table entry, or None where the source gives up. */
  function LayoutOf(total: nat, info: EcTables.EcBlockInfo): (r: Option<Layout>)
    ensures r.Some? <==> total > info.numBlocks * info.eccPerBlock
    ensures r.Some? ==> r.value == Layout(info.numBlocks, info.eccPerBlock, total - info.numBlocks * info.eccPerBlock)
  {
    var eccTotal := info.numBlocks * info.eccPerBlock;
    if total < eccTotal then None
    else if total - eccTotal == 0 then None
    else Some(Layout(info.numBlocks, info.eccPerBlock, total - eccTotal))
  }

  /** De-interleaving and correction with a table entry and a field. */
  function DeinterleaveWith(gf: Gf256.Field, cw: seq<u8>, info: EcTables.EcBlockInfo): Option<seq<u8>>
    requires info.numBlocks >= 1
  {
    match LayoutOf(|cw|, info)
    case None => None
    case Some(l) => Gather(l, Outcomes(gf, cw, l), l.numBlocks)
  }

  /** The reference result of `deinterleave_and_correct`, over the source's tables as written. */
  function Deinterleave(cw: seq<u8>, version: u8, level: ECLevel): Option<seq<u8>>
  {
    match EcTables.EcBlockInfoFor(version, level)
    case None => None
    case Some(info) => DeinterleaveWith(Gf256.AsWritten(), cw, info)
  }

  /** The result `deinterleave_and_correct` evidently intends: the same steps over the true field. */
  function DeinterleaveIntended(cw: seq<u8>, version: u8, level: ECLevel): Option<seq<u8>>
  {
    match EcTables.EcBlockInfoFor(version, level)
    case None => None
    case Some(info) => DeinterleaveWith(Gf256.Standard(), cw, info)
  }

  /** Only versions 1 to 40 have a table entry; for them the entry decides, whichever the field. */
  lemma DeinterleaveVersions(cw: seq<u8>, version: u8, level: ECLevel)
    ensures !(1 <= version <= 40) ==> Deinterleave(cw, version, level).None? && DeinterleaveIntended(cw, version, level).None?
    ensures 1 <= version <= 40 ==> (EcTables.EcBlockInfoFor(version, level).value.numBlocks >= 1 &&
      Deinterleave(cw, version, level) == DeinterleaveWith(Gf256.AsWritten(), cw, EcTables.EcBlockInfoFor(version, level).value) &&
      DeinterleaveIntended(cw, version, level) == DeinterleaveWith(Gf256.Standard(), cw, EcTables.EcBlockInfoFor(version, level).value))
  {
  }

  /** A successful result holds exactly the `total - num_blocks * ecc_per_block` data codewords. */
  lemma DeinterleaveLength(gf: Gf256.Field, cw: seq<u8>, info: EcTables.EcBlockInfo)
    requires info.numBlocks >= 1 && DeinterleaveWith(gf, cw, info).Some?
    ensures |DeinterleaveWith(gf, cw, info).value| == |cw| - info.numBlocks * info.eccPerBlock >= 1
  {
    var l := LayoutOf(|cw|, info).value;
    GatherLength(l, Outcomes(gf, cw, l), l.numBlocks);
    OffsetOfAll(l);
  }

  /** None for a stream no longer than its EC codewords, or for a block that fails to decode. */
  lemma DeinterleaveNoneIff(gf: Gf256.Field, cw: seq<u8>, info: EcTables.EcBlockInfo)
    requires info.numBlocks >= 1
    ensures DeinterleaveWith(gf, cw, info).None? <==>
      |cw| <= info.numBlocks * info.eccPerBlock ||
      exists c :: 0 <= c < info.numBlocks &&
        Outcomes(gf, cw, LayoutOf(|cw|, info).value)[c].result.Err?
  {
    if |cw| > info.numBlocks * info.eccPerBlock {
      var l := LayoutOf(|cw|, info).value;
      GatherSomeIff(l, Outcomes(gf, cw, l), l.numBlocks);
    }
  }

  /** Every block of the stream has an all-zero syndrome. */
  predicate Clean(gf: Gf256.Field, cw: seq<u8>, l: Layout)
    requires Fits(cw, l)
  {
    forall c :: 0 <= c < l.numBlocks ==> ReedSolomon.AllZero(ReedSolomon.Syndrome(gf, Block(cw, l, c), l.ecc))
  }

  /**
   * With no errors the output is the data codewords in block order: data
   * codeword `i` of block `b` comes from stream position `DataIndex(l, b, i)`.
   */
  lemma CleanStreamOutput(gf: Gf256.Field, cw: seq<u8>, l: Layout, b: nat, i: nat)
    requires Fits(cw, l) && Clean(gf, cw, l) && b < l.numBlocks && i < DataLen(l, b)
    ensures Gather(l, Outcomes(gf, cw, l), l.numBlocks).Some?
    ensures Offset(l, b) + i < |Gather(l, Outcomes(gf, cw, l), l.numBlocks).value|
    ensures Gather(l, Outcomes(gf, cw, l), l.numBlocks).value[Offset(l, b) + i] == cw[DataIndex(l, b, i)]
  {
    var outs := Outcomes(gf, cw, l);
    forall c | 0 <= c < l.numBlocks
      ensures outs[c].result.Ok?
    {
      ReedSolomon.CleanWordUnchanged(gf, l.ecc, Block(cw, l, c));
    }
    GatherSomeIff(l, outs, l.numBlocks);
    GatherAt(l, outs, l.numBlocks, b, i);
    ReedSolomon.CleanWordUnchanged(gf, l.ecc, Block(cw, l, b));
  }

  /** With one block, its data part is the whole data region, in stream order. */
  lemma SingleBlockLayout(l: Layout)
    requires l.numBlocks == 1
    ensures ShortLen(l) == l.dataTotal && NumShort(l) == 1
    ensures DataLen(l, 0) == l.dataTotal && Offset(l, 0) == 0 && Offset(l, 1) == l.dataTotal
    ensures forall i :: 0 <= i < l.dataTotal ==> DataIndex(l, 0, i) == i
    ensures forall e :: EccIndex(l, 0, e) == l.dataTotal + e
  {
  }

  /** A single block without errors: the output is the stream minus its EC codewords. */
  lemma SingleBlockClean(gf: Gf256.Field, cw: seq<u8>, info: EcTables.EcBlockInfo)
    requires info.numBlocks == 1 && |cw| > info.eccPerBlock
    requires Clean(gf, cw, LayoutOf(|cw|, info).value)
    ensures DeinterleaveWith(gf, cw, info) == Some(cw[..|cw| - info.eccPerBlock])
  {
    var l := LayoutOf(|cw|, info).value;
    assert l.dataTotal == |cw| - info.eccPerBlock;
    SingleBlockGather(gf, cw, l);
  }

  /** The gathered output of one clean block is its data codewords. */
  lemma SingleBlockGather(gf: Gf256.Field, cw: seq<u8>, l: Layout)
    requires Fits(cw, l) && l.numBlocks == 1 && l.dataTotal >= 1 && Clean(gf, cw, l)
    ensures Gather(l, Outcomes(gf, cw, l), 1) == Some(cw[..l.dataTotal])
  {
    SingleBlockIsStream(cw, l);
    SingleBlockOutput(gf, cw, l);
    assert ReedSolomon.AllZero(ReedSolomon.Syndrome(gf, Block(cw, l, 0), l.ecc));
    ReedSolomon.CleanWordUnchanged(gf, l.ecc, cw);
  }

  /**
   * With a one-block, one-EC-codeword entry the stream [7, 185] is the
   * block itself: the source's tables accept it and keep its data
   * codeword, the true field rejects it.
   */
  lemma TwoByteStreamDependsOnTables(info: EcTables.EcBlockInfo)
    requires info == EcTables.EcBlockInfo(1, 1)
    ensures DeinterleaveWith(Gf256.AsWritten(), [7, 185], info) == Some([7])
    ensures DeinterleaveWith(Gf256.Standard(), [7, 185], info) == None
  {
    ReedSolomon.TwoByteBlockAsWritten();
    TwoByteStream(Gf256.AsWritten(), [7, 185], info);
    assert [7, 185][..1] == [7];
    ReedSolomon.TwoByteBlockStandard();
    TwoByteStream(Gf256.Standard(), [7, 185], info);
  }

  /** A two-codeword stream under a one-block, one-EC-codeword entry is its own block. */
  lemma TwoByteStream(gf: Gf256.Field, cw: seq<u8>, info: EcTables.EcBlockInfo)
    requires info == EcTables.EcBlockInfo(1, 1) && |cw| == 2
    ensures DeinterleaveWith(gf, cw, info) ==
      var o := ReedSolomon.DecodeSpec(gf, 1, cw);
      if o.result.Ok? then Some(o.word[..1]) else None
  {
    var l := LayoutOf(2, info).value;
    SingleBlockIsStream(cw, l);
    SingleBlockOutput(gf, cw, l);
  }

  /** With one block, the block is the whole stream in order. */
  lemma SingleBlockIsStream(cw: seq<u8>, l: Layout)
    requires Fits(cw, l) && l.numBlocks == 1
    ensures Block(cw, l, 0) == cw
  {
    SingleBlockLayout(l);
    var blk := Block(cw, l, 0);
    assert |blk| == |cw|;
    forall k | 0 <= k < |cw|
      ensures blk[k] == cw[k]
    {
      if k < l.dataTotal {
        assert blk[k] == cw[DataIndex(l, 0, k)];
      } else {
        var e := k - l.dataTotal;
        assert blk[l.dataTotal + e] == cw[EccIndex(l, 0, e)];
      }
    }
  }

  /** One block's outcome decides the whole output: its data part, or None. */
  lemma SingleBlockOutput(gf: Gf256.Field, cw: seq<u8>, l: Layout)
    requires Fits(cw, l) && l.numBlocks == 1
    ensures Gather(l, Outcomes(gf, cw, l), 1) ==
      var o := ReedSolomon.DecodeSpec(gf, l.ecc, Block(cw, l, 0));
      if o.result.Ok? then Some(o.word[..l.dataTotal]) else None
  {
    SingleBlockLayout(l);
    var outs := Outcomes(gf, cw, l);
    assert outs[0] == ReedSolomon.DecodeSpec(gf, l.ecc, Block(cw, l, 0));
    GatherSingle(l, outs);
  }

  lemma GatherSingle(l: Layout, outs: seq<ReedSolomon.Outcome>)
    requires l.numBlocks == 1 && Sized(l, outs)
    ensures Gather(l, outs, 1) == if outs[0].result.Ok? then Some(outs[0].word[..DataLen(l, 0)]) else None
  {
    assert Gather(l, outs, 0) == Some([]);
    assert [] + outs[0].word[..DataLen(l, 0)] == outs[0].word[..DataLen(l, 0)];
  }

  /** The row of data round `i`: every block still short of its length takes the next codeword. */
  method DealDataRound(cw: seq<u8>, l: Layout, blocks0: seq<seq<u8>>, i: nat, idx0: nat) returns (blocks: seq<seq<u8>>, idx: nat)
    requires Fits(cw, l) && i <= ShortLen(l)
    requires |blocks0| == l.numBlocks
    requires forall c :: 0 <= c < l.numBlocks ==> blocks0[c] == DataPart(cw, l, c, Min(i, DataLen(l, c)))
    requires idx0 == Dealt(l, i)
    ensures |blocks| == l.numBlocks
    ensures forall c :: 0 <= c < l.numBlocks ==> blocks[c] == DataPart(cw, l, c, Min(i + 1, DataLen(l, c)))
    ensures idx == Dealt(l, i + 1)
  {
    blocks, idx := blocks0, idx0;
    for b := 0 to l.numBlocks
      invariant |blocks| == l.numBlocks
      invariant forall c :: 0 <= c < b ==> blocks[c] == DataPart(cw, l, c, Min(i + 1, DataLen(l, c)))
      invariant forall c :: b <= c < l.numBlocks ==> blocks[c] == DataPart(cw, l, c, Min(i, DataLen(l, c)))
      invariant idx == Dealt(l, i) + DealtInRound(l, i, b)
    {
      blocks, idx := DealDataCell(cw, l, blocks, i, b, idx);
    }
    LayoutSplit(l);
    if i < ShortLen(l) {
      assert Dealt(l, i + 1) == i * l.numBlocks + l.numBlocks;
    }
  }

  /** Block `b` in data round `i`: it takes the next codeword while it is short of its length. */
  method DealDataCell(cw: seq<u8>, l: Layout, blocks0: seq<seq<u8>>, i: nat, b: nat, idx0: nat) returns (blocks: seq<seq<u8>>, idx: nat)
    requires Fits(cw, l) && i <= ShortLen(l) && b < l.numBlocks
    requires |blocks0| == l.numBlocks
    requires forall c :: 0 <= c < b ==> blocks0[c] == DataPart(cw, l, c, Min(i + 1, DataLen(l, c)))
    requires forall c :: b <= c < l.numBlocks ==> blocks0[c] == DataPart(cw, l, c, Min(i, DataLen(l, c)))
    requires idx0 == Dealt(l, i) + DealtInRound(l, i, b)
    ensures |blocks| == l.numBlocks
    ensures forall c :: 0 <= c < b + 1 ==> blocks[c] == DataPart(cw, l, c, Min(i + 1, DataLen(l, c)))
    ensures forall c :: b + 1 <= c < l.numBlocks ==> blocks[c] == DataPart(cw, l, c, Min(i, DataLen(l, c)))
    ensures idx == Dealt(l, i) + DealtInRound(l, i, b + 1)
  {
    var numShort := l.numBlocks - l.dataTotal % l.numBlocks;
    var shortLen := l.dataTotal / l.numBlocks;
    var blockLen := if b < numShort then shortLen else shortLen + 1;
    blocks, idx := blocks0, idx0;
    if i < blockLen {
      // the source returns None when idx >= total; DataIndexBound shows it never is
      assert idx == DataIndex(l, b, i);
      DataIndexBound(l, b, i);
      blocks := blocks[b := blocks[b] + [cw[idx]]];
      idx := idx + 1;
    }
  }

  /** EC round `e`: every block takes the next codeword. */
  method DealEccRound(cw: seq<u8>, l: Layout, blocks0: seq<seq<u8>>, e: nat, idx0: nat) returns (blocks: seq<seq<u8>>, idx: nat)
    requires Fits(cw, l) && e < l.ecc
    requires |blocks0| == l.numBlocks
    requires forall c :: 0 <= c < l.numBlocks ==> blocks0[c] == DataPart(cw, l, c, DataLen(l, c)) + EccPart(cw, l, c, e)
    requires idx0 == l.dataTotal + e * l.numBlocks
    ensures |blocks| == l.numBlocks
    ensures forall c :: 0 <= c < l.numBlocks ==> blocks[c] == DataPart(cw, l, c, DataLen(l, c)) + EccPart(cw, l, c, e + 1)
    ensures idx == l.dataTotal + (e + 1) * l.numBlocks
  {
    blocks, idx := blocks0, idx0;
    for b := 0 to l.numBlocks
      invariant |blocks| == l.numBlocks
      invariant forall c :: 0 <= c < b ==> blocks[c] == DataPart(cw, l, c, DataLen(l, c)) + EccPart(cw, l, c, e + 1)
      invariant forall c :: b <= c < l.numBlocks ==> blocks[c] == DataPart(cw, l, c, DataLen(l, c)) + EccPart(cw, l, c, e)
      invariant idx == EccIndex(l, b, e)
    {
      // as above, the source's idx >= total guard cannot fire
      EccIndexBound(cw, l, b, e);
      blocks := blocks[b := blocks[b] + [cw[idx]]];
      idx := idx + 1;
    }
  }

  /** `rs.decode(block)` on a copy of the block: the corrected word and the result. */
  method DecodeBlock(gf: Gf256.Field, numEcc: nat, block: seq<u8>) returns (word: seq<u8>, res: Result<(), ReedSolomon.RsError>)
    ensures ReedSolomon.Outcome(word, res) == ReedSolomon.DecodeSpec(gf, numEcc, block)
  {
    var buffer := new u8[|block|](k requires 0 <= k < |block| => block[k]);
    assert buffer[..] == block;
    res := ReedSolomon.Decode(gf, numEcc, buffer);
    word := buffer[..];
  }

  /** RS-decodes every block and concatenates the corrected data parts. */
  method CorrectAll(gf: Gf256.Field, l: Layout, blocks: seq<seq<u8>>, ghost outs: seq<ReedSolomon.Outcome>) returns (r: Option<seq<u8>>)
    requires l.numBlocks >= 1 && |blocks| == l.numBlocks && Sized(l, outs)
    requires forall c :: 0 <= c < l.numBlocks ==> outs[c] == ReedSolomon.DecodeSpec(gf, l.ecc, blocks[c])
    ensures r == Gather(l, outs, l.numBlocks)
  {
    var numShort := l.numBlocks - l.dataTotal % l.numBlocks;
    var shortLen := l.dataTotal / l.numBlocks;
    assert numShort == NumShort(l) && shortLen == ShortLen(l);
    var out: seq<u8> := [];
    for b := 0 to l.numBlocks
      invariant Gather(l, outs, b) == Some(out)
    {
      var word, res := DecodeBlock(gf, l.ecc, blocks[b]);
      assert outs[b] == ReedSolomon.Outcome(word, res);
      if res.Err? {
        GatherFailureStays(l, outs, b + 1, l.numBlocks);
        return None;
      }
      var dataLen := if b < numShort then shortLen else shortLen + 1;
      assert dataLen == DataLen(l, b);
      GatherStep(l, outs, b, out);
      out := out + word[..dataLen];
    }
    r := Some(out);
  }

  /** The outcomes of the dealt blocks are those of the reference blocks. */
  lemma OutcomesOfBlocks(gf: Gf256.Field, cw: seq<u8>, l: Layout, blocks: seq<seq<u8>>)
    requires Fits(cw, l) && |blocks| == l.numBlocks
    requires forall c :: 0 <= c < l.numBlocks ==> blocks[c] == Block(cw, l, c)
    ensures Sized(l, Outcomes(gf, cw, l))
    ensures forall c :: 0 <= c < l.numBlocks ==> Outcomes(gf, cw, l)[c] == ReedSolomon.DecodeSpec(gf, l.ecc, blocks[c])
  {
  }

  /** Deals the stream out into its blocks, data rounds first, then EC rounds. */
  method SplitBlocks(codewords: seq<u8>, l: Layout) returns (blocks: seq<seq<u8>>)
    requires Fits(codewords, l)
    ensures |blocks| == l.numBlocks
    ensures forall c :: 0 <= c < l.numBlocks ==> blocks[c] == Block(codewords, l, c)
  {
    var shortLen := l.dataTotal / l.numBlocks;
    var longLen := shortLen + 1;
    blocks := seq(l.numBlocks, _ => []);
    var idx := 0;
    for i := 0 to longLen
      invariant |blocks| == l.numBlocks
      invariant forall c :: 0 <= c < l.numBlocks ==> blocks[c] == DataPart(codewords, l, c, Min(i, DataLen(l, c)))
      invariant idx == Dealt(l, i)
    {
      blocks, idx := DealDataRound(codewords, l, blocks, i, idx);
    }
    for e := 0 to l.ecc
      invariant |blocks| == l.numBlocks
      invariant forall c :: 0 <= c < l.numBlocks ==> blocks[c] == DataPart(codewords, l, c, DataLen(l, c)) + EccPart(codewords, l, c, e)
      invariant idx == l.dataTotal + e * l.numBlocks
    {
      blocks, idx := DealEccRound(codewords, l, blocks, e, idx);
    }
  }

  /** The body of `deinterleave_and_correct` once the table entry is known. */
  method DeinterleaveWithInfo(gf: Gf256.Field, codewords: seq<u8>, info: EcTables.EcBlockInfo) returns (r: Option<seq<u8>>)
    requires info.numBlocks >= 1
    ensures r == DeinterleaveWith(gf, codewords, info)
  {
    var total := |codewords|;
    var eccTotal := info.numBlocks * info.eccPerBlock;
    if total < eccTotal {
      return None;
    }
    var dataTotal := total - eccTotal;
    if dataTotal == 0 {
      return None;
    }
    var l := Layout(info.numBlocks, info.eccPerBlock, dataTotal);
    assert LayoutOf(total, info) == Some(l);
    r := SplitAndCorrect(gf, codewords, l);
  }

  /** Dealing out the blocks of a fitting stream, then correcting them. */
  method SplitAndCorrect(gf: Gf256.Field, codewords: seq<u8>, l: Layout) returns (r: Option<seq<u8>>)
    requires Fits(codewords, l)
    ensures r == Gather(l, Outcomes(gf, codewords, l), l.numBlocks)
  {
    var blocks := SplitBlocks(codewords, l);
    OutcomesOfBlocks(gf, codewords, l, blocks);
    r := CorrectAll(gf, l, blocks, Outcomes(gf, codewords, l));
  }

  /** `deinterleave_and_correct`. */
  method DeinterleaveAndCorrect(codewords: seq<u8>, version: u8, level: ECLevel) returns (r: Option<seq<u8>>)
    ensures r == Deinterleave(codewords, version, level)
  {
    var info := EcTables.EcBlockInfoFor(version, level);
    if info.None? {
      return None;
    }
    r := DeinterleaveWithInfo(Gf256.AsWritten(), codewords, info.value);
  }
}
