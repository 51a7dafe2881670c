/** The error-correction block table (src/decoder/tables.rs), indexed [level][version]. */
module EcTables {
  import opened Wrappers
  import opened QrCode

  datatype EcBlockInfo = EcBlockInfo(numBlocks: nat, eccPerBlock: nat)

  /** Row L of `ECC_CODEWORDS_PER_BLOCK`; column 0 is the -1 placeholder. */
  const EccL: seq<int> := [
    -1, 7, 10, 15, 20, 26, 18, 20, 24, 30, 18, 20, 24, 26, 30, 22, 24, 28, 30, 28, 28, 28, 28, 30,
    30, 26, 28, 30, 30, 30, 30, 30, 30, 30, 30, 30, 30, 30, 30, 30, 30
  ]

  /** Row M of `ECC_CODEWORDS_PER_BLOCK`; column 0 is the -1 placeholder. */
  const EccM: seq<int> := [
    -1, 10, 16, 26, 18, 24, 16, 18, 22, 22, 26, 30, 22, 22, 24, 24, 28, 28, 26, 26, 26, 26, 28, 28,
    28, 28, 28, 28, 28, 28, 28, 28, 28, 28, 28, 28, 28, 28, 28, 28, 28
  ]

  /** Row Q of `ECC_CODEWORDS_PER_BLOCK`; column 0 is the -1 placeholder. */
  const EccQ: seq<int> := [
    -1, 13, 22, 18, 26, 18, 24, 18, 22, 20, 24, 28, 26, 24, 20, 30, 24, 28, 28, 26, 30, 28, 30, 30,
    30, 30, 28, 30, 30, 30, 30, 30, 30, 30, 30, 30, 30, 30, 30, 30, 30
  ]

  /** Row H of `ECC_CODEWORDS_PER_BLOCK`; column 0 is the -1 placeholder. */
  const EccH: seq<int> := [
    -1, 17, 28, 22, 16, 22, 28, 26, 26, 24, 28, 24, 28, 22, 24, 24, 30, 28, 28, 26, 28, 30, 24, 30,
    30, 30, 30, 30, 30, 30, 30, 30, 30, 30, 30, 30, 30, 30, 30, 30, 30
  ]

  /** `ECC_CODEWORDS_PER_BLOCK`, indexed [level][version]. */
  const EccCodewordsPerBlock: seq<seq<int>> := [EccL, EccM, EccQ, EccH]

  lemma EccLWithin(v: nat)
    requires 1 <= v <= 40
    ensures |EccL| == 41 && 7 <= EccL[v] <= 30
  {
    if v <= 10 {
    } else if v <= 20 {
    } else if v <= 30 {
    } else {
    }
  }

  lemma EccMWithin(v: nat)
    requires 1 <= v <= 40
    ensures |EccM| == 41 && 7 <= EccM[v] <= 30
  {
    if v <= 10 {
    } else if v <= 20 {
    } else if v <= 30 {
    } else {
    }
  }

  lemma EccQWithin(v: nat)
    requires 1 <= v <= 40
    ensures |EccQ| == 41 && 7 <= EccQ[v] <= 30
  {
    if v <= 10 {
    } else if v <= 20 {
    } else if v <= 30 {
    } else {
    }
  }

  lemma EccHWithin(v: nat)
    requires 1 <= v <= 40
    ensures |EccH| == 41 && 7 <= EccH[v] <= 30
  {
    if v <= 10 {
    } else if v <= 20 {
    } else if v <= 30 {
    } else {
    }
  }

  /** Row L of `NUM_ERROR_CORRECTION_BLOCKS`; column 0 is the -1 placeholder. */
  const BlocksL: seq<int> := [
    -1, 1, 1, 1, 1, 1, 2, 2, 2, 2, 4, 4, 4, 4, 4, 6, 6, 6, 6, 7, 8, 8, 9, 9, 10, 12, 12, 12, 13,
    14, 15, 16, 17, 18, 19, 19, 20, 21, 22, 24, 25
  ]

  /** Row M of `NUM_ERROR_CORRECTION_BLOCKS`; column 0 is the -1 placeholder. */
  const BlocksM: seq<int> := [
    -1, 1, 1, 1, 2, 2, 4, 4, 4, 5, 5, 5, 8, 9, 9, 10, 10, 11, 13, 14, 16, 17, 17, 18, 20, 21, 23,
    25, 26, 28, 29, 31, 33, 35, 37, 38, 40, 43, 45, 47, 49
  ]

  /** Row Q of `NUM_ERROR_CORRECTION_BLOCKS`; column 0 is the -1 placeholder. */
  const BlocksQ: seq<int> := [
    -1, 1, 1, 2, 2, 4, 4, 6, 6, 8, 8, 8, 10, 12, 16, 12, 17, 16, 18, 21, 20, 23, 23, 25, 27, 29,
    34, 34, 35, 38, 40, 43, 45, 48, 51, 53, 56, 59, 62, 65, 68
  ]

  /** Row H of `NUM_ERROR_CORRECTION_BLOCKS`; column 0 is the -1 placeholder. */
  const BlocksH: seq<int> := [
    -1, 1, 1, 2, 4, 4, 4, 5, 6, 8, 8, 11, 11, 16, 16, 18, 16, 19, 21, 25, 25, 25, 34, 30, 32, 35,
    37, 40, 42, 45, 48, 51, 54, 57, 60, 63, 66, 70, 74, 77, 81
  ]

  /** `NUM_ERROR_CORRECTION_BLOCKS`, indexed [level][version]. */
  const NumErrorCorrectionBlocks: seq<seq<int>> := [BlocksL, BlocksM, BlocksQ, BlocksH]

  lemma BlocksLWithin(v: nat)
    requires 1 <= v <= 40
    ensures |BlocksL| == 41 && 1 <= BlocksL[v] <= 81
  {
    if v <= 10 {
    } else if v <= 20 {
    } else if v <= 30 {
    } else {
    }
  }

  lemma BlocksMWithin(v: nat)
    requires 1 <= v <= 40
    ensures |BlocksM| == 41 && 1 <= BlocksM[v] <= 81
  {
    if v <= 10 {
    } else if v <= 20 {
    } else if v <= 30 {
    } else {
    }
  }

  lemma BlocksQWithin(v: nat)
    requires 1 <= v <= 40
    ensures |BlocksQ| == 41 && 1 <= BlocksQ[v] <= 81
  {
    if v <= 10 {
    } else if v <= 20 {
    } else if v <= 30 {
    } else {
    }
  }

  lemma BlocksHWithin(v: nat)
    requires 1 <= v <= 40
    ensures |BlocksH| == 41 && 1 <= BlocksH[v] <= 81
  {
    if v <= 10 {
    } else if v <= 20 {
    } else if v <= 30 {
    } else {
    }
  }

  /** `ec_level_index`: L, M, Q, H -> 0, 1, 2, 3. */
  function EcLevelIndex(e: ECLevel): (r: nat)
    ensures r < 4 && r == LevelIndex(e)
  {
    match e
    case L => 0
    case M => 1
    case Q => 2
    case H => 3
  }

  /** Every real entry (versions 1..40) of the codeword table lies in [7, 30]. */
  lemma EccEntryWithin(l: nat, v: nat)
    requires l < 4 && 1 <= v <= 40
    ensures |EccCodewordsPerBlock[l]| == 41 && 7 <= EccCodewordsPerBlock[l][v] <= 30
  {
    if l == 0 {
      EccLWithin(v);
    } else if l == 1 {
      EccMWithin(v);
    } else if l == 2 {
      EccQWithin(v);
    } else {
      EccHWithin(v);
    }
  }


  /** Every real entry (versions 1..40) of the block-count table lies in [1, 81]. */
  lemma BlockEntryWithin(l: nat, v: nat)
    requires l < 4 && 1 <= v <= 40
    ensures |NumErrorCorrectionBlocks[l]| == 41 && 1 <= NumErrorCorrectionBlocks[l][v] <= 81
  {
    if l == 0 {
      BlocksLWithin(v);
    } else if l == 1 {
      BlocksMWithin(v);
    } else if l == 2 {
      BlocksQWithin(v);
    } else {
      BlocksHWithin(v);
    }
  }


  /** `ec_block_info`: None outside versions 1..=40 or on a non-positive entry. */
  function EcBlockInfoFor(version: u8, level: ECLevel): (r: Option<EcBlockInfo>)
    ensures r.Some? <==> 1 <= version <= 40
    ensures r.Some? ==> 1 <= r.value.numBlocks <= 81 && 7 <= r.value.eccPerBlock <= 30
    ensures r.Some? ==> r.value.numBlocks == NumErrorCorrectionBlocks[LevelIndex(level)][version]
    ensures r.Some? ==> r.value.eccPerBlock == EccCodewordsPerBlock[LevelIndex(level)][version]
  {
    if !(1 <= version <= 40) then None
    else
      var idx := EcLevelIndex(level);
      EccEntryWithin(idx, version);
      BlockEntryWithin(idx, version);
      var ecc := EccCodewordsPerBlock[idx][version];
      var blocks := NumErrorCorrectionBlocks[idx][version];
      if ecc <= 0 || blocks <= 0 then None
      else Some(EcBlockInfo(blocks, ecc))
  }

  /** The two corner entries of the table. */
  lemma EcBlockInfoCorners()
    ensures EcBlockInfoFor(1, L) == Some(EcBlockInfo(1, 7))
    ensures EcBlockInfoFor(40, H) == Some(EcBlockInfo(81, 30))
  {
  }
}
