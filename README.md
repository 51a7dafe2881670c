# RustQR core, modelled in Dafny

This project models the sequential, self-contained logic of RustQR, a QR
code reader written in Rust, together with the benchmark tooling that
gates its tuning. It has four parts.

- **The benchmark gate and the failure ranking.**
  - `scripts/compare_reading_rate_artifacts.py` validates two reading-rate
    artifacts, compares their dataset fingerprints, and checks the rate
    drop and the runtime regression. It maps the outcome to exit codes 0, 1
    and 2 (`ArtifactGate`).
  - The tuning-queue script and the triage script rank failure clusters
    (`TuningReport`, `Triage`, `ReportRows`, `Ranking`, `Sorting`, `Dicts`).
  - The benchmark tool `src/bin/qrtool.rs` produces the artifacts. Its
    failure classifier, cluster accumulation and merge, stage telemetry,
    runtime summary, per-image loop and JSON string escaper are modelled
    (`FailureClusters`, `Telemetry`, `Runtime`, `ReadingRate`,
    `JsonEscape`).
  - The JSON values the scripts read, with Python's `get`, `isinstance`,
    `float`, `int` and `str`, are in `Json`.
- **The QR decode back end, against ISO/IEC 18004:2015.**
  - GF(2^8) and its log/antilog tables (`Gf256`, `Gf256Tables`).
  - The Reed–Solomon decoder (`ReedSolomon`).
  - Block de-interleaving (`Deinterleave`).
  - The bit reader and the segment parser (`Payload`), with the numeric,
    alphanumeric and byte modes (`Numeric`, `Alphanumeric`, `ByteMode`, `Utf8`).
  - Format information (`Format`, `Bch`) and version information (`Version`).
  - The EC block table (`EcTables`).
  - The function-module mask and the alignment positions (`FunctionMask`).
  - Zig-zag reading (`Bitstream`) and unmasking (`Unmask`).
  - The model types (`QrCode`).
- **Bit-level and integer image structures.**
  - The packed `BitMatrix` class (`Matrix`).
  - Rotations, flips, inversion and the finder and timing checks
    (`Orientation`).
  - The fallback search and the beam repair of uncertain modules
    (`MatrixDecode`).
  - The shape decisions of the sampling geometry (`Geometry`).
  - Integral images and binarisation (`Binarization`).
  - Grey conversion (`Grayscale`).
  - The detection pyramid (`Pyramid`).
  - Union-find connected components (`ConnectedComponents`).
  - 16.16 fixed point (`FixedPoint`).
  - The buffer pool (`MemoryPool`).
- **The integer decision helpers of the pipeline.**
  - Confidence lanes and their attempt budget, the strategy ladder, cluster
    trimming, triple de-duplication and the top-k limit (`Pipeline`).
  - Label-file counting and dataset statistics (`Tools`, over `Text`).

Values become datatypes and functions. Objects whose fields the source
updates in place become classes:
- `BitMatrix` over a byte array;
- `BitReader`, `LaneBudget`, `UnionFind` and `BufferPool`.

Loops that mutate state become methods with loop invariants. Each such
method is proved against a specification function. The properties of that
function are proved as lemmas.

Some definitions use a table the source gets wrong, or take a decision the
source gets wrong. In those places the model keeps two definitions: the
code as written, and the evidently intended code. Each pair is listed under
"## Findings". The rows below name the as-written half and the corrected
half of each pair.

Where the code and the project's design description disagree, the model
follows the code. The description mentions a per-category threshold gate
and a per-category contribution estimate. The comparison script computes
neither: it only reports the per-category deltas. The model has no such
gate.

Decisions that depend on I/O, clocks, the environment or a detector call
are made by parameters:
- label-file contents;
- `QR_BENCH_LIMIT`;
- image loading;
- detector telemetry;
- decode outcomes.

## Model

| member | source | states |
|---|---|---|
| Wrappers.Min | src/decoder/function_mask.rs:107-108 | `min`: no larger than either argument and equal to one of them |
| Wrappers.Max | src/pipeline.rs:1066 | `max`: no smaller than either argument and equal to one of them |
| Wrappers.SatSub | src/decoder/function_mask.rs:105-106 | `saturating_sub` on unsigned values: a - b when b <= a, otherwise 0; never above a |
| Bits.Pow2 | src/decoder/version.rs:31-40 | 2^n is at least 1 |
| Bits.PackBitsBound | src/decoder/version.rs:31-40 | n bits packed most significant first stay below 2^n |
| Bits.PackBitsSnoc | src/decoder/version.rs:38 | the shift-left-and-or is the packing of the bits so far followed by the new bit |
| Bits.PackBitsStep | src/decoder/qr_decoder/payload.rs:290-295 | the packed value of one more bit is twice the old value plus that bit |
| Bits.UnpackBits | src/decoder/qr_decoder/payload.rs:174-176 | writing a value as n bits gives n bits |
| Bits.PackUnpack | src/decoder/qr_decoder/payload.rs:171-180 | reading back a value written as n bits gives it modulo 2^n |
| Bits.UnpackPack | src/decoder/qr_decoder/payload.rs:171-180 | writing back a packed bit sequence at its own length gives the bits |
| Bits.ReadValue | src/decoder/qr_decoder/payload.rs:286-296 | the loop of `read_bits` returns the n bits at `start`, packed most significant first |
| Bits.Octet | src/decoder/qr_decoder/payload.rs:74-81 | the eight bits at i packed most significant first |
| Bits.Expand | src/decoder/qr_decoder/payload.rs:171-178 | `decode_payload`'s conversion gives eight bits per byte |
| Bits.ExpandChunk | src/decoder/qr_decoder/payload.rs:173-177 | byte k's bits sit at 8k..8k+8, most significant first |
| Bits.OctetOfExpand | src/decoder/qr_decoder/payload.rs:71-178 | packing the eight bits of byte k reads back byte k |
| Bits.PackUnpackByte | src/decoder/qr_decoder/payload.rs:174-177 | a byte written as eight bits reads back as itself |
| Search.First | src/decoder/format.rs:130-135 | the lowest index in i..n that passes, if any: the first-hit scan of the correction loops |
| Search.FirstNone | src/decoder/format.rs:130-135 | the scan finds nothing exactly when no index in range passes |
| Search.FirstFound | src/decoder/format.rs:130-135 | a found index passes and no earlier index in range does |
| Search.FirstIsLowest | src/decoder/version.rs:93-98 | the lowest passing index is what the scan returns |
| Utf8.StepAt | src/decoder/modes/byte.rs:25-28 | one decoding step consumes at least one and at most the remaining bytes; a scalar consumes the width its lead byte announces |
| Utf8.EncodeChar | src/decoder/qr_decoder/payload.rs:203 | `as_bytes` writes a character as one to four bytes |
| Utf8.EncodeAscii | src/decoder/qr_decoder/payload.rs:203-212 | an ASCII string's bytes are its characters' codes, one each |
| Utf8.EncodeAppend | src/decoder/qr_decoder/payload.rs:203-204 | the bytes of a concatenation are the concatenated bytes |
| Utf8.StepEncodes | src/decoder/modes/byte.rs:25-28 | the bytes a scalar step consumes are exactly that character's encoding |
| Utf8.DecodeEncode | src/decoder/modes/byte.rs:25-28 | `String::from_utf8` of a string's bytes gives back the string |
| Utf8.DecodeScalar | src/decoder/modes/byte.rs:25-28 | a valid sequence starts with a scalar followed by a valid rest |
| Utf8.EncodeDecode | src/decoder/modes/byte.rs:25-28 | bytes that decode re-encode to themselves: strict decoding is injective |
| Utf8.LossyAgrees | src/decoder/qr_decoder/payload.rs:224 | `from_utf8_lossy` of valid bytes equals strict decoding |
| Utf8.LossyMarksInvalid | src/decoder/qr_decoder/payload.rs:224-255 | `from_utf8_lossy` of invalid bytes contains U+FFFD |
| Utf8.DecodeAscii | src/decoder/modes/byte.rs:25-28 | bytes below 0x80 decode to one character each with the same code |
| Matrix.Blank | src/models/matrix.rs:11-18 | a well-formed w x h grid with every cell false, the value of a fresh matrix |
| Matrix.SetCell | src/models/matrix.rs:42-54 | same dimensions; cell (x, y) becomes v when in bounds and every other cell is unchanged; out of bounds nothing changes |
| Matrix.ToggleCell | src/models/matrix.rs:57-65 | same dimensions; cell (x, y) is negated when in bounds and every other cell is unchanged |
| Matrix.GridExt | src/models/matrix.rs:3-7 | two well-formed grids of equal dimensions that agree on every cell are equal |
| Matrix.ToggleTwice | src/models/matrix.rs:57-65 | toggling a cell twice restores the grid |
| Matrix.SetThenGet | src/models/matrix.rs:31-54 | after `set(x, y, v)` in bounds, `get(x, y)` is v and every other cell reads as before |
| Matrix.SetByteBit | src/models/matrix.rs:49-50 | setting bit k of the byte sets bit k and keeps the other seven bits |
| Matrix.ClearByteBit | src/models/matrix.rs:51-52 | `byte &= !(1 << k)` clears bit k and keeps the other seven bits |
| Matrix.FlipByteBit | src/models/matrix.rs:64 | `byte ^= 1 << k` negates bit k and keeps the other seven bits |
| Matrix.StoreBitAt | src/models/matrix.rs:46-53 | storing bit i of the byte buffer changes bit i only and keeps the length |
| Matrix.FlipBitAt | src/models/matrix.rs:61-64 | flipping bit i of the byte buffer negates bit i only and keeps the length |
| Matrix.IndexFacts | src/models/matrix.rs:12-37 | an in-bounds cell's index `y*width+x` is below w*h, so its byte lies inside the `(w*h+7)/8` bytes |
| Matrix.IndexInjective | src/models/matrix.rs:35-37 | two in-bounds cells with the same row-major index are the same cell |
| Matrix.StoreEncodes | src/models/matrix.rs:42-54 | storing the bit of cell (x, y) in the buffer encodes exactly the grid with that cell set |
| Matrix.FlipEncodes | src/models/matrix.rs:57-65 | flipping the bit of cell (x, y) encodes exactly the grid with that cell toggled |
| Matrix.BitMatrix.constructor | src/models/matrix.rs:11-18 | `new(w, h)` allocates `(w*h+7)/8` zero bytes encoding the blank w x h grid |
| Matrix.BitMatrix.Get | src/models/matrix.rs:31-39 | returns the cell, false outside the matrix |
| Matrix.BitMatrix.Set | src/models/matrix.rs:42-54 | the new grid is `SetCell` of the old one (out-of-bounds writes ignored) |
| Matrix.BitMatrix.Toggle | src/models/matrix.rs:57-65 | the new grid is `ToggleCell` of the old one |
| Matrix.BitMatrix.Clear | src/models/matrix.rs:68-70 | every byte zeroed: the grid becomes blank with the same dimensions |
| Matrix.BitMatrix.Clone | src/models/matrix.rs:1-7 | `#[derive(Clone)]`: a fresh matrix with its own buffer and the same dimensions and grid |
| QrCode.Size | src/models/qr_code.rs:25-37 | Model 1 and Model 2 sizes are 4v+17 (at least 17, 1 mod 4, giving back v); Micro M1-M4 are 11, 13, 15, 17 and anything else 0 |
| QrCode.SizeDeterminesNumber | src/models/qr_code.rs:16-37 | for Model 1/2 versions, equal sizes and equal version numbers imply each other |
| QrCode.LevelIndex | src/models/qr_code.rs:47-56 | the discriminant of an EC level is below 4 |
| QrCode.LevelFromBits | src/models/qr_code.rs:60-68 | `from_bits` always succeeds and the level's discriminant is `bits & 3` |
| QrCode.LevelFromBitsInverse | src/models/qr_code.rs:60-68 | `from_bits` inverts the discriminant and ignores all but the low two bits |
| QrCode.EcCodewords | src/models/qr_code.rs:71-89 | the simplified total is base times (level + 1), with base 7/10/15/20 for Model 2 v1/v2/v3/other and 7 otherwise; always 7..=80 |
| QrCode.EcCodewordsMonotone | src/models/qr_code.rs:83-88 | a higher EC level always gets strictly more codewords for the same version |
| QrCode.MaskIndex | src/models/qr_code.rs:94-111 | the discriminant of a mask pattern is below 8 |
| QrCode.MaskFromBits | src/models/qr_code.rs:115-127 | `from_bits` always succeeds and the pattern's discriminant is `bits & 7` |
| QrCode.MaskFromBitsInverse | src/models/qr_code.rs:115-127 | `from_bits` inverts the discriminant and ignores all but the low three bits |
| QrCode.MaskSymmetry | src/models/qr_code.rs:130-141 | patterns 0, 3, 5, 6 and 7 are symmetric in (i, j); patterns 1, 2 and 4 are not (witness cells given) |
| QrCode.Pattern5Within6 | src/models/qr_code.rs:137-138 | every module pattern 5 masks, pattern 6 masks too |
| QrCode.Pattern0Samples | src/models/qr_code.rs:132 | pattern 0 masks (0,0) and (1,1) but not (0,1) |
| EcTables.EccEntryWithin | src/decoder/tables.rs:10-27 | every `ECC_CODEWORDS_PER_BLOCK` entry for versions 1..=40 lies in 7..=30 (the -1 placeholders sit at version 0 only) |
| EcTables.BlockEntryWithin | src/decoder/tables.rs:29-46 | every `NUM_ERROR_CORRECTION_BLOCKS` entry for versions 1..=40 lies in 1..=81 |
| EcTables.EcLevelIndex | src/decoder/tables.rs:64-71 | `ec_level_index` is the level's discriminant L=0, M=1, Q=2, H=3 |
| EcTables.EcBlockInfoFor | src/decoder/tables.rs:48-62 | Some exactly for versions 1..=40 (the `<= 0` guard never fires there), with the two table entries for the level and version |
| EcTables.EcBlockInfoCorners | src/decoder/tables.rs:10-62 | 1-L is one block of 7 ECC codewords and 40-H is 81 blocks of 30 |
| Bch.Ones | src/decoder/bch.rs:30-33 | the number of set bits among the lowest k bits is at most k (the count behind `count_ones`) |
| Bch.OnesFlipLow | src/decoder/bch.rs:30-33 | flipping bit 0 changes the number of set bits by exactly one, down if it was set, up if not |
| Bch.FlipLowChangesParity | src/decoder/bch.rs:21-33 | flipping bit 0 always changes the parity verdict of `check_format` |
| Bch.CorrectedFormatClosedForm | src/decoder/bch.rs:12-28 | `correct_format` refuses zero, returns an even-parity word unchanged, and otherwise returns the word with bit 0 flipped; every result has even parity |
| Bch.CorrectFormat | src/decoder/bch.rs:12-28 | the early returns and the 15-step flip loop compute the closed form: None for 0, the word itself when its parity is even, else the word with bit 0 flipped |
| Bch.DecodeFormat | src/decoder/bch.rs:6-10 | `decode_format` succeeds exactly for a non-zero word, and then gives an EC index below 4 and a mask below 8 |
| Bch.DecodeFormatReadsOwnBits | src/decoder/bch.rs:6-28 | the parity correction never touches the data bits: a non-zero word decodes to its own bits 14-13 and 12-10 |
| Bch.DecodeFormatSample | src/decoder/bch.rs:40-44 | the unit test word 0b00101_1111001100 is accepted and decodes to EC bits 0 and mask 5 |
| Format.Round | src/decoder/format.rs:156-161 | one round of `check_format`'s loop: xor the shifted generator when bit 14 is set, then shift left, with u16 truncation |
| Format.CheckFormat | src/decoder/format.rs:150-165 | the five-round loop returns true exactly when the word is a codeword (`IsCodeword`, the 10-bit syndrome left after five rounds is zero) |
| Format.SampleCodewords | src/decoder/format.rs:150-165 | 0 (the unit test), the generator 0x537 and 0x14DC pass `check_format`; the bch.rs test word 0x17CC does not |
| Format.CorrectSound | src/decoder/format.rs:121-148 | whatever the three-stage search returns is accepted by the checker and is the word, a single flip of one of its 15 bits, or a double flip of two distinct bits |
| Format.SinglesNone | src/decoder/format.rs:130-135 | the single-flip loop finds nothing exactly when no single flip is accepted |
| Format.PairsNone | src/decoder/format.rs:138-145 | the nested double-flip loops find nothing exactly when no double flip i < j is accepted |
| Format.PairFound | src/decoder/format.rs:138-145 | a row of the double-flip loop that reports a hit has an accepted partner j > i |
| Format.CorrectNone | src/decoder/format.rs:121-148 | the search fails exactly when the word, every single flip and every double flip are refused |
| Format.CorrectSingle | src/decoder/format.rs:125-135 | a refused word whose lowest accepted single flip is bit k is corrected by that flip (the loop's first-hit order) |
| Format.CorrectedErrorsSound | src/decoder/format.rs:121-148 | every result of `correct_errors` passes `check_format` and lies within two bit flips of the input |
| Format.CorrectedErrorsNone | src/decoder/format.rs:121-148 | `correct_errors` returns None exactly when no word within two flips passes `check_format` |
| Format.CorrectedErrorsSingle | src/decoder/format.rs:125-135 | a failing word whose lowest passing single flip is bit k is corrected by that flip |
| Format.CorrectsSampleError | src/decoder/format.rs:121-148 | the codeword 0x14DC with bit 3 in error (0x14D4) is restored |
| Format.SearchPairs | src/decoder/format.rs:139-144 | the inner loop over j in i+1..15 returns the first accepted double flip of row i, or None |
| Format.CorrectErrors | src/decoder/format.rs:121-148 | the method with its early returns and three loops computes `CorrectedErrors` |
| Format.Decode | src/decoder/format.rs:100-119 | succeeds exactly when correction succeeds, and the EC level and mask are bits 14-13 and 12-10 of the corrected word |
| Format.RowStripCells | src/decoder/format.rs:55-70 | row 8, columns 0-7 without column 6: seven cells |
| Format.ColumnStripCells | src/decoder/format.rs:72-87 | column 8, rows 7 down to 0 without row 6: seven cells |
| Format.TopLeftCells | src/decoder/format.rs:49-87 | the two strips together: fourteen cells, in reading order |
| Format.ReadRowStrip | src/decoder/format.rs:52-70 | the first loop reads seven cells and packs them most significant bit first |
| Format.ReadColumnStrip | src/decoder/format.rs:72-87 | the second loop adds seven cells to the count and appends them to the packed bits |
| Format.ReadFormatBitsTopLeft | src/decoder/format.rs:38-97 | always None: narrower than 21 returns early, and otherwise only 14 bits are read where the final check asks for 15 |
| Format.Extract | src/decoder/format.rs:13-36 | `extract` never finds format information, because its reader always returns None |
| Version.Round | src/decoder/version.rs:108-113 | one round of `check_version`'s loop: xor the shifted generator 0x1f25 << 5 when bit 17 is set, then shift left, with u32 truncation |
| Version.CheckVersion | src/decoder/version.rs:103-117 | the six-round loop returns true exactly when the 12-bit syndrome of the word is zero (`IsCodeword`) |
| Version.SampleCodewords | src/decoder/version.rs:103-117 | 0 (the unit test) and the standard's version 7 and 40 words 0x07C94 and 0x28C69 pass; 0x07C95 does not |
| Version.CorrectSound | src/decoder/version.rs:86-101 | whatever the search returns is accepted and is the word itself or one of its 18 single flips |
| Version.CorrectNone | src/decoder/version.rs:86-101 | the search fails exactly when the word and all 18 single flips are refused |
| Version.CorrectSingle | src/decoder/version.rs:86-101 | a refused word whose lowest accepted flip is bit k is corrected by that flip |
| Version.CorrectedErrorsSound | src/decoder/version.rs:86-101 | every result of `correct_errors` passes `check_version` and is the word or a single flip of it; a passing word comes back unchanged |
| Version.CorrectedErrorsNone | src/decoder/version.rs:86-101 | `correct_errors` returns None exactly when neither the word nor any single flip passes |
| Version.CorrectedErrorsSingle | src/decoder/version.rs:92-98 | a failing word whose lowest passing flip is bit k is corrected by that flip |
| Version.CorrectErrors | src/decoder/version.rs:86-101 | the early return and the flip loop compute `CorrectedErrors` |
| Version.Decode | src/decoder/version.rs:60-72 | succeeds exactly when correction succeeds and the top bits (`>> 12` as u8) give a version in 7..=40, and then returns that version |
| Version.DecodeSamples | src/decoder/version.rs:60-72 | the version 7 and 40 words decode to 7 and 40; the version 7 word with bit 0 in error still decodes to 7 |
| Version.DecodeWithCorrection | src/decoder/version.rs:74-84 | the first copy's version when it decodes, otherwise the second copy's; None exactly when neither decodes |
| Version.DecodeWithCorrectionSame | src/decoder/version.rs:17-26 | with two equal copies, `decode_with_correction` is `decode` of one, so the `==` branch of `extract` is the general case |
| Version.TopRightCells | src/decoder/version.rs:29-43 | the 18 cells below the top-right finder, rows 0-5 and columns size-11..size-9 |
| Version.BottomLeftCells | src/decoder/version.rs:45-58 | the 18 cells beside the bottom-left finder, columns 0-5 and rows size-11..size-9 |
| Version.TopRightAt | src/decoder/version.rs:35-39 | step j of row `row` of the nested loop reads cell (size-11+j, row), which is entry 3*row+j of the sequence |
| Version.BottomLeftAt | src/decoder/version.rs:50-54 | step j of column `col` reads cell (col, size-11+j), entry 3*col+j |
| Version.EighteenBitsFit | src/decoder/version.rs:31-40 | eighteen packed cells stay below 2^18, so the u32 the shift-left-and-or never loses a bit |
| Version.ReadVersionBitsTopRight | src/decoder/version.rs:29-43 | the nested loop returns the 18 top-right cells packed most significant first |
| Version.ReadVersionBitsBottomLeft | src/decoder/version.rs:45-58 | the nested loop returns the 18 bottom-left cells packed most significant first |
| Version.ExtractMeaning | src/decoder/version.rs:9-27 | narrower than 45 gives None; otherwise the top-right copy's version if it decodes, else the bottom-left copy's; any version found is in 7..=40 |
| Version.Extract | src/decoder/version.rs:9-27 | `extract` computes `ExtractSpec` on the matrix's grid |
| FunctionMask.PositionsWithStep | src/decoder/function_mask.rs:132-139 | the fill loop writes 6 first and then counts down from size-7 in steps of `step` from the last entry back to entry 1, giving `Centres(version, step)` (an `isize` below zero is reinterpreted as `usize`) |
| FunctionMask.AlignmentPatternPositions | src/decoder/function_mask.rs:118-140 | as written: the centres for the rounded-up spacing `StepAsWritten` (26 for version 32), none for version 1 |
| FunctionMask.CentresShape | src/decoder/function_mask.rs:118-140 | version 1 has no centres; otherwise n = version/7 + 2 centres, the first 6, the last size-7, and neighbours `step` apart wherever the countdown stayed non-negative |
| FunctionMask.Version32Step | src/decoder/function_mask.rs:124-125 | version 32 is special-cased to spacing 26 in both the as-written and the Annex E formula |
| FunctionMask.CentresAsWrittenVersion7 | src/decoder/function_mask.rs:124-129 | finding: the rounded-up spacing puts version 7's centres at [6, 20, 38], not the [6, 22, 38] of Annex E of ISO/IEC 18004 |
| FunctionMask.SpacedMeans | src/decoder/function_mask.rs:135-138 | a row whose entries from i on are `step` apart has entry k equal to the last entry minus (last index - k) steps |
| FunctionMask.CentresEqual | src/decoder/function_mask.rs:132-139 | any row of the right length starting at 6, ending at size-7 and evenly spaced is exactly `Centres(version, step)` |
| FunctionMask.AnnexELowRowsFit | src/decoder/function_mask.rs:118-140 | the Annex E rows for versions 2..19 have the shape the countdown produces (length, ends, constant spacing `Step`) |
| FunctionMask.AnnexEHighRowsFit | src/decoder/function_mask.rs:118-140 | the same for versions 20..40 |
| FunctionMask.CentresMatchAnnexE | src/decoder/function_mask.rs:118-140 | corrected half: with the quotient rounded down (`Step`), the countdown reproduces the Annex E table for every version 1..40 |
| FunctionMask.FunctionGrid | src/decoder/function_mask.rs:11-76 | the mask `new` builds as a grid: side 17+4v and a cell is set exactly when it is a function module as the source marks them (`FunctionModule`) |
| FunctionMask.MarkRect | src/decoder/function_mask.rs:103-114 | the nested loop sets every in-bounds cell of the rectangle and leaves every other cell as it was |
| FunctionMask.MarkFinderArea | src/decoder/function_mask.rs:103-114 | `mark_finder_area` sets the 7x7 finder plus its one-module border, clipped by `saturating_sub` and `min(size)`, and nothing else |
| FunctionMask.MarkFinders | src/decoder/function_mask.rs:15-18 | on a blank mask, the three calls mark exactly the top-left, top-right and bottom-left finder areas |
| FunctionMask.MarkTiming | src/decoder/function_mask.rs:20-24 | the loop adds exactly row 6 and column 6 |
| FunctionMask.MarkAlignment | src/decoder/function_mask.rs:26-48 | the nested loops add exactly the 5x5 blocks of the centre pairs that are not finder corners, clipped to the symbol |
| FunctionMask.MarkFormat | src/decoder/function_mask.rs:50-60 | the two loops add exactly the format strips: row/column 8 up to 8 without the timing cell, and the last eight cells of row and column 8 |
| FunctionMask.MarkVersion | src/decoder/function_mask.rs:65-73 | from version 7, adds the 3x6 block at (size-11.., 0..6) and, as written, the transposed 3-wide, 6-tall block at (0..3, size-11..size-5) |
| FunctionMask.MarkStructure | src/decoder/function_mask.rs:15-48 | a blank mask ends with exactly the finder, timing and as-written alignment modules |
| FunctionMask.MarkInformation | src/decoder/function_mask.rs:50-73 | adds exactly the format strips, the dark module (8, size-8) and the as-written version blocks |
| FunctionMask.Build | src/decoder/function_mask.rs:11-76 | the steps of `new` in order give a fresh matrix whose grid is `FunctionGrid(version)` |
| FunctionMask.RowsWiden | src/decoder/function_mask.rs:90-101 | counting one more column of each row adds that column's data modules |
| FunctionMask.RowsEqualsCols | src/decoder/function_mask.rs:90-101 | the row-by-row count of data modules equals the column-by-column count |
| FunctionMask.RowsZero | src/decoder/function_mask.rs:90-101 | rows of width zero hold no data modules |
| FunctionMask.TimingColumnEmpty | src/decoder/function_mask.rs:20-24 | column 6 holds no data modules |
| FunctionMask.RowRun | src/decoder/function_mask.rs:90-101 | a run of cells that are all function (or all data) adds 0 (or its length) to a row's count |
| FunctionMask.RowDataVersion1 | src/decoder/function_mask.rs:11-101 | per-row data counts of version 1: 0 on row 6, 4 on rows 0-8, 20 on rows 9-12, 12 on rows 13-20 |
| FunctionMask.TopRowsVersion1 | src/decoder/function_mask.rs:11-101 | the first nine rows of version 1 hold 32 data modules |
| FunctionMask.DataCountVersion1 | src/decoder/function_mask.rs:90-101 | `data_modules_count` of version 1 is 208 |
| FunctionMask.VersionCellsAreFunction | src/decoder/function_mask.rs:65-73 | corrected half: with both version blocks placed as src/decoder/version.rs reads them, all 18 cells of each copy are function modules from version 7 on |
| FunctionMask.VersionCellsAsWritten | src/decoder/function_mask.rs:65-73 | as written, the whole top-right copy is marked but only the first nine bits of the bottom-left copy |
| FunctionMask.VersionCellMissedAsWritten | src/decoder/function_mask.rs:67-71 | finding: bottom-left version bit 9, cell (3, 34) of version 7, is a function module by the standard and in the reader, but `new` leaves it unmarked |
| FunctionMask.FunctionMask.constructor | src/decoder/function_mask.rs:11-76 | `FunctionMask::new(version)`: a fresh mask holding exactly `FunctionGrid(version)` |
| FunctionMask.FunctionMask.Size | src/decoder/function_mask.rs:78-80 | the mask's side is 17 + 4 * version |
| FunctionMask.FunctionMask.IsFunction | src/decoder/function_mask.rs:86-88 | `is_function(x, y)` is the mask bit, which is `FunctionModule(version, x, y)`, false outside the symbol |
| FunctionMask.FunctionMask.DataModulesCount | src/decoder/function_mask.rs:90-101 | the nested counting loop returns the number of cells that are not function modules, `DataCount(version)` |
| Bitstream.Read | src/decoder/bitstream.rs:44-62 | reading a list of cells yields one bit per cell |
| Bitstream.ReadAppend | src/decoder/bitstream.rs:22-71 | reading two cell lists one after the other is reading their concatenation, so bits pushed pair by pair are the bits of the whole walk |
| Bitstream.WalkStep | src/decoder/bitstream.rs:27-69 | one pass of the outer loop: the cells read so far plus this pair's sweep plus the walk from col-2 with the direction flipped make up the whole walk |
| Bitstream.ReadCell | src/decoder/bitstream.rs:41-50 | a column that exists (`>= 0`) and is a data module in that row contributes its bit; otherwise nothing (`is_data_module` is `!is_function`) |
| Bitstream.ReadRow | src/decoder/bitstream.rs:41-50 | one row of a column pair: the first column's bit, then the second's, each only for a data module |
| Bitstream.SweepPair | src/decoder/bitstream.rs:39-65 | the inner loop reads the pair over all `dimension` rows, bottom-up when `upward` and top-down otherwise |
| Bitstream.ReadPair | src/decoder/bitstream.rs:33-65 | the pair starts at `col`; `swap_columns` reads col-1 before col in each row |
| Bitstream.ExtractWithOptions | src/decoder/bitstream.rs:15-72 | the bits are the matrix read along `Order`: column pairs from dimension-1 leftwards, column 6 stepped over, direction alternating, data modules only |
| Bitstream.RowWithin | src/decoder/bitstream.rs:41-62 | one row of a pair reads only cells of that row in columns col-1..col, none twice |
| Bitstream.SweepWithin | src/decoder/bitstream.rs:39-65 | a sweep reads only cells of its two columns in the rows swept so far, none twice |
| Bitstream.OrderWithin | src/decoder/bitstream.rs:27-69 | the whole walk reads only cells of columns 0..col and rows 0..dimension, none twice |
| Bitstream.OrderSkipsTimingColumn | src/decoder/bitstream.rs:28-31 | starting on an even column (or left of 6), the walk never reads column 6 |
| Bitstream.SweepHas | src/decoder/bitstream.rs:39-65 | every data cell of the pair's columns in the swept rows is read |
| Bitstream.OrderHas | src/decoder/bitstream.rs:27-69 | every data cell left of and in the start column, except column 6, is read |
| Bitstream.OrderSplit | src/decoder/bitstream.rs:33-68 | a walk from a pair column is that pair's sweep followed by the walk from col-2 with the direction reversed |
| Bitstream.DataInColumnAgrees | src/decoder/function_mask.rs:90-101 | the data count of a column of the function grid is the one `FunctionMask` counts |
| Bitstream.DataInColumnsAgrees | src/decoder/function_mask.rs:90-101 | the same for the first w columns |
| Bitstream.SweepLength | src/decoder/bitstream.rs:39-65 | a sweep of a pair emits as many bits as the two columns hold data modules |
| Bitstream.OrderLength | src/decoder/bitstream.rs:27-69 | with column 6 empty, the walk from col emits as many bits as columns 0..col hold data modules |
| Bitstream.PairLength | src/decoder/bitstream.rs:27-69 | one loop pass adds the data modules of columns col-1 and col |
| Bitstream.WalkProperties | src/decoder/bitstream.rs:15-72 | on an odd side of at least 7 with column 6 empty, the walk emits as many cells as there are data modules, all distinct, all inside the square, none in column 6 |
| Bitstream.SymbolWalk | src/decoder/bitstream.rs:15-72 | the walk over a symbol's own function grid has all those properties, in every direction and column order |
| Bitstream.ExtractLength | src/decoder/bitstream.rs:15-72 | read at the symbol's own size, the walk emits exactly `data_modules_count` bits, whatever `start_upward` and `swap_columns` |
| Bitstream.WalkCovers | src/decoder/bitstream.rs:27-69 | on an odd side of at least 7 every data cell outside column 6 is read |
| Bitstream.WalkSwap | src/decoder/bitstream.rs:33-37 | swapping the columns of each pair reorders the cells read but reads the same cells, as many |
| Bitstream.ExtractEmitsData | src/decoder/bitstream.rs:15-77 | every cell the symbol's walk reads is a distinct in-symbol data module outside column 6 |
| Bitstream.ExtractEmitsAllData | src/decoder/bitstream.rs:15-77 | every data module of the symbol outside column 6 is read |
| Bitstream.SideShape | src/decoder/function_mask.rs:12 | the symbol side is odd and at least 17, so the walk starts on an even column |
| Bitstream.MaskCell | src/decoder/bitstream.rs:75-77 | `is_function` on the mask's grid is `FunctionModule` |
| Bitstream.SwapReordersOnly | src/decoder/bitstream.rs:33-37 | for a symbol, `swap_columns` changes only the order of the bits read, not which modules or how many |
| Unmask.Unmasked | src/decoder/unmask.rs:6-18 | same dimensions; a cell is inverted exactly when it is a data module and the mask formula holds for (row, column) |
| Unmask.UnmaskTwice | src/decoder/unmask.rs:6-18 | unmasking twice with the same pattern and function mask restores the matrix |
| Unmask.UnmaskKeepsUnmasked | src/decoder/unmask.rs:12 | function modules and cells the pattern does not select keep their value |
| Unmask.UnmaskSample | src/decoder/unmask.rs:25-41 | the unit test: pattern 0 on version 1 inverts data cell (10, 10) |
| Unmask.Unmask | src/decoder/unmask.rs:6-18 | the nested loop leaves the matrix holding `Unmasked` of its old grid with the function grid of the mask's version |
| Unmask.UnmaskRow | src/decoder/unmask.rs:11-16 | the inner loop over x unmasks row y and keeps all later rows as they were |
| Alphanumeric.PairText | src/decoder/modes/alphanumeric.rs:31-37 | a pair value gives both characters or none (none when value / 45 is out of the table) |
| Alphanumeric.SingleText | src/decoder/modes/alphanumeric.rs:52-54 | a single value gives one character or none |
| Alphanumeric.PairStep | src/decoder/modes/alphanumeric.rs:20-40 | with two or more characters left and 11 bits available, one loop step reads the 11-bit value, appends its pair text and goes on 11 bits later with two characters fewer |
| Alphanumeric.SingleStep | src/decoder/modes/alphanumeric.rs:41-57 | with one character left and 6 bits available, the step appends the single text and ends 6 bits later |
| Alphanumeric.Decode | src/decoder/modes/alphanumeric.rs:14-62 | the loop with its inner 11-bit and 6-bit reads returns `Groups(bits, 0, character_count)` |
| Alphanumeric.GroupsConsumed | src/decoder/modes/alphanumeric.rs:14-62 | on success the bit index is 11 per pair plus 6 for an odd last character, and at most `character_count` characters come out |
| Alphanumeric.GroupsFailIff | src/decoder/modes/alphanumeric.rs:22-45 | decoding fails exactly when the bits needed for `character_count` characters run past the input |
| Alphanumeric.OutOfRangePair | src/decoder/modes/alphanumeric.rs:34-37 | a pair value of 45*45 or more is skipped silently: no characters, but the 11 bits and two characters are consumed |
| Alphanumeric.OnePair | src/decoder/modes/alphanumeric.rs:19-40 | eleven bits and two characters give that pair's text and 11 consumed bits |
| Alphanumeric.PairValue | src/decoder/modes/alphanumeric.rs:31-36 | eleven bits worth 45a+b with a, b < 45 decode to table characters a and b |
| Alphanumeric.PairRoundTrip | src/decoder/modes/alphanumeric.rs:19-40 | encoding 45a+b in 11 bits and decoding two characters gives back table characters a and b |
| Alphanumeric.SampleA1 | src/decoder/modes/alphanumeric.rs:70-79 | the unit test: 451 in 11 bits decodes to "A1" |
| Numeric.Decimal | src/decoder/modes/numeric.rs:37 | `format!("{}")` of a value is a non-empty string of digits |
| Numeric.ZeroPadded | src/decoder/modes/numeric.rs:35-36 | `format!("{:0w}")` is a string of digits of at least w characters |
| Numeric.GroupsStep | src/decoder/modes/numeric.rs:14-44 | one loop step: group of min(remaining, 3) digits read from 10/7/4 bits, formatted zero-padded, then the rest |
| Numeric.Decode | src/decoder/modes/numeric.rs:9-47 | the loop returns `Groups(bits, 0, character_count)` |
| Numeric.GroupsConsumed | src/decoder/modes/numeric.rs:9-47 | on success the bit index is 10 per full group plus 7 or 4 for the rest and the text is all digits |
| Numeric.GroupsFailIff | src/decoder/modes/numeric.rs:23-25 | decoding fails exactly when the bits needed for the digits run past the input |
| Numeric.DecimalValue | src/decoder/modes/numeric.rs:37 | the decimal text reads back as the value |
| Numeric.ZeroPaddedMeaning | src/decoder/modes/numeric.rs:35-36 | zero-padded text reads back as the value, and has exactly width w iff the value is below 10^w (a 10-bit group 1000..1023 gives four digits) |
| Numeric.DecimalAtLeast | src/decoder/modes/numeric.rs:35 | a value of 10^w or more needs more than w digits |
| Numeric.Sample1017 | src/decoder/modes/numeric.rs:55-63 | the unit test: 1017 in 10 bits with three characters decodes to "1017" using 10 bits |
| ByteMode.Bytes | src/decoder/modes/byte.rs:10-22 | count bytes, each packed from eight bits most significant first |
| ByteMode.Decode | src/decoder/modes/byte.rs:6-29 | the loop and the UTF-8 conversion compute `DecodeSpec` |
| ByteMode.DecodeUses | src/decoder/modes/byte.rs:10-22 | on success exactly 8*count bits are consumed; fewer bits than that give None |
| ByteMode.DecodeStrict | src/decoder/modes/byte.rs:25-28 | with enough bits, decoding fails exactly when the bytes are not valid UTF-8 |
| ByteMode.BytesOfExpand | src/decoder/modes/byte.rs:15-18 | reading back bytes written out as bits gives the bytes |
| ByteMode.RoundTrip | src/decoder/modes/byte.rs:6-29 | any string written as its UTF-8 bytes decodes to itself using 8 bits per byte |
| ByteMode.SampleHI | src/decoder/modes/byte.rs:37-49 | the unit test: bytes 0x48 0x49 decode to "HI", 16 bits |
| Payload.BitReader.constructor | src/decoder/qr_decoder/payload.rs:270-272 | `BitReader::new` holds the bits with the cursor at 0 |
| Payload.BitReader.Remaining | src/decoder/qr_decoder/payload.rs:274-276 | `len - idx` saturating at 0 |
| Payload.BitReader.Advance | src/decoder/qr_decoder/payload.rs:282-284 | the cursor becomes min(idx + n, len) and stays within the bits |
| Payload.BitReader.ReadBits | src/decoder/qr_decoder/payload.rs:286-296 | past the end: None and the cursor does not move; otherwise the n bits at the cursor packed into a u32 (mod 2^32) and the cursor advanced by n |
| Payload.WrapStep | src/decoder/qr_decoder/payload.rs:292 | the shift-left-and-or on a u32 is the next packed value mod 2^32 |
| Payload.NoWrap | src/decoder/qr_decoder/payload.rs:290-295 | up to 16 bits never wrap, so counts and bytes read exactly |
| Payload.CharCountBits | src/decoder/qr_decoder/payload.rs:299-329 | at most 16, and 0 exactly for modes other than 1, 2 and 4 |
| Payload.CharCountTable | src/decoder/qr_decoder/payload.rs:299-329 | non-decreasing in the version; 10/12/14 (numeric), 9/11/13 (alphanumeric), 8/16/16 (byte) for versions up to 9 / 26 / 40 |
| Payload.KanjiCountIsEmpty | src/decoder/qr_decoder/payload.rs:240-327 | `char_count_bits(8, v)` is 0, so a Kanji segment always has count 0 |
| Payload.TextSegment | src/decoder/qr_decoder/payload.rs:197-214 | a numeric or alphanumeric segment succeeds exactly when the mode decoder does, and ends within the bits |
| Payload.ByteSegment | src/decoder/qr_decoder/payload.rs:215-225 | a byte segment succeeds exactly when 8*count bits remain |
| Payload.KanjiCode | src/decoder/qr_decoder/payload.rs:245-250 | the Shift JIS code of a 13-bit value fits 16 bits |
| Payload.KanjiPair | src/decoder/qr_decoder/payload.rs:251-252 | each value gives two bytes, high then low |
| Payload.KanjiValue | src/decoder/qr_decoder/payload.rs:244 | a 13-bit read is below 0x2000 |
| Payload.KanjiBytes | src/decoder/qr_decoder/payload.rs:242-253 | count values give 2*count bytes |
| Payload.KanjiSegment | src/decoder/qr_decoder/payload.rs:237-256 | a Kanji segment succeeds exactly when 13*count bits remain |
| Payload.Segment | src/decoder/qr_decoder/payload.rs:196-258 | a segment that succeeds ends at or after its start and within the bits |
| Payload.ReadCount | src/decoder/qr_decoder/payload.rs:199-241 | reading a count of at most 16 bits fails past the end; otherwise it is the packed bits, below 2^width, and the cursor moves by width |
| Payload.ReadText | src/decoder/qr_decoder/payload.rs:197-214 | the numeric/alphanumeric arm: count, mode decoder on the rest, `advance(used)` agree with `Segment` for the mode |
| Payload.ReadBytes | src/decoder/qr_decoder/payload.rs:215-225 | the byte arm agrees with `Segment` for mode 4 |
| Payload.ReadByteValues | src/decoder/qr_decoder/payload.rs:218-222 | the loop of 8-bit reads fails when 8*count bits are not there, otherwise returns the count octets and moves the cursor by 8*count |
| Payload.SliceBytes | src/decoder/qr_decoder/payload.rs:215-225 | the bytes read at `start` are the byte decoder's bytes of the bits from `start` |
| Payload.OctetsAt | src/decoder/qr_decoder/payload.rs:220 | byte j of the segment is the octet at start + 8j |
| Payload.ReadEci | src/decoder/qr_decoder/payload.rs:226-236 | the ECI arm agrees with `Segment` for mode 7 (designator read and ignored) |
| Payload.ReadKanji | src/decoder/qr_decoder/payload.rs:237-256 | the Kanji arm agrees with `Segment` for mode 8 |
| Payload.ReadKanjiValues | src/decoder/qr_decoder/payload.rs:243-253 | the loop of 13-bit reads fails when 13*count bits are not there, otherwise gives the Shift JIS pairs and moves the cursor by 13*count |
| Payload.ShiftJisPair | src/decoder/qr_decoder/payload.rs:245-252 | the u16 arithmetic of one Kanji value gives `KanjiPair(value)` |
| Payload.ReadSegment | src/decoder/qr_decoder/payload.rs:196-258 | the match on the mode agrees with `Segment`; an unknown mode is None |
| Payload.DecodePayloadFromBits | src/decoder/qr_decoder/payload.rs:182-262 | the loop returns the reference `Parse` of the bits from 0 |
| Payload.DecodePayload | src/decoder/qr_decoder/payload.rs:171-180 | the bytes expanded most significant bit first and then parsed |
| Payload.UnpackBitsAt | src/decoder/qr_decoder/payload.rs:174-175 | bit j of a value written as n bits is `(x >> (n-1-j)) & 1` |
| Payload.Codewords | src/decoder/qr_decoder/payload.rs:71-83 | `bits_to_codewords` gives floor(n/8) bytes, trailing bits dropped |
| Payload.BitsToCodewords | src/decoder/qr_decoder/payload.rs:71-83 | the loop returns `Codewords(bits)`, each byte the octet at 8k most significant first |
| Payload.PackLsbBound | src/decoder/qr_decoder/payload.rs:88-97 | an octet packed least significant first stays below 2^n |
| Payload.PackLsbSnoc | src/decoder/qr_decoder/payload.rs:91-93 | setting bit `bit` of the byte adds the new bit at weight 2^bit |
| Payload.OctetLsb | src/decoder/qr_decoder/payload.rs:88-97 | the eight bits at i with the first in bit 0 |
| Payload.CodewordsLsb | src/decoder/qr_decoder/payload.rs:85-99 | `bits_to_codewords_lsb` gives floor(n/8) bytes |
| Payload.BitsToCodewordsLsb | src/decoder/qr_decoder/payload.rs:85-99 | the loop returns `CodewordsLsb(bits)` |
| Payload.Reversed | src/decoder/qr_decoder/payload.rs:33-36 | reversal keeps the length |
| Payload.PackLsbReversed | src/decoder/qr_decoder/payload.rs:85-99 | packing least significant first is packing the reversed bits most significant first |
| Payload.LsbIsReversedOctet | src/decoder/qr_decoder/payload.rs:71-99 | each `_lsb` codeword is the MSB-first codeword of its octet reversed |
| Payload.CodewordsOfExpand | src/decoder/qr_decoder/payload.rs:71-178 | `bits_to_codewords` inverts `decode_payload`'s expansion |
| Payload.ExpandOfCodewords | src/decoder/qr_decoder/payload.rs:71-178 | on byte-aligned bits, expanding the codewords gives the bits back |
| Payload.ParseStops | src/decoder/qr_decoder/payload.rs:187-194 | fewer than four bits left or a 0 mode ends the loop with nothing more |
| Payload.UnknownModeFails | src/decoder/qr_decoder/payload.rs:257 | a mode outside {0, 1, 2, 4, 7, 8} fails the whole payload |
| Payload.KanjiSkipsOnlyIndicator | src/decoder/qr_decoder/payload.rs:237-256 | a Kanji indicator consumes only its four bits and adds nothing |
| Payload.KanjiSegmentEmpty | src/decoder/qr_decoder/payload.rs:240-256 | the Kanji segment is empty and ends where it starts |
| Payload.EciWidths | src/decoder/qr_decoder/payload.rs:226-236 | the ECI designator takes 8 bits below 0x80, 16 below 0xC0 and 24 otherwise |
| Payload.KanjiRoundTrip | src/decoder/qr_decoder/payload.rs:245-250 | every Shift JIS code of the two Kanji ranges with a valid low byte is what some 13-bit value maps to |
| Payload.ParseStep | src/decoder/qr_decoder/payload.rs:187-259 | one loop step: a non-zero mode with a successful segment prepends its data and text to the parse of the rest |
| Payload.ByteSegmentAt | src/decoder/qr_decoder/payload.rs:215-225 | a byte-mode segment whose count is the number of bytes parses as those bytes, their lossy text, then the rest |
| Payload.ByteSegmentOf | src/decoder/qr_decoder/payload.rs:215-225 | the byte segment after its indicator yields exactly the bytes written |
| Payload.ByteSegmentBytes | src/decoder/qr_decoder/payload.rs:218-224 | bits that are the expansion of some bytes read back as those bytes |
| Payload.NumericTripleAt | src/decoder/qr_decoder/payload.rs:197-205 | a numeric segment of three digits parses as the zero-padded value's bytes and text, then the rest |
| Payload.NumericTripleOf | src/decoder/qr_decoder/payload.rs:197-205 | the numeric segment of count 3 yields the zero-padded value and ends 20 bits later |
| Payload.AlphanumericPairAt | src/decoder/qr_decoder/payload.rs:206-214 | an alphanumeric segment of two characters parses as those characters, then the rest |
| Payload.AlphanumericPairOf | src/decoder/qr_decoder/payload.rs:206-214 | the alphanumeric segment of count 2 yields the two table characters |
| Payload.SampleByteHI | src/decoder/qr_decoder/payload.rs:171-262 | byte mode "HI" with a terminator gives data b"HI" and content "HI" |
| Payload.SampleNumeric123 | src/decoder/qr_decoder/payload.rs:171-262 | numeric "123" gives data "123" and content "123" |
| Payload.SampleAlphanumericAB | src/decoder/qr_decoder/payload.rs:171-262 | alphanumeric "AB" (461) gives "AB" |
| Payload.SampleMixed | src/decoder/qr_decoder/payload.rs:171-262 | numeric "123" then byte "ABC" gives "123ABC" |
| Payload.SampleEmpty | src/decoder/qr_decoder/payload.rs:187-194 | a terminator alone gives no codewords and an empty payload |
| Deinterleave.LayoutSplit | src/decoder/qr_decoder/payload.rs:117-120 | short blocks carry floor(data/blocks) bytes, the `data % blocks` long ones one more, and together they carry every data byte; at least one block is short |
| Deinterleave.DataIndexBound | src/decoder/qr_decoder/payload.rs:126-142 | the position data byte i of block b is dealt from lies in the data part of the stream |
| Deinterleave.EccIndexBound | src/decoder/qr_decoder/payload.rs:144-152 | the position ECC byte e of block b is dealt from lies after the data and within the stream |
| Deinterleave.LocateIsInverse | src/decoder/qr_decoder/payload.rs:126-142 | every data position of the stream is dealt to exactly one (block, index) and maps back to it |
| Deinterleave.LocateOfDataIndex | src/decoder/qr_decoder/payload.rs:126-142 | the (block, index) of a dealt position is the one it was dealt to, so the dealing is a bijection |
| Deinterleave.LocateEcc | src/decoder/qr_decoder/payload.rs:144-152 | every ECC position of the stream belongs to block `(q - data) % blocks` at index `(q - data) / blocks` |
| Deinterleave.DataPart | src/decoder/qr_decoder/payload.rs:126-142 | the first n data bytes of block b are the stream bytes at the interleaved positions |
| Deinterleave.EccPart | src/decoder/qr_decoder/payload.rs:144-152 | the first n ECC bytes of block b are the stream bytes at the interleaved positions |
| Deinterleave.Block | src/decoder/qr_decoder/payload.rs:122-152 | block b is its data bytes followed by its ECC bytes, each taken from its interleaved position |
| Deinterleave.OffsetClosed | src/decoder/qr_decoder/payload.rs:155-166 | block k's data starts at k*short plus the number of long blocks before it |
| Deinterleave.OffsetOfAll | src/decoder/qr_decoder/payload.rs:155-168 | the corrected data of all blocks fills exactly `data_total` bytes |
| Deinterleave.GatherFailureStays | src/decoder/qr_decoder/payload.rs:157-158 | once one block fails, the output stays None |
| Deinterleave.GatherSomeIff | src/decoder/qr_decoder/payload.rs:156-168 | the output is Some exactly when every block decodes |
| Deinterleave.GatherLength | src/decoder/qr_decoder/payload.rs:155-166 | the output of the first k blocks has the length of their data |
| Deinterleave.GatherAt | src/decoder/qr_decoder/payload.rs:165 | byte i of block b's data sits at offset(b) + i of the output and is the corrected block's byte i |
| Deinterleave.Outcomes | src/decoder/qr_decoder/payload.rs:154-158 | one Reed-Solomon outcome per block, each the decoder's outcome on that block |
| Deinterleave.LayoutOf | src/decoder/qr_decoder/payload.rs:106-115 | a layout exists exactly when the stream is longer than its ECC bytes (`total < ecc_total` and `data_total == 0` are both None) |
| Deinterleave.DeinterleaveVersions | src/decoder/qr_decoder/payload.rs:101-106 | a version outside 1..40 is None; otherwise the as-written path (`Deinterleave`) decodes over the source's GF(256) tables and the corrected path (`DeinterleaveIntended`) over the standard ones |
| Deinterleave.DeinterleaveLength | src/decoder/qr_decoder/payload.rs:155-168 | a result has `total - blocks*ecc` bytes, at least one |
| Deinterleave.DeinterleaveNoneIff | src/decoder/qr_decoder/payload.rs:106-168 | the result is None exactly when the ECC bytes are not fewer than the stream or some block fails Reed-Solomon |
| Deinterleave.CleanStreamOutput | src/decoder/qr_decoder/payload.rs:101-168 | when every block is a codeword, each output byte is the stream byte it was dealt from, so the data is de-interleaved unchanged |
| Deinterleave.SingleBlockLayout | src/decoder/qr_decoder/payload.rs:117-152 | one block: the data is the stream prefix in order and the ECC follows it |
| Deinterleave.SingleBlockClean | src/decoder/qr_decoder/payload.rs:101-168 | one clean block: the result is the stream without its ECC bytes |
| Deinterleave.SingleBlockGather | src/decoder/qr_decoder/payload.rs:154-168 | one clean block: the gathered data is the stream prefix |
| Deinterleave.TwoByteStreamDependsOnTables | src/decoder/reed_solomon.rs:5-20 | as-written half of the EXP_TABLE finding: the stream [7, 185] with one block and one ECC byte is Some([7]) over the source's tables and None over the standard tables |
| Deinterleave.TwoByteStream | src/decoder/qr_decoder/payload.rs:101-168 | with one block of one ECC byte the result is the decoder's word truncated to one byte, or None when it fails |
| Deinterleave.SingleBlockIsStream | src/decoder/qr_decoder/payload.rs:122-152 | one block is the whole stream |
| Deinterleave.SingleBlockOutput | src/decoder/qr_decoder/payload.rs:154-168 | one block: the data of the decoded stream, or None |
| Deinterleave.GatherSingle | src/decoder/qr_decoder/payload.rs:156-166 | one outcome: its data prefix when it decoded, else None |
| Deinterleave.DealDataRound | src/decoder/qr_decoder/payload.rs:127-141 | one pass of the outer data loop gives every block one more data byte, if it is not full, and moves the cursor by the bytes dealt |
| Deinterleave.DealDataCell | src/decoder/qr_decoder/payload.rs:128-140 | one inner step: block b takes the next stream byte exactly when i < its length |
| Deinterleave.DealEccRound | src/decoder/qr_decoder/payload.rs:144-152 | one pass of the ECC loop appends ECC byte e to every block |
| Deinterleave.DecodeBlock | src/decoder/qr_decoder/payload.rs:157 | one block through the Reed-Solomon decoder gives the reference outcome |
| Deinterleave.CorrectAll | src/decoder/qr_decoder/payload.rs:154-168 | the correction loop returns the gathered data of all blocks, or None at the first failure |
| Deinterleave.OutcomesOfBlocks | src/decoder/qr_decoder/payload.rs:122-158 | dealt blocks equal to the reference blocks give the reference outcomes |
| Deinterleave.SplitBlocks | src/decoder/qr_decoder/payload.rs:122-152 | the two dealing loops build exactly the reference blocks |
| Deinterleave.DeinterleaveWithInfo | src/decoder/qr_decoder/payload.rs:107-168 | the method with a given block layout returns the reference de-interleaving |
| Deinterleave.SplitAndCorrect | src/decoder/qr_decoder/payload.rs:117-168 | dealing then correcting gives the gathered reference outcomes |
| Deinterleave.DeinterleaveAndCorrect | src/decoder/qr_decoder/payload.rs:101-169 | `deinterleave_and_correct` as written: the reference `Deinterleave`, over the source's GF(256) tables |
| ReedSolomon.XorZero | src/decoder/reed_solomon.rs:128 | 0 is the identity of the xor accumulators |
| ReedSolomon.Syndrome | src/decoder/reed_solomon.rs:120-134 | one syndrome per EC codeword |
| ReedSolomon.CalculateSyndrome | src/decoder/reed_solomon.rs:120-134 | the nested loops return the reference syndrome, the exponent `(i * j) as u8` taken mod 256 |
| ReedSolomon.SyndromeEntry | src/decoder/reed_solomon.rs:125-130 | the inner loop returns the xor of `mul(r[j], pow(2, (i*j) mod 256))` over the block |
| ReedSolomon.ZeroSyndromeSum | src/decoder/reed_solomon.rs:125-130 | an all-zero block sums to 0 |
| ReedSolomon.ZeroWordZeroSyndrome | src/decoder/reed_solomon.rs:120-134 | the all-zero block has an all-zero syndrome |
| ReedSolomon.SyndromeExponentWraps | src/decoder/reed_solomon.rs:127 | the u8 exponent wraps at 256 while powers of 2 repeat every 255: `pow(2, 256 as u8)` is 1 where 2^256 is 2 |
| ReedSolomon.TwoPowers | src/decoder/reed_solomon.rs:65-74 | over a field whose tables are mutual inverses, 2^n by repeated multiplication is the antilog of n mod 255 |
| ReedSolomon.TwoPowersStep | src/decoder/reed_solomon.rs:39-46 | one more factor 2 raises the logarithm by one mod 255 |
| ReedSolomon.PadTo | src/decoder/reed_solomon.rs:159-161 | padding keeps the prefix, fills zeros, and reaches the target length |
| ReedSolomon.SubShifted | src/decoder/reed_solomon.rs:164-169 | the subtraction keeps the length and leaves coefficients below m untouched |
| ReedSolomon.BmStep | src/decoder/reed_solomon.rs:144-190 | one Berlekamp-Massey iteration keeps sigma and b non-empty with leading 1 |
| ReedSolomon.BmRun | src/decoder/reed_solomon.rs:144-191 | the invariant holds after every prefix of iterations |
| ReedSolomon.FindErrorLocator | src/decoder/reed_solomon.rs:136-194 | the loop returns the reference run's sigma, which starts with 1 |
| ReedSolomon.BmIteration | src/decoder/reed_solomon.rs:145-190 | the loop body computes the reference step (delta 0: m+1; 2l <= i: update and swap; else update and m+1) |
| ReedSolomon.ComputeDiscrepancy | src/decoder/reed_solomon.rs:145-150 | the `1..=l` loop returns the reference discrepancy, skipping j out of range |
| ReedSolomon.ExtendWithZeros | src/decoder/reed_solomon.rs:159-161 | the push loop returns the padded sigma |
| ReedSolomon.SubtractShifted | src/decoder/reed_solomon.rs:164-169 | the loop returns sigma minus d x^m b, dropping terms past its end |
| ReedSolomon.ErrorPositions | src/decoder/reed_solomon.rs:196-219 | on success, deg(sigma) positions, each below n |
| ReedSolomon.FindErrorPositions | src/decoder/reed_solomon.rs:196-219 | the Chien loop returns the reference positions or the wrong-count error |
| ReedSolomon.EvalMethod | src/decoder/reed_solomon.rs:204-207 | the loop evaluates the polynomial with u8 exponents |
| ReedSolomon.ChienRootsBelow | src/decoder/reed_solomon.rs:200-212 | every located position is below n |
| ReedSolomon.ChienRootsAscending | src/decoder/reed_solomon.rs:200-212 | the positions come out strictly ascending, so none twice |
| ReedSolomon.ChienRootsMembers | src/decoder/reed_solomon.rs:200-212 | a position is located exactly when sigma vanishes at 2^(n-1-i) |
| ReedSolomon.Omega | src/decoder/reed_solomon.rs:229-236 | omega has one coefficient per syndrome |
| ReedSolomon.ErrorValuesUpTo | src/decoder/reed_solomon.rs:240-262 | on success one value per position processed |
| ReedSolomon.ErrorSticks | src/decoder/reed_solomon.rs:240-262 | the first failing position decides the result |
| ReedSolomon.ErrorValues | src/decoder/reed_solomon.rs:221-264 | on success one value per error position |
| ReedSolomon.FindErrorValues | src/decoder/reed_solomon.rs:221-264 | the Forney loops return the reference values or the division-by-zero error |
| ReedSolomon.ComputeErrorValue | src/decoder/reed_solomon.rs:241-261 | one position's value is omega(x)/sigma'(x) at x = 2^(-pos as u8) |
| ReedSolomon.ComputeOmega | src/decoder/reed_solomon.rs:229-236 | the nested loops return the reference omega |
| ReedSolomon.OmegaEntry | src/decoder/reed_solomon.rs:231-235 | entry i is the xor of sigma[j] syndrome[i-j] over j <= i in range |
| ReedSolomon.SigmaPrimeMethod | src/decoder/reed_solomon.rs:251-257 | the loop sums the odd coefficients at x^(i-1) |
| ReedSolomon.Corrected | src/decoder/reed_solomon.rs:107-109 | correction keeps the block length |
| ReedSolomon.DecodeSpec | src/decoder/reed_solomon.rs:87-118 | the outcome word has the block's length |
| ReedSolomon.Decode | src/decoder/reed_solomon.rs:87-118 | the array after `decode` and its result are the reference outcome of the old contents |
| ReedSolomon.ApplyCorrections | src/decoder/reed_solomon.rs:107-109 | the array becomes the corrected word |
| ReedSolomon.DecodeOkMeansZeroSyndrome | src/decoder/reed_solomon.rs:87-118 | `Ok` always means the final word has an all-zero syndrome |
| ReedSolomon.CleanWordUnchanged | src/decoder/reed_solomon.rs:91-95 | a zero syndrome is accepted and the block is untouched |
| ReedSolomon.ZeroWordAccepted | src/decoder/reed_solomon.rs:91-95 | the all-zero block is accepted unchanged |
| ReedSolomon.WrongRootCountFails | src/decoder/reed_solomon.rs:100-216 | a root count other than deg(sigma) is an error and the block is untouched |
| ReedSolomon.CorrectedFrame | src/decoder/reed_solomon.rs:107-109 | correction changes only the located positions |
| ReedSolomon.DecodeChangesOnlyRoots | src/decoder/reed_solomon.rs:87-118 | any byte `decode` changes is at a root of sigma, after a non-zero syndrome |
| ReedSolomon.TwoByteBlockAsWritten | src/decoder/reed_solomon.rs:6-118 | as-written half of the EXP_TABLE finding: over the source's tables [7, 185] with one EC codeword is accepted |
| ReedSolomon.TwoByteBlockStandard | src/decoder/reed_solomon.rs:87-118 | corrected half: over the standard tables the same block fails with a wrong error count |
| ReedSolomon.TwoByteBlockAccepted | src/decoder/reed_solomon.rs:87-118 | any tables with the source's entries accept [7, 185] |
| ReedSolomon.TwoByteBlockRejected | src/decoder/reed_solomon.rs:87-118 | any tables with the standard entries reject [7, 185] |
| ReedSolomon.TwoByteSyndrome | src/decoder/reed_solomon.rs:120-134 | with the standard entries the syndrome of [7, 185] is [190] |
| ReedSolomon.TwoByteLocator | src/decoder/reed_solomon.rs:136-194 | the syndrome [190] gives sigma 1 + 190x |
| ReedSolomon.TwoByteNoRoots | src/decoder/reed_solomon.rs:196-212 | 1 + 190x has no root among the two positions |
| ReedSolomon.EvalLinear | src/decoder/reed_solomon.rs:204-207 | evaluating 1 + bx |
| ReedSolomon.DecodeDependsOnTables | src/decoder/reed_solomon.rs:6-118 | `decode` gives a different outcome over the source's tables than over the standard field |
| Gf256.Standard | src/decoder/reed_solomon.rs:6-20 | corrected half of the EXP_TABLE finding: the source's `LOG_TABLE` with the table of powers of 2 it is the logarithm of |
| Gf256.StandardInverse | src/decoder/reed_solomon.rs:6-36 | the standard antilog and log tables are mutually inverse |
| Gf256.AsWritten | src/decoder/reed_solomon.rs:6-36 | as-written half of the EXP_TABLE finding: the tables `Gf256` computes with, exactly as listed |
| Gf256.AsWrittenNotInverse | src/decoder/reed_solomon.rs:22-36 | the source's `EXP_TABLE` does not invert `LOG_TABLE`: log 7 is 198 but entry 198 is 185 |
| Gf256.SampleEntriesAsWritten | src/decoder/reed_solomon.rs:6-36 | the source's table entries that decoding [7, 185] reads |
| Gf256.SampleEntriesStandard | src/decoder/reed_solomon.rs:6-20 | the standard table entries that decoding [7, 185] reads |
| Gf256.Pow | src/decoder/reed_solomon.rs:65-74 | exponent 0 gives 1, otherwise a zero base gives 0 |
| Gf256.MulAsWrittenOneSeven | src/decoder/reed_solomon.rs:39-46 | with the source's tables `mul(1, 7)` is 185, so 1 is no identity; over the standard tables it is 7 |
| Gf256.MulOneSeven | src/decoder/reed_solomon.rs:39-46 | `mul(1, 7)` is the antilog entry at log 7 |
| Gf256.LogInjective | src/decoder/reed_solomon.rs:6-20 | over inverse tables, non-zero bytes with equal logarithms are equal |
| Gf256.MulLog | src/decoder/reed_solomon.rs:39-46 | over inverse tables a product is 0 exactly when a factor is, and otherwise its log is the sum of logs mod 255 |
| Gf256.MulIdentity | src/decoder/reed_solomon.rs:39-46 | over inverse tables 1 is the identity and 0 absorbs |
| Gf256.MulCommutative | src/decoder/reed_solomon.rs:39-46 | `mul` is commutative over any tables |
| Gf256.MulAssociative | src/decoder/reed_solomon.rs:39-46 | over inverse tables `mul` is associative |
| Gf256.DivLog | src/decoder/reed_solomon.rs:48-63 | over inverse tables a quotient is 0 exactly when the dividend is, and otherwise its log is the difference mod 255 |
| Gf256.DivOfMul | src/decoder/reed_solomon.rs:39-63 | over inverse tables `div(mul(a, b), b) == a` |
| Gf256.MulOfDiv | src/decoder/reed_solomon.rs:39-63 | over inverse tables `mul(div(a, b), b) == a` |
| Gf256.DivSelf | src/decoder/reed_solomon.rs:48-63 | x/x is 1 and 0/x is 0 (the source's own test facts) |
| Gf256.PowSucc | src/decoder/reed_solomon.rs:65-74 | over inverse tables a^(n+1) is a^n a |
| Gf256.PowIsRepeatedMul | src/decoder/reed_solomon.rs:65-74 | over inverse tables `pow` is repeated multiplication for every u8 exponent |
| Gf256.StandardIsField | src/decoder/reed_solomon.rs:6-20 | the standard tables meet every hypothesis of the field lemmas |
| Gf256Tables.ExpTableAsWrittenRepeatsEarly | src/decoder/reed_solomon.rs:22-36 | the source's antilog table returns to 1 at index 138 and differs from the powers of 2 from index 136 on |
| Gf256Tables.ExpAsWrittenByte | src/decoder/reed_solomon.rs:22-36 | every listed entry is a byte |
| Gf256Tables.ExpOfLog | src/decoder/reed_solomon.rs:6-20 | for a != 0 the power of 2 at log a is a, and the log is below 255 |
| Gf256Tables.LogOfExp | src/decoder/reed_solomon.rs:6-20 | for i < 255 the log of 2^i is i |
| Orientation.Turned | src/decoder/qr_decoder/orientation.rs:42-95 | a rotation or flip of a matrix is a well-formed dim x dim grid, dim being the width |
| Orientation.TurnedCell | src/decoder/qr_decoder/orientation.rs:42-95 | each cell of the turned grid is the cell of the original it was copied from |
| Orientation.SourceOfDest | src/decoder/qr_decoder/orientation.rs:42-95 | each rotation or flip sends (x, y) to an in-range cell and is a bijection on the square |
| Orientation.PartialStep | src/decoder/qr_decoder/orientation.rs:42-95 | one `out.set(dest, matrix.get(x, y))` extends the partial copy by one cell |
| Orientation.PartialStart | src/decoder/qr_decoder/orientation.rs:42-95 | before the loops the output is the blank matrix |
| Orientation.PartialDone | src/decoder/qr_decoder/orientation.rs:42-95 | after the loops the output is the turned grid |
| Orientation.TurnRow | src/decoder/qr_decoder/orientation.rs:42-95 | the inner loop copies row y to its destinations |
| Orientation.TurnMatrix | src/decoder/qr_decoder/orientation.rs:42-95 | `rotate90`/`rotate180`/`rotate270`/`flip_horizontal`/`flip_vertical` return a fresh matrix holding the turned grid |
| Orientation.Inverted | src/decoder/qr_decoder/orientation.rs:97-105 | same size, every cell the negation of the original |
| Orientation.InvertMatrix | src/decoder/qr_decoder/orientation.rs:97-105 | `invert_matrix` returns a fresh matrix holding the inverted grid |
| Orientation.InvertTwice | src/decoder/qr_decoder/orientation.rs:97-105 | inverting twice gives the matrix back |
| Orientation.FlipTwice | src/decoder/qr_decoder/orientation.rs:75-95 | each flip is its own inverse on a square matrix |
| Orientation.Rotate90Twice | src/decoder/qr_decoder/orientation.rs:42-63 | two quarter turns are `rotate180` |
| Orientation.Rotate90AfterRotate180 | src/decoder/qr_decoder/orientation.rs:42-74 | a quarter turn after `rotate180` is `rotate270` |
| Orientation.Rotate90AfterRotate270 | src/decoder/qr_decoder/orientation.rs:42-74 | a quarter turn after `rotate270` is the identity |
| Orientation.Rotate90Powers | src/decoder/qr_decoder/orientation.rs:42-74 | three quarter turns are `rotate270`, four are the identity |
| Orientation.HasFindersMonotone | src/decoder/qr_decoder/orientation.rs:237-270 | a matrix that passes at tolerance t1 passes at every larger tolerance |
| Orientation.ScanInRange | src/decoder/qr_decoder/orientation.rs:253-267 | when width >= 21 and height >= width, no probe leaves the matrix and the mismatches stay below the probes made |
| Orientation.ScanStopsWhenWide | src/decoder/qr_decoder/orientation.rs:253-262 | when the height is below the width the bottom-left probes fall outside and the check is false |
| Orientation.HasFindersMeaning | src/decoder/qr_decoder/orientation.rs:237-270 | passing needs 21 <= width <= height, and then it is exactly mismatches among the 21 probes <= tolerance |
| Orientation.HasFindersWithTolerance | src/decoder/qr_decoder/orientation.rs:237-270 | the nested loops return the reference `HasFinders` |
| Orientation.ProbeOrigin | src/decoder/qr_decoder/orientation.rs:256-267 | the inner loop over one origin's seven checks extends the scan by seven probes or leaves |
| Orientation.ProbeCheck | src/decoder/qr_decoder/orientation.rs:257-266 | one check: out of range leaves the loop, otherwise a mismatch adds one |
| Orientation.ScanStep | src/decoder/qr_decoder/orientation.rs:257-266 | the scan one probe further |
| Orientation.ProbeAt | src/decoder/qr_decoder/orientation.rs:243-259 | probe 7o + c is origin o offset by check c, with the check's expected colour |
| Orientation.NoneStays | src/decoder/qr_decoder/orientation.rs:260-262 | an out-of-range probe ends the whole check |
| Orientation.Passing | src/decoder/qr_decoder/orientation.rs:153-194 | the kept candidates are among the given ones and each passes the tolerance |
| Orientation.PassingKeeps | src/decoder/qr_decoder/orientation.rs:153-194 | every given candidate that passes is kept |
| Orientation.Rotations | src/decoder/qr_decoder/orientation.rs:152-170 | four well-formed rotations: 0, 90, 180 and 270 degrees |
| Orientation.Flips | src/decoder/qr_decoder/orientation.rs:176-194 | four well-formed flips: horizontal, vertical and each rotated by 90 |
| Orientation.Candidates | src/decoder/qr_decoder/orientation.rs:147-197 | every candidate is well formed |
| Orientation.CandidatesMeaning | src/decoder/qr_decoder/orientation.rs:147-197 | at most four candidates, each passing tolerance 7; if some rotation passes tolerance 3 the candidates are just the passing rotations |
| Orientation.RelaxedCandidates | src/decoder/qr_decoder/orientation.rs:199-235 | every candidate is well formed |
| Orientation.RelaxedMonotone | src/decoder/qr_decoder/orientation.rs:199-235 | a candidate kept at tolerance t1 is kept at any larger tolerance |
| Orientation.KeepPassing | src/decoder/qr_decoder/orientation.rs:153-194 | the `if has_finders { push }` steps keep matrices holding exactly the passing grids |
| Orientation.RotatedMatrices | src/decoder/qr_decoder/orientation.rs:152-170 | four fresh matrices holding the rotations |
| Orientation.FlippedMatrices | src/decoder/qr_decoder/orientation.rs:176-194 | four fresh matrices holding the flips |
| Orientation.CandidateOrientations | src/decoder/qr_decoder/orientation.rs:147-197 | `candidate_orientations` returns matrices holding exactly the reference candidates |
| Orientation.CandidateOrientationsRelaxed | src/decoder/qr_decoder/orientation.rs:199-235 | `candidate_orientations_relaxed` returns matrices holding the reference relaxed candidates |
| Orientation.Transitions | src/decoder/qr_decoder/orientation.rs:312 | at most one transition per adjacent pair |
| Orientation.AlternationBounds | src/decoder/qr_decoder/orientation.rs:307-314 | the ratio lies in [0, 1] and is 0 below two bits |
| Orientation.AlternatingTransitions | src/decoder/qr_decoder/orientation.rs:307-314 | a strictly alternating run has a transition at every pair |
| Orientation.ConstantTransitions | src/decoder/qr_decoder/orientation.rs:307-314 | a constant run has none |
| Orientation.TimingNeverValidates | src/decoder/qr_decoder/orientation.rs:272-294 | since `read_timing_pattern` always gives None, `validate_timing_patterns` is always false |
| Orientation.VersionMatches | src/decoder/qr_decoder/orientation.rs:296-305 | below width 45, or when no version block decodes, any version matches; otherwise exactly the decoded version |
| Orientation.VersionMatchesCandidate | src/decoder/qr_decoder/orientation.rs:296-305 | the method returns the reference `VersionMatches` |
| Orientation.CountWhere | src/decoder/qr_decoder/orientation.rs:19-33 | a count never exceeds the length |
| Orientation.ScoreContentLoop | src/decoder/qr_decoder/orientation.rs:6-40 | the counting loop returns the reference score |
| Orientation.ScoreBounds | src/decoder/qr_decoder/orientation.rs:6-40 | empty text scores -10000; all digits score 1000 + 10 per char; anything else scores at most 8 per char + 50 |
| MatrixDecode.Clamped | src/decoder/qr_decoder/matrix_decode.rs:26-126 | an environment setting after `unwrap_or(fallback).clamp(lo, hi)`: within [lo, hi], the fallback when unset, the value when in range, the nearer bound otherwise |
| MatrixDecode.FirstSomeAppend | src/decoder/qr_decoder/matrix_decode.rs:40-92 | searching a concatenation searches the first part, then the second only if the first found nothing |
| MatrixDecode.FirstSomeMeaning | src/decoder/qr_decoder/matrix_decode.rs:40-92 | the early-returning loops fail exactly when every attempt fails, and a success is the first attempt that succeeds |
| MatrixDecode.Run | src/decoder/qr_decoder/matrix_decode.rs:157-209 | the counted search stays within the budget and the elements; a failure has tried min(budget, length) |
| MatrixDecode.RunAppend | src/decoder/qr_decoder/matrix_decode.rs:157-209 | the beam's singles, pairs and triples share one attempt counter: a later stage runs on the budget left |
| MatrixDecode.RunUnbounded | src/decoder/qr_decoder/matrix_decode.rs:157-209 | with budget at least the number of sets the counted search is the plain first success |
| MatrixDecode.RunIsFirstSomeOfPrefix | src/decoder/qr_decoder/matrix_decode.rs:159-191 | the counted search sees exactly the first `max_attempts` sets |
| MatrixDecode.RunCons | src/decoder/qr_decoder/matrix_decode.rs:162-165 | one attempt: success ends with count 1, failure continues with one budget less |
| MatrixDecode.RunSkip | src/decoder/qr_decoder/matrix_decode.rs:159-165 | a failed attempt moves the loop on by one set and one attempt |
| MatrixDecode.RunHit | src/decoder/qr_decoder/matrix_decode.rs:163-165 | a successful attempt returns its result after i + 1 attempts |
| MatrixDecode.RunEnd | src/decoder/qr_decoder/matrix_decode.rs:159-161 | out of sets or out of budget, the loop fails having made i attempts |
| MatrixDecode.RunSound | src/decoder/qr_decoder/matrix_decode.rs:157-209 | a success comes from a set within the budget |
| MatrixDecode.MaskAttempts | src/decoder/qr_decoder/matrix_decode.rs:75-88 | four attempts per level and mask |
| MatrixDecode.MasksFrom | src/decoder/qr_decoder/matrix_decode.rs:69-90 | four attempts for each remaining mask |
| MatrixDecode.LevelsFrom | src/decoder/qr_decoder/matrix_decode.rs:67-91 | 32 attempts per remaining fallback level |
| MatrixDecode.MasksFromAt | src/decoder/qr_decoder/matrix_decode.rs:69-90 | attempt 4(m - mask) + t is traversal t of mask m |
| MatrixDecode.MaskAttemptsAt | src/decoder/qr_decoder/matrix_decode.rs:37-88 | attempt t uses `traversal_opts[t]` with the format (level, mask) |
| MatrixDecode.OrientedAttemptsAt | src/decoder/qr_decoder/matrix_decode.rs:63-92 | 64 fallback attempts per orientation: attempt 32l + 4m + t is level [L, M][l], mask m, traversal t |
| MatrixDecode.OrientedLevels | src/decoder/qr_decoder/matrix_decode.rs:67-91 | level L with every mask first, then level M |
| MatrixDecode.OrientedAttemptFields | src/decoder/qr_decoder/matrix_decode.rs:71-87 | every fallback attempt uses the orientation, the version, the confidences and level L or M, MSB packing, no reversal |
| MatrixDecode.Snapshot | src/decoder/qr_decoder/matrix_decode.rs:46-47 | the grid handed to `try_decode_single` is the matrix's contents |
| MatrixDecode.TryTraversals | src/decoder/qr_decoder/matrix_decode.rs:75-88 | the traversal loop returns the first success among the four attempts |
| MatrixDecode.TryMasks | src/decoder/qr_decoder/matrix_decode.rs:69-90 | the mask loop returns the first success over masks 0..7 |
| MatrixDecode.TryOriented | src/decoder/qr_decoder/matrix_decode.rs:64-91 | an orientation whose version does not match makes no attempt; otherwise the first success of its 64 |
| MatrixDecode.FallbackStep | src/decoder/qr_decoder/matrix_decode.rs:63-92 | the fallback tries orientation i's attempts before the later orientations' |
| MatrixDecode.Fallback | src/decoder/qr_decoder/matrix_decode.rs:63-92 | the last-resort loop returns the first success over all orientations |
| MatrixDecode.Orientations | src/decoder/qr_decoder/matrix_decode.rs:23-32 | every orientation tried is well formed (strict candidates, else relaxed ones at the clamped tolerance) |
| MatrixDecode.FastPath | src/decoder/qr_decoder/matrix_decode.rs:40-60 | since `FormatInfo::extract` never succeeds, the fast path never returns a code |
| MatrixDecode.OrientedSearch | src/decoder/qr_decoder/matrix_decode.rs:23-92 | `none` exactly when there is no orientation; the result is the reference orientation search |
| MatrixDecode.FallbackSound | src/decoder/qr_decoder/matrix_decode.rs:63-92 | every fallback success comes from an attempt at level L or M on a matching orientation |
| MatrixDecode.HereSound | src/decoder/qr_decoder/matrix_decode.rs:64-91 | a success on orientation i is one of its attempts |
| MatrixDecode.FallbackCount | src/decoder/qr_decoder/matrix_decode.rs:62-92 | at most 64 fallback attempts per orientation |
| MatrixDecode.DivModIndex | src/decoder/qr_decoder/matrix_decode.rs:140-222 | `y * dim + x` splits back into x = idx % dim and y = idx / dim |
| MatrixDecode.UncertainUpToListing | src/decoder/qr_decoder/matrix_decode.rs:134-146 | the collected list holds exactly the uncertain modules, in index order, each with its confidence |
| MatrixDecode.UncertainStep | src/decoder/qr_decoder/matrix_decode.rs:137-144 | one more index is appended exactly when it is uncertain |
| MatrixDecode.UncertainAt | src/decoder/qr_decoder/matrix_decode.rs:137-144 | cell (x, y) is appended exactly when it is not a function module and its confidence is at most the threshold |
| MatrixDecode.CollectUncertain | src/decoder/qr_decoder/matrix_decode.rs:134-146 | the nested loops return the reference list of uncertain modules |
| MatrixDecode.RowUncertainUpTo | src/decoder/qr_decoder/matrix_decode.rs:135-146 | row y up to column x extends the rows above |
| MatrixDecode.CollectRow | src/decoder/qr_decoder/matrix_decode.rs:136-145 | the inner loop appends row y's uncertain modules |
| MatrixDecode.Insert | src/decoder/qr_decoder/matrix_decode.rs:147 | inserting keeps the multiset plus the new entry and keeps a sorted list sorted |
| MatrixDecode.SortByKey | src/decoder/qr_decoder/matrix_decode.rs:147 | the sort by (confidence, index): a permutation ordered by confidence, then index |
| MatrixDecode.Positions | src/decoder/qr_decoder/matrix_decode.rs:151-155 | min(top_n, len) indices, the first sorted entries' |
| MatrixDecode.SortedUncertain | src/decoder/qr_decoder/matrix_decode.rs:134-147 | every sorted entry is an uncertain module with its own confidence |
| MatrixDecode.SortedDistinct | src/decoder/qr_decoder/matrix_decode.rs:134-147 | the sorted list holds each module once |
| MatrixDecode.SortedComplete | src/decoder/qr_decoder/matrix_decode.rs:134-147 | every uncertain module is in the sorted list |
| MatrixDecode.ChosenUncertain | src/decoder/qr_decoder/matrix_decode.rs:134-155 | at most top_n modules are chosen, each uncertain |
| MatrixDecode.ChosenSorted | src/decoder/qr_decoder/matrix_decode.rs:147-155 | the chosen modules come least confident first, ties by index |
| MatrixDecode.ChosenTaken | src/decoder/qr_decoder/matrix_decode.rs:147-155 | an uncertain module is left out only when top_n were taken, none of them less preferred than it |
| MatrixDecode.ChosenDistinct | src/decoder/qr_decoder/matrix_decode.rs:151-155 | no module is chosen twice |
| MatrixDecode.UncertainIsData | src/decoder/qr_decoder/matrix_decode.rs:133-144 | with the version's function mask, uncertain means a data module at or under the threshold |
| MatrixDecode.ChosenMeaning | src/decoder/qr_decoder/matrix_decode.rs:132-155 | the chosen modules are data modules at or under the threshold, least confident first, distinct, and complete up to top_n |
| MatrixDecode.FlipSetsShape | src/decoder/qr_decoder/matrix_decode.rs:158-209 | every flip set has 1 to max_depth entries of the positions, distinct when the positions are |
| MatrixDecode.FlipAll | src/decoder/qr_decoder/matrix_decode.rs:214-224 | the flipped matrix keeps its size |
| MatrixDecode.IndexOfCell | src/decoder/qr_decoder/matrix_decode.rs:221-222 | an index below dim*dim names the cell at (idx % dim, idx / dim) |
| MatrixDecode.SameCell | src/decoder/qr_decoder/matrix_decode.rs:218-222 | index idx names cell (x, y) exactly when it is that cell's row-major index |
| MatrixDecode.FlipAllCell | src/decoder/qr_decoder/matrix_decode.rs:214-224 | flipping distinct indices toggles exactly the listed cells (`idx >= dim*dim` skipped) and leaves the rest unchanged |
| MatrixDecode.DecodeWithFlips | src/decoder/qr_decoder/matrix_decode.rs:214-226 | `decode_with_flips` decodes the flipped clone without confidences |
| MatrixDecode.TryFlipSets | src/decoder/qr_decoder/matrix_decode.rs:157-209 | the attempt loops return the counted first success over the flip sets, with the attempts made |
| MatrixDecode.BeamRepair | src/decoder/qr_decoder/matrix_decode.rs:103-212 | `attempt_uncertain_module_beam_repair` returns the reference beam run and its attempt count |
| MatrixDecode.BeamAttemptsBound | src/decoder/qr_decoder/matrix_decode.rs:108-209 | at most `max_attempts` (so at most 64) decodes; a confidence buffer of the wrong size makes none |
| MatrixDecode.FlipSetsWitness | src/decoder/qr_decoder/matrix_decode.rs:157-209 | a beam success decodes some set of at most max_depth distinct chosen modules |
| MatrixDecode.BeamSound | src/decoder/qr_decoder/matrix_decode.rs:103-212 | a beam success flips at most max_depth distinct uncertain data modules and decodes the result |
| MatrixDecode.DecodeFromMatrixInternal | src/decoder/qr_decoder/matrix_decode.rs:18-101 | the orientation search, then, with confidences, the beam; None when there is no orientation |
| MatrixDecode.DecodeFromMatrix | src/decoder/qr_decoder/matrix_decode.rs:6-8 | the reference decode without confidences |
| MatrixDecode.DecodeFromMatrixWithConfidence | src/decoder/qr_decoder/matrix_decode.rs:10-16 | the reference decode with the confidences |
| MatrixDecode.DecodeWithoutConfidence | src/decoder/qr_decoder/matrix_decode.rs:18-101 | without confidences, decoding is the orientation search alone; with no orientation it is None even with confidences |
| MatrixDecode.DecodeSound | src/decoder/qr_decoder/matrix_decode.rs:18-101 | a result comes from a fallback attempt at level L or M on a matching orientation, or from the beam |
| Geometry.VersionCandidates | src/decoder/qr_decoder/geometry.rs:68-77 | exactly the versions 1..40 within two of the estimate, ascending, at most five |
| Geometry.RoundQuarter | src/decoder/qr_decoder/geometry.rs:44 | `((dimension - 17) / 4).round()`: the nearest whole quotient, ties up |
| Geometry.EstimateDimensionAsWritten | src/decoder/qr_decoder/geometry.rs:16-66 | as-written half of the estimate_dimension finding: with the `as u8` cut, any result is a valid dimension 17 + 4v |
| Geometry.EstimateDimension | src/decoder/qr_decoder/geometry.rs:16-66 | corrected half: without the cut, any result is a valid dimension 17 + 4v |
| Geometry.EstimateNearest | src/decoder/qr_decoder/geometry.rs:27-59 | the corrected estimate is within two modules of `width + 7`, and every measured dimension from 21 to 178 gets one |
| Geometry.EstimateAgreesBelowWrap | src/decoder/qr_decoder/geometry.rs:44-45 | below a measured dimension of 1043 the cut changes nothing |
| Geometry.EstimateWraps | src/decoder/qr_decoder/geometry.rs:44-45 | a width of 1038 modules rounds to version 257, which `as u8` turns into 1: dimension 21 as written, None when corrected |
| Geometry.AlignmentCenters | src/decoder/qr_decoder/geometry.rs:360-379 | the loops return every pair of the version's alignment positions (as computed by the source) outside the finder corners, x major |
| Geometry.AlignmentRows | src/decoder/qr_decoder/geometry.rs:368-377 | the outer loop appends one column of centres per x position, x major |
| Geometry.AlignmentColumn | src/decoder/qr_decoder/geometry.rs:369-376 | the inner loop appends (cx, cy) for every y position outside the finder corners, in order |
| Geometry.ColumnMembers | src/decoder/qr_decoder/geometry.rs:369-376 | one column holds exactly the (cx, cy) with cy a position outside the corners |
| Geometry.CentresMembers | src/decoder/qr_decoder/geometry.rs:368-377 | the centres so far are the pairs with an earlier x position and any y position, outside the corners |
| Geometry.AlignmentCentersMeaning | src/decoder/qr_decoder/geometry.rs:360-379 | a pair is a centre exactly when both coordinates are alignment positions and it lies in no finder corner; version 1 has none |
| Geometry.AdaptiveKernelRadius | src/decoder/qr_decoder/geometry.rs:486-496 | the radius is at most 3 |
| Geometry.KernelRadiusMonotone | src/decoder/qr_decoder/geometry.rs:486-496 | larger modules never get a smaller radius, and a non-zero radius is below the module size |
| Geometry.AlternationRatio | src/decoder/qr_decoder/geometry.rs:571-584 | the counting loop gives the same ratio as the orientation check's, in [0, 1] |
| Pipeline.ConfidenceLaneOf | src/pipeline.rs:1054-1062 | High exactly from 0.78 up, Low exactly below 0.56, Medium between |
| Pipeline.ConfidenceLaneMonotone | src/pipeline.rs:1054-1062 | a higher geometry confidence never gets a lower lane |
| Pipeline.LaneBudget.constructor | src/pipeline.rs:56-60 | the budget holds the three lane counts given |
| Pipeline.LaneBudget.Total | src/pipeline.rs:1112-1121 | the attempts left are the sum of the three lanes |
| Pipeline.LaneBudget.Consume | src/pipeline.rs:63-90 | `consume` succeeds exactly when the lane has attempts left, takes one from that lane only, and lowers the total by one on success |
| Pipeline.Trimmed | src/pipeline.rs:1112-1120 | the first closing loop ends at min(total, n) attempts, never adds to a lane, empties low before medium and medium before high |
| Pipeline.Padded | src/pipeline.rs:1121-1123 | the second closing loop reaches at least n attempts, adding only to the high lane |
| Pipeline.LaneBudgetFromAttempts | src/pipeline.rs:1064-1126 | `lane_budget_from_attempts` returns the reference split: exactly n attempts, all high when n <= 1, at least one high otherwise |
| Pipeline.InitialSplit | src/pipeline.rs:1073-1110 | the 50/30/rest split with its minimum adjustments and the strategy shift agrees with the reference |
| Pipeline.TrimLanes | src/pipeline.rs:1112-1120 | the loop returns `Trimmed`, and leaves a budget already within n unchanged |
| Pipeline.PadLanes | src/pipeline.rs:1121-1123 | the loop returns `Padded`, and leaves a budget already at n unchanged |
| Pipeline.SplitBounds | src/pipeline.rs:1073-1085 | for n >= 2 the high share is at least 1 and the two shares leave room for low; the medium share is 0 only at n = 3 among n >= 3 |
| Pipeline.LaneSplitTotal | src/pipeline.rs:1064-1126 | every strategy's split uses exactly n attempts, with at least one high when n >= 1 |
| Pipeline.StrategyShifts | src/pipeline.rs:1087-1110 | against the fast-single split: multi-QR moves one high to low (n >= 4), high-version moves one low to high, low-contrast moves one medium to low (n >= 3), rotation changes nothing |
| Pipeline.HighConfidenceCount | src/pipeline.rs:1018-1021 | the candidates at or above 0.76 are at most all of them |
| Pipeline.SelectStrategy | src/pipeline.rs:1014-1052 | no candidates selects fast-single; three or more with density >= 18 select multi-QR; high-version needs a top module of at most 2; fast-single otherwise needs a top module over 2, top confidence >= 0.55 and fewer than three confident candidates |
| Pipeline.SignalsPrecedeCandidates | src/pipeline.rs:1030-1035 | a skew of 16 degrees or more selects rotation-heavy unless the multi-QR signal applies, whatever the candidates |
| Pipeline.AsStrInjective | src/pipeline.rs:94-102 | every profile has its own name |
| Pipeline.InsertSpec | src/pipeline.rs:341 | inserting into a list sorted by distance adds the index and keeps it sorted |
| Pipeline.SortSpec | src/pipeline.rs:341 | the sort is a permutation ordered by distance |
| Pipeline.TrimClusterIndices | src/pipeline.rs:319-347 | a cluster of at most 64 is returned as is; a larger one is cut to 64 of its own indices |
| Pipeline.InsertStable | src/pipeline.rs:341 | inserting an index above all others puts it after every entry at its distance |
| Pipeline.SortStable | src/pipeline.rs:341 | the stable sort_by leaves increasing indices at equal distance in increasing order |
| Pipeline.TrimTiesByIndex | src/pipeline.rs:319-347 | a sorted, deduplicated cluster is trimmed with ties at equal distance kept lowest index first |
| Pipeline.TrimKeepsClosest | src/pipeline.rs:327-346 | the trimmed cluster is the first 64 by distance, so every kept index is no farther than any dropped one |
| Pipeline.SortedKey | src/pipeline.rs:411-412 | the key of a triple is ascending |
| Pipeline.AscendingUnique | src/pipeline.rs:411-412 | two ascending triples with the same entries are equal |
| Pipeline.SortedKeyEntries | src/pipeline.rs:411-412 | the key holds the triple's entries |
| Pipeline.SortedKeyPermutes | src/pipeline.rs:411-413 | reordered triples share one key, so the dedupe treats a reordering as the same group |
| Pipeline.KeysMembers | src/pipeline.rs:389-413 | a key is in `seen` exactly when some kept group has it |
| Pipeline.DedupeTriples | src/pipeline.rs:414-419 | the groups are the first triple of each sorted key in input order (FirstOfEachKey); no two share a key, each is a given triple, and every key met is kept |
| Pipeline.FirstOfEachKeyStep | src/pipeline.rs:414-419 | one more triple is appended exactly when no earlier triple has its sorted key |
| Pipeline.FirstOfEachKeyKeys | src/pipeline.rs:414-419 | the kept triples have exactly the keys of all the triples |
| Pipeline.FirstOfEachKeyIndices | src/pipeline.rs:414-419 | every kept triple sits at a strictly increasing input position with no earlier triple of its key |
| Pipeline.FirstOfEachKeyDistinct | src/pipeline.rs:414-419 | the kept triples never share a key and are all input triples |
| Pipeline.DecodeTopKLimit | src/pipeline.rs:743-754 | 0 with no candidates; otherwise between 1 and min(candidates, 64); unset or 0 in the environment gives min(candidates, 6) |
| Binarization.RowStartIsProduct | src/utils/binarization.rs:110 | row y starts at index y * w |
| Binarization.PosIsIndex | src/utils/binarization.rs:110 | the index of (x, y) is y * w + x |
| Binarization.PosBound | src/utils/binarization.rs:103-110 | every in-image index is below w * h |
| Binarization.RunSplit | src/utils/binarization.rs:108-111 | a run sum splits at any point |
| Binarization.InclusionExclusion | src/utils/binarization.rs:150-153 | rectangle plus the two corner prefixes equals the full prefix plus the overlap prefix |
| Binarization.PrefixEmpty | src/utils/binarization.rs:132-148 | the prefix left of column 0 is 0 |
| Binarization.RowCell | src/utils/binarization.rs:111-117 | one step of `row_sum` and the row above gives the prefix sum of that cell, kept mod 2^32 (2^64 squared) |
| Binarization.IntegralRow | src/utils/binarization.rs:108-118 | one row of the loop fills that row's prefix sums |
| Binarization.FillNext | src/utils/binarization.rs:113-117 | filling cell (x, y) extends the filled prefix |
| Binarization.BuildIntegralImage | src/utils/binarization.rs:95-355 | `build_integral_image(_into)` and its squared variant fill every cell with the sum over [0..x] x [0..y], mod the integer width |
| Binarization.QueryIntegralSum | src/utils/binarization.rs:123-387 | the result is a u32 (u64 squared) value |
| Binarization.IntegralCorner | src/utils/binarization.rs:150 | a cell of the integral image is its rectangle prefix |
| Binarization.QueryCorners | src/utils/binarization.rs:132-153 | the query is d + a - c - b of the four corner prefixes, each mod the width |
| Binarization.CornerOrZero | src/utils/binarization.rs:132-148 | a missing corner (x or y at 0) reads as 0 |
| Binarization.QueryMeaning | src/utils/binarization.rs:123-387 | the query is the window sum mod 2^32 (2^64 squared) |
| Binarization.QuerySamples | src/utils/binarization.rs:419-475 | on the 3 x 3 image 1..9: whole 45, top-left 2 x 2 is 12, centre 5; squared whole 285, centre 25 |
| Binarization.ThresholdInto | src/utils/binarization.rs:217-223 | every cell is black exactly when its pixel is below the threshold |
| Binarization.ThresholdBinarize | src/utils/binarization.rs:207-226 | `threshold_binarize` returns a fresh w x h matrix, black exactly below the threshold |
| Binarization.ThresholdSample | src/utils/binarization.rs:393-403 | [100, 150, 200, 50] at 128 gives black, white, white, black |
| Binarization.Window | src/utils/binarization.rs:69-79 | the window of (x, y) contains it, stays in the image and reaches `half_window` each way where the image allows |
| Binarization.WindowPixels | src/utils/binarization.rs:81 | a window holds at least one pixel |
| Binarization.WindowPixelsBound | src/utils/binarization.rs:81 | a window holds at most w * h pixels |
| Binarization.Quotient | src/utils/binarization.rs:83 | integer division rounds down |
| Binarization.RunBound | src/utils/binarization.rs:111 | a run of n pixels sums to at most 255 n |
| Binarization.WindowSumBound | src/utils/binarization.rs:81-82 | a window sums to at most 255 per pixel |
| Binarization.MeanFacts | src/utils/binarization.rs:82-83 | when 255 w h fits in 32 bits the sum does not wrap and the mean fits a u8 |
| Binarization.AdaptiveMeaning | src/utils/binarization.rs:76-86 | below that size the u8 local mean is the true floor of the window mean, at most 255 |
| Binarization.LocalThreshold | src/utils/binarization.rs:76-86 | the per-pixel threshold is the local mean of its clamped window |
| Binarization.AdaptiveBinarizeCore | src/utils/binarization.rs:61-91 | every cell is black exactly when its pixel is below its local mean |
| Binarization.AdaptiveBinarize | src/utils/binarization.rs:32-44 | `adaptive_binarize` returns a fresh matrix, black exactly below the local mean |
| Binarization.AdaptiveBinarizeInto | src/utils/binarization.rs:47-58 | the `_into` variant fills a fresh integral image and sets every cell as the allocating variant does |
| Binarization.HistogramOf | src/utils/binarization.rs:159-162 | 256 bins |
| Binarization.Histogram | src/utils/binarization.rs:159-162 | the counting loop fills the reference histogram |
| Binarization.RangeSplit | src/utils/binarization.rs:174-183 | sums over adjacent intensity ranges add up |
| Binarization.ClassSums | src/utils/binarization.rs:169-183 | the class counts and weighted sums are those of intensities below and at or above the threshold |
| Binarization.ScoreNonNegative | src/utils/binarization.rs:185-195 | the between-class variance is never negative |
| Binarization.OtsuChoiceUnique | src/utils/binarization.rs:165-203 | at most one threshold meets the choice rule |
| Binarization.NonEmptyClass | src/utils/binarization.rs:185 | a non-empty class has a pixel in its range |
| Binarization.PixelInClass | src/utils/binarization.rs:185 | a pixel in a range makes its class non-empty |
| Binarization.ThresholdVariance | src/utils/binarization.rs:169-195 | a threshold with an empty class is skipped (score 0); otherwise the variance is the score |
| Binarization.OtsuThreshold | src/utils/binarization.rs:157-204 | the returned threshold has the maximal score, the first one on ties (strict `>`), and 128 when no threshold scores above 0 |
| Binarization.HistogramTotal | src/utils/binarization.rs:159-162 | the 256 bins of the histogram together count every pixel |
| Binarization.OtsuSumsFitU32 | src/utils/binarization.rs:169-181 | below 16,843,010 pixels every u32 class count and class sum stays below 2^32, so the exact sums are the source's |
| Binarization.OtsuSumWrapsAt | src/utils/binarization.rs:169-181 | from 16,843,010 white pixels the sum of all intensities, class2_sum at threshold 0, reaches 2^32 |
| Binarization.RangeWithout | src/utils/binarization.rs:174-183 | with a single intensity, a range not holding it is empty |
| Binarization.UniformScores | src/utils/binarization.rs:185-187 | for a uniform image every threshold leaves a class empty and scores 0 |
| Binarization.OtsuUniform | src/utils/binarization.rs:165-203 | a uniform image gets threshold 128 |
| Binarization.WeightedAtMost | src/utils/binarization.rs:178 | the weighted sum of a range is at most its top times its count |
| Binarization.WeightedAtLeast | src/utils/binarization.rs:178 | the weighted sum of a range is at least its bottom times its count |
| Binarization.MeanBelow | src/utils/binarization.rs:189 | a mean of values at most k is at most k |
| Binarization.MeanAbove | src/utils/binarization.rs:190 | a mean of values at least k is at least k |
| Binarization.PositiveProduct | src/utils/binarization.rs:195 | weights and a mean gap of at least 1 give a positive variance |
| Binarization.SplitScores | src/utils/binarization.rs:185-195 | two different pixels make the higher one's threshold score above 0 |
| Binarization.ScorePositive | src/utils/binarization.rs:185-195 | two non-empty classes score above 0 |
| Binarization.ClassMeans | src/utils/binarization.rs:189-190 | the lower class mean is below b and the upper at least b |
| Binarization.OtsuSplits | src/utils/binarization.rs:157-204 | when two pixels differ the chosen threshold puts some pixel on each side |
| Binarization.OtsuBinarizeInto | src/utils/binarization.rs:12-28 | every cell is black exactly below the Otsu threshold |
| Binarization.OtsuBinarize | src/utils/binarization.rs:3-9 | `otsu_binarize` returns a fresh matrix, black exactly below the Otsu threshold |
| Grayscale.Luma | src/utils/grayscale.rs:17-20 | the grey value is (76R + 150G + 29B) >> 8, never above 254 |
| Grayscale.Cap | src/utils/grayscale.rs:261 | `min(255)` leaves every value up to 255 unchanged |
| Grayscale.LumaRange | src/utils/grayscale.rs:17-20 | black maps to 0, white to 254, and the grey value is monotone in each channel |
| Grayscale.PixelInside | src/utils/grayscale.rs:255-259 | every channel read of pixel k < n lies inside an input that holds n pixels |
| Grayscale.ConvertPixel | src/utils/grayscale.rs:269-275 | one pixel converts to the luma of its first three bytes at stride 3 or 4 (alpha ignored) |
| Grayscale.ScalarUnrolled | src/utils/grayscale.rs:247-311 | the unrolled loop of eight and the tail loop write exactly the first n outputs, each the luma of its pixel, and leave the rest |
| Grayscale.ToGrayscale | src/utils/grayscale.rs:23-86 | a fresh buffer of w·h grey values, one per pixel |
| Grayscale.ToGrayscaleWithBuffer | src/utils/grayscale.rs:412-473 | writes the first w·h entries of the output with the grey values, keeps the rest, and returns w·h |
| Grayscale.Samples | src/utils/grayscale.rs:364-391 | white gives at least 254, black 0, red strictly between 0 and 255, green above 100 |
| FixedPoint.Wrap | src/utils/fixed_point.rs:20-22 | reduction to a signed 32-bit value: congruent mod 2^32 and the identity in range |
| FixedPoint.WrapCongruent | src/utils/fixed_point.rs:20-22 | values congruent mod 2^32 wrap to the same i32 |
| FixedPoint.TruncDiv | src/utils/fixed_point.rs:51-57 | division truncating toward zero has the sign of the true quotient |
| FixedPoint.FromI32 | src/utils/fixed_point.rs:20-22 | the raw value is n·2^16 wrapped to 32 bits |
| FixedPoint.ToI32 | src/utils/fixed_point.rs:35-37 | the arithmetic shift right by 16 is the floor of raw / 2^16 |
| FixedPoint.Add | src/utils/fixed_point.rs:40-42 | the raw sum wrapped to 32 bits, exact when it fits |
| FixedPoint.Div | src/utils/fixed_point.rs:51-57 | the result is None exactly when the divisor's raw value is 0 |
| FixedPoint.RoundTrip | src/utils/fixed_point.rs:20-37 | to_i32(from_i32(n)) = n for every n in the 16-bit range |
| FixedPoint.AddFromI32 | src/utils/fixed_point.rs:40-42 | adding two converted integers converts their sum when it fits in 16 bits |
| FixedPoint.OnePlusTwo | src/utils/fixed_point.rs:82-88 | 1 + 2 converts back to 3 |
| FixedPoint.AddLaws | src/utils/fixed_point.rs:40-42 | addition commutes and has zero as identity |
| FixedPoint.MulFromI32 | src/utils/fixed_point.rs:45-48 | multiplying two 16-bit integers gives the converted product, and the product fits |
| FixedPoint.DivSelf | src/utils/fixed_point.rs:51-57 | a non-zero value divided by itself is one |
| FixedPoint.DivZero | src/utils/fixed_point.rs:51-57 | zero divided by a non-zero value is zero |
| FixedPoint.Identity | src/utils/fixed_point.rs:66-76 | the 3×3 identity has ones on the diagonal and zeros elsewhere |
| MemoryPool.Reserved | src/utils/memory_pool.rs:54-57 | `Vec::reserve`'s new capacity holds length + additional and never lowers, unchanged when it already fits |
| MemoryPool.SetLen | src/utils/memory_pool.rs:62-66 | `set_len` gives exactly n elements and keeps the ones already there |
| MemoryPool.BufferPool.constructor | src/utils/memory_pool.rs:27-36 | an empty pool with capacity and recorded capacity 1920·1080 and empty images |
| MemoryPool.BufferPool.WithCapacity | src/utils/memory_pool.rs:39-47 | an empty pool with capacity and recorded capacity c |
| MemoryPool.BufferPool.PrepareGray | src/utils/memory_pool.rs:51-66 | the shared preparation step: succeeds exactly when the buffer ends with size bytes, never lowers either capacity, keeps the bytes already there |
| MemoryPool.BufferPool.GetGrayscaleBuffer | src/utils/memory_pool.rs:51-69 | the slice has exactly size bytes whenever the recorded capacity was true, and the recorded capacity then holds size |
| MemoryPool.BufferPool.EnsureGrayscaleCapacityAsWritten | src/utils/memory_pool.rs:72-78 | as written: the recorded capacity rises to c but the real one only by the reserve of c − recorded from the current length (as-written half) |
| MemoryPool.BufferPool.EnsureGrayscaleCapacity | src/utils/memory_pool.rs:72-78 | corrected: the recorded capacity rises to c, never lowers, and stays true (corrected half) |
| MemoryPool.BufferPool.GetAllBuffers | src/utils/memory_pool.rs:92-125 | a grey buffer of w·h bytes, two blank w×h images and an all-zero integral buffer of w·h entries |
| MemoryPool.BufferPool.Clear | src/utils/memory_pool.rs:128-130 | the grey buffer is empty and both capacities are kept |
| MemoryPool.BasicSample | src/utils/memory_pool.rs:166-180 | 100 and then 1000 bytes from a default pool, whose recorded capacity stays at least 1920·1080 |
| MemoryPool.GrowthSample | src/utils/memory_pool.rs:182-190 | a pool of 100 asked for 500 grows to hold 500 |
| MemoryPool.EnsureThenGetAsWritten | src/utils/memory_pool.rs:51-78 | as written: ensuring 200 on a pool of 100 and then asking for 150 fails (as-written half) |
| MemoryPool.EnsureThenGet | src/utils/memory_pool.rs:51-78 | corrected: the same calls give 150 bytes (corrected half) |
| MemoryPool.AllocationStats.constructor | src/utils/memory_pool.rs:148-150 | all counters start at zero |
| MemoryPool.AllocationStats.RecordGrayscaleReuse | src/utils/memory_pool.rs:152-155 | the reuse counter rises by one and the byte total by the bytes reused; nothing else changes |
| MemoryPool.AllocationStats.RecordGrayscaleAllocation | src/utils/memory_pool.rs:157-159 | the allocation counter rises by one; nothing else changes |
| Pyramid.Votes | src/detector/pyramid.rs:62-79 | a 2×2 block holds at most four black votes |
| Pyramid.HalvingUnique | src/detector/pyramid.rs:53-89 | the halving relation determines the downscaled image |
| Pyramid.BlockVotes | src/detector/pyramid.rs:62-79 | the loop counts the black pixels of the 2×2 source block of (x, y) |
| Pyramid.DownscaleBy2 | src/detector/pyramid.rs:53-89 | a fresh ⌊w/2⌋×⌊h/2⌋ image whose pixel is black exactly when at least two of its four sources are |
| Pyramid.NewPyramid | src/detector/pyramid.rs:25-49 | level 0 is the input; level 1 exists iff w, h ≥ 400 and is its halving; level 2 exists iff w, h ≥ 800 and halves level 1 |
| Pyramid.CoarsestDetectionLevel | src/detector/pyramid.rs:93-102 | level 2 with scale 4, else level 1 with scale 2, else level 0 with scale 1 |
| Pyramid.CoarsestDimensions | src/detector/pyramid.rs:25-102 | the chosen scale follows the 800 and 400 thresholds and the chosen level is the original size divided by it |
| Pyramid.LevelSamples | src/detector/pyramid.rs:163-182 | 100×100 has only level 0, 500×500 adds level 1, 1000×1000 has all three |
| Pyramid.SquareSample | src/detector/pyramid.rs:140-161 | a 400×400 image with a black centre square has a 200×200 level 1 that is black at (100, 100) |
| Pyramid.MapToOriginal | src/detector/pyramid.rs:110-112 | both coordinates are multiplied by the scale (dividing back gives the input) |
| Pyramid.MapSample | src/detector/pyramid.rs:184-193 | (10, 20) at scale 4 maps to (40, 80) |
| Pyramid.ToUsize | src/detector/pyramid.rs:123-125 | the float-to-usize cast truncates a non-negative value and saturates a negative one to 0 |
| Pyramid.GetSearchWindow | src/detector/pyramid.rs:116-133 | the window's maxima never exceed the original dimensions minus one; None for an empty original |
| Pyramid.SearchWindowContainsPoint | src/detector/pyramid.rs:116-133 | the window contains the mapped point when it lies inside the image and reaches exactly window·scale on each side unless 0 or the last column or row stops it |
| ConnectedComponents.CompressKeepsForest | src/detector/connected_components.rs:17-22 | path compression (pointing a node at its representative) keeps the union-find forest and every representative |
| ConnectedComponents.Relinked | src/detector/connected_components.rs:24-30 | after a union every member of the first class has the second class's representative, the rest are unchanged |
| ConnectedComponents.Deepened | src/detector/connected_components.rs:28 | the members of the relinked class are one step further from their root |
| ConnectedComponents.LinkKeepsForest | src/detector/connected_components.rs:28 | linking one root under another keeps the forest, with the relinked representatives |
| ConnectedComponents.UnionFind.constructor | src/detector/connected_components.rs:11-15 | n singleton classes: every element is its own parent and representative |
| ConnectedComponents.UnionFind.Find | src/detector/connected_components.rs:17-22 | returns the representative of x, which is a root; only nodes on the path are relinked and no class changes |
| ConnectedComponents.UnionFind.Union | src/detector/connected_components.rs:24-30 | the class of x joins the class of y; no other class changes |
| ConnectedComponents.RelinkSame | src/detector/connected_components.rs:27 | uniting a class with itself changes nothing |
| ConnectedComponents.UnionJoins | src/detector/connected_components.rs:24-30 | after a union x and y share a representative, and elements that shared one still do |
| ConnectedComponents.JoinedMapped | src/detector/connected_components.rs:75-79 | a later union keeps every cell joined to its earlier black neighbours |
| ConnectedComponents.Min | src/detector/connected_components.rs:73 | the minimum is an element and is at most every element |
| ConnectedComponents.Probe | src/detector/connected_components.rs:53-67 | a neighbour contributes its label exactly when it is inside the image and black |
| ConnectedComponents.NeighbourLabels | src/detector/connected_components.rs:50-67 | the list holds the labels of the black left, above, above-left and above-right neighbours, all issued already |
| ConnectedComponents.Relabel | src/detector/connected_components.rs:70-74 | setting one label changes that label and no other |
| ConnectedComponents.JoinedExtend | src/detector/connected_components.rs:69-80 | labelling a cell keeps the earlier cells joined and adds the new one |
| ConnectedComponents.LabelledStep | src/detector/connected_components.rs:69-80 | labelling a cell non-zero exactly when it is black extends the labelled prefix by one cell |
| ConnectedComponents.RowDone | src/detector/connected_components.rs:43-44 | a finished row is the start of the next |
| ConnectedComponents.LabelPixel | src/detector/connected_components.rs:45-80 | a white cell stays 0; a black one takes a fresh label or the smallest neighbour label, and all its neighbour labels are united |
| ConnectedComponents.UniteAll | src/detector/connected_components.rs:75-79 | every neighbour label ends in the class of the minimum label |
| ConnectedComponents.FirstPass | src/detector/connected_components.rs:38-82 | every cell is labelled non-zero exactly when black, labels stay below w·h + 1, and every black cell shares a root with its earlier black neighbours |
| ConnectedComponents.CoveredSkip | src/detector/connected_components.rs:90-93 | a white cell leaves every box as it was |
| ConnectedComponents.CoveredGrow | src/detector/connected_components.rs:96-100 | growing a region's box keeps covering the cells it covered |
| ConnectedComponents.TightLater | src/detector/connected_components.rs:88-102 | a box tight over the cells scanned so far stays tight while no later cell of the region is met |
| ConnectedComponents.BoxedRowDone | src/detector/connected_components.rs:88-89 | a finished row of boxes is the start of the next |
| ConnectedComponents.TightGrow | src/detector/connected_components.rs:96-100 | growing a box by a cell of its region keeps it the tightest box of the scanned cells |
| ConnectedComponents.TightFirst | src/detector/connected_components.rs:96 | the first cell of a region gives the one-cell box |
| ConnectedComponents.Grow | src/detector/connected_components.rs:97-100 | the grown box contains the new cell and everything the old box did |
| ConnectedComponents.BoxPixel | src/detector/connected_components.rs:90-100 | looking up a label succeeds exactly when it is within the union-find; then the box of its root grows over the cell |
| ConnectedComponents.BelowStep | src/detector/connected_components.rs:90-94 | a scanned label below the capacity extends the in-range prefix |
| ConnectedComponents.BelowRow | src/detector/connected_components.rs:88-89 | a row of in-range labels extends to the next row and, at the last row, to the whole image |
| ConnectedComponents.SecondPass | src/detector/connected_components.rs:85-102 | succeeds exactly when every label lies inside the union-find; then each root has the tightest box of its black cells |
| ConnectedComponents.Values | src/detector/connected_components.rs:104 | the returned boxes are exactly the map's values, one per key |
| ConnectedComponents.ConnectedRefl | src/detector/connected_components.rs:53-66 | a black cell is joined to itself by a chain of black 8-neighbours |
| ConnectedComponents.ConnectedStep | src/detector/connected_components.rs:53-66 | a chain extended by an adjacent black cell is a chain |
| ConnectedComponents.ConnectedSym | src/detector/connected_components.rs:53-66 | a chain of black 8-neighbours walked backwards is a chain |
| ConnectedComponents.ConnectedTrans | src/detector/connected_components.rs:53-66 | two chains meeting at a cell make one chain |
| ConnectedComponents.NeighbourCell | src/detector/connected_components.rs:50-67 | a neighbour label of a cell belongs to an earlier black cell adjacent to it |
| ConnectedComponents.Probed | src/detector/connected_components.rs:53-66 | a probe lists only the label of a black cell inside the image |
| ConnectedComponents.NeighbourList | src/detector/connected_components.rs:50-67 | the four probes list exactly the labels of the earlier black neighbours, each already issued |
| ConnectedComponents.NearLabelIssued | src/detector/connected_components.rs:50-67 | a neighbour label is between 1 and the last label handed out |
| ConnectedComponents.PassStart | src/detector/connected_components.rs:38-40 | before the first cell nothing is labelled, joined or connected yet, and label 1 is fresh |
| ConnectedComponents.StartHere | src/detector/connected_components.rs:73 | every earlier cell in the class of a neighbour label reaches the current cell by a chain |
| ConnectedComponents.FreshHere | src/detector/connected_components.rs:69-72 | a fresh label's class holds no earlier cell, and the next label is fresh afterwards |
| ConnectedComponents.UnionConnects | src/detector/connected_components.rs:75-79 | after `uf.union(min_label, l)` every class still has a chain between any two of its cells, and the merged class reaches the current cell |
| ConnectedComponents.UniteStep | src/detector/connected_components.rs:75-79 | one union keeps cells joined, classes connected and fresh labels fresh, and puts l in the class of the minimum |
| ConnectedComponents.ConnectsExtend | src/detector/connected_components.rs:69-74 | labelling a black cell with a label whose class reaches it keeps every class connected |
| ConnectedComponents.ConnectsSkip | src/detector/connected_components.rs:45-47 | a white cell leaves every class connected |
| ConnectedComponents.ConnectsRowDone | src/detector/connected_components.rs:43-44 | a finished row keeps every class connected into the next row |
| ConnectedComponents.LabelRow | src/detector/connected_components.rs:44-81 | a row of the first pass extends the labelled, joined and connected prefix by one row |
| ConnectedComponents.BoxRow | src/detector/connected_components.rs:89-101 | a row of the second pass succeeds exactly when its labels are within the union-find; then the boxes are tight up to the next row |
| ConnectedComponents.AdjacentSameRoot | src/detector/connected_components.rs:69-80 | after the first pass adjacent black cells share a root |
| ConnectedComponents.ChainSameRoot | src/detector/connected_components.rs:69-80 | after the first pass the cells of a chain of black 8-neighbours share a root |
| ConnectedComponents.ComponentsExact | src/detector/connected_components.rs:38-82 | after the first pass two black cells share a root exactly when a chain of black 8-neighbours joins them |
| ConnectedComponents.RegionsApart | src/detector/connected_components.rs:85-104 | two cells in the regions of keys k1 and k2 are joined by a chain exactly when k1 == k2, so different boxes come from unconnected components |
| ConnectedComponents.RegionsShape | src/detector/connected_components.rs:85-104 | every returned box lies inside the image, and there is none exactly when no cell is black |
| ConnectedComponents.FindBlackRegionsWith | src/detector/connected_components.rs:34-105 | with a union-find of at least w·h + 1 elements: every black cell labelled non-zero, two black cells share a root exactly when a chain of black 8-neighbours joins them, and, when every label fits, one tight box per root, each inside the image, none exactly when no cell is black |
| ConnectedComponents.FindBlackRegionsAsWritten | src/detector/connected_components.rs:34-105 | as written with a union-find of w·h elements: completes exactly when every label is below w·h (as-written half) |
| ConnectedComponents.OneBlackCellAsWritten | src/detector/connected_components.rs:38-94 | as written a 1×1 black image gets label 1 in a union-find of one element, and the lookup is out of range (as-written half) |
| ConnectedComponents.FindBlackRegions | src/detector/connected_components.rs:34-105 | corrected with capacity w·h + 1: every black cell labelled, two black cells share a root exactly when a chain of black 8-neighbours joins them, and one tight box per 8-connected component, each inside the image, none exactly when no cell is black (corrected half) |
| ConnectedComponents.OneBlackCell | src/detector/connected_components.rs:34-105 | corrected: a 1×1 black image gives the single box (0, 0, 0, 0) |
| ConnectedComponents.SingleKey | src/detector/connected_components.rs:104 | a map with a single key yields that one box |
| ConnectedComponents.SquareLinked | src/detector/connected_components.rs:111-123 | the four cells of the 2×2 square share one region |
| ConnectedComponents.SquareKeys | src/detector/connected_components.rs:111-123 | the square's region is the only key of the box map |
| ConnectedComponents.CoveredAt | src/detector/connected_components.rs:96-100 | after the second pass every black cell lies inside the box of its root |
| ConnectedComponents.SquareBox | src/detector/connected_components.rs:111-123 | the square's box is (2, 2, 3, 3) |
| ConnectedComponents.SquareSample | src/detector/connected_components.rs:111-123 | a 10×10 image with a 2×2 square at (2, 2) gives the one region (2, 2, 3, 3) |
| Tools.Kinds | src/tools/mod.rs:178-202 | each line of the file is classified on its own, in order |
| Tools.QrLines | src/tools/mod.rs:194-198 | the number of lines with at least eight numeric tokens, at most the number of lines |
| Tools.CornerLines | src/tools/mod.rs:199-201 | the number of lines with exactly two numeric tokens, at most the number of lines |
| Tools.FirstSets | src/tools/mod.rs:184-186 | the position of the first `SETS` marker, if there is one, with no marker before it |
| Tools.ParseNumericTokenCount | src/tools/mod.rs:164-171 | Some(n) exactly when the line has n > 0 whitespace-separated tokens and every one parses as a float |
| Tools.CountFloatTokens | src/tools/mod.rs:165-170 | the counting loop stops at the first token that is not a float and returns None for no tokens |
| Tools.ClassifyLine | src/tools/mod.rs:179-191 | a line is ignored when blank, a comment or not numeric, a marker when it is `SETS` in any case, else its token count |
| Tools.NoLinesCounted | src/tools/mod.rs:173-176 | the four counters start at zero over no lines |
| Tools.CountLine | src/tools/mod.rs:193-201 | one loop step: after `SETS` only 8+ token lines count, before it 8+ token lines and 2-token lines count separately |
| Tools.CountersResult | src/tools/mod.rs:204-213 | the result after `SETS` is the lines counted after it, else the 8+ token lines, or a quarter of the corner lines when there are none |
| Tools.ParseExpectedQrCount | src/tools/mod.rs:158-214 | an unreadable file gives 0; otherwise the count the lines announce |
| Tools.ExpectedQrCountBound | src/tools/mod.rs:158-214 | the announced count never exceeds the number of lines |
| Tools.QrLinesAppend | src/tools/mod.rs:178-202 | both line counts add over concatenated files |
| Tools.FirstSetsAppend | src/tools/mod.rs:184-186 | the first marker of a concatenation is in the first part if there is one there |
| Tools.KindsAppend | src/tools/mod.rs:178-179 | classifying a concatenation classifies each part |
| Tools.IgnoredKindNoEffect | src/tools/mod.rs:180-191 | an ignored line anywhere changes nothing |
| Tools.AnnouncedPastPrefix | src/tools/mod.rs:184-205 | with a marker in the second part only the 8+ token lines after it count |
| Tools.IgnoredWithoutMarker | src/tools/mod.rs:180-182 | without a marker an ignored line changes nothing |
| Tools.AnnouncedAfterMarker | src/tools/mod.rs:193-205 | after the first marker the count is the 8+ token lines after it; lines before it do not count |
| Tools.IgnoredAfterMarker | src/tools/mod.rs:180-182 | an ignored line after the marker changes nothing |
| Tools.IgnoredLineNoEffect | src/tools/mod.rs:180-191 | a blank, comment or non-numeric line can be inserted anywhere without changing the count |
| Tools.SetsHeaderIgnored | src/tools/mod.rs:184-205 | a header without marker, then `SETS`, counts only the body's 8+ token lines |
| Tools.LegacyCorners | src/tools/mod.rs:199-211 | without a marker or 8+ token lines, four more corner lines announce one more code |
| Tools.ClassifyNumbers | src/tools/mod.rs:189-191 | a trimmed line of floats that is neither a comment nor `SETS` classifies as its token count |
| Tools.NumericLine | src/tools/mod.rs:164-171 | space-joined float words starting with a digit classify as their number |
| Tools.CommentLine | src/tools/mod.rs:180 | a line starting with `#` is ignored |
| Tools.Coordinates | src/tools/mod.rs:243-244 | one decimal word per coordinate |
| Tools.CoordinateLine | src/tools/mod.rs:164-171 | a line of n coordinates classifies as n numbers |
| Tools.SetsLine | src/tools/mod.rs:184 | `SETS` is the marker |
| Tools.CoordinateLines | src/tools/mod.rs:243-261 | one line per coordinate row |
| Tools.CodeRows | src/tools/mod.rs:193-198 | rows of at least eight coordinates have no marker and count one each |
| Tools.CornerRows | src/tools/mod.rs:199-201 | rows of two coordinates have no marker, no 8+ token line, and count as corner lines |
| Tools.SetsLayoutSample | src/tools/mod.rs:238-248 | a comment, `SETS` and n rows of eight floats announce n codes |
| Tools.MarkerAfterIgnored | src/tools/mod.rs:180-205 | an ignored line then a marker count only the body |
| Tools.LegacyLayoutSample | src/tools/mod.rs:250-265 | a comment and n corner lines announce n / 4 codes |
| Tools.TextLine | src/tools/mod.rs:189-191 | a line whose first word is not a float, a comment or `SETS` is ignored |
| Tools.NonNumericIgnored | src/tools/mod.rs:189-191 | a trimmed line whose first token is not a float is ignored |
| Tools.InvalidContentSample | src/tools/mod.rs:267-272 | a text line and a comment announce 0 codes |
| Tools.SampleHeaderLines | src/tools/mod.rs:241-269 | the sample comment lines are ignored and `SETS` is the marker |
| Tools.SampleTextLine | src/tools/mod.rs:269 | `foo bar baz` is ignored |
| Tools.NothingAnnounced | src/tools/mod.rs:204-213 | a file of ignored lines announces 0 |
| Tools.SumBounds | src/tools/mod.rs:92-96 | the sum of values in [lo, hi] lies in [lo·n, hi·n] |
| Tools.GrayscaleStats | src/tools/mod.rs:89-104 | min and max are values of the input bounding every value, avg is ⌊sum / n⌋ between them; an empty input gives (255, 0, 0) |
| Tools.RowBlackBound | src/tools/mod.rs:110-114 | a row prefix has at most as many black cells as its length |
| Tools.BlackRowsBound | src/tools/mod.rs:109-115 | m rows have at most m·w black cells |
| Tools.BlackCellsBound | src/tools/mod.rs:107-116 | the black count never exceeds w·h |
| Tools.BlankNoBlack | src/tools/mod.rs:107-116 | a blank image has no black cells |
| Tools.BlankRowNoBlack | src/tools/mod.rs:110-114 | a blank row has no black cells |
| Tools.RowSetBlack | src/tools/mod.rs:111-113 | setting a white cell black adds one to its row count when inside the prefix |
| Tools.RowSetOther | src/tools/mod.rs:110-114 | setting a cell leaves the other rows' counts |
| Tools.SetBlackAddsOne | src/tools/mod.rs:109-115 | setting a white cell black adds exactly one to the total |
| Tools.ComputeBinaryStats | src/tools/mod.rs:107-127 | total is w·h, black is the number of black cells, the ratio is black / total (0 for an empty image) and lies in [0, 1] |
| Tools.BlackRatio | src/tools/mod.rs:117-121 | 0 for no pixels, else black / total, within [0, 1] |
| Tools.CountRowBlack | src/tools/mod.rs:110-114 | the inner loop counts the row's black cells |
| Tools.BenchLimit | src/tools/mod.rs:141-149 | an unset or unparseable variable gives None; a result is a positive usize |
| Tools.BenchLimitDecimal | src/tools/mod.rs:141-149 | a decimal (with optional `+`) up to usize::MAX gives itself, and 0 gives None |
| Tools.BenchLimitInvalid | src/tools/mod.rs:141-149 | an overflowing number, the empty string and a string with a non-digit give None |
| Tools.PathTotalOrder | src/tools/mod.rs:296 | path comparison is a total order |
| Tools.DatasetOrder | src/tools/mod.rs:290-300 | the images sorted then truncated to the limit: sorted, drawn from the input, of length min(limit, n), and every dropped path sorts after every kept one |
| Tools.KeptBeforeDropped | src/tools/mod.rs:296-299 | a prefix of the sorted list is sorted and keeps the smallest paths |
| ReportRows.LoadJson | scripts/triage_failure_clusters.py:23-29 | a missing file or invalid JSON raises `ValueError`; otherwise the parsed document |
| ReportRows.Lookup | scripts/triage_failure_clusters.py:36-39 | `dict.get`: the stored value when the key is present, else the default |
| ReportRows.RowList | scripts/triage_failure_clusters.py:33-35 | iterating a list gives its items; an empty string or dict gives nothing; anything else crashes at `.get` |
| ReportRows.StrAll | scripts/triage_failure_clusters.py:39 | `str()` of every item, succeeding exactly when every item converts, in order |
| ReportRows.ExampleList | scripts/triage_failure_clusters.py:39 | a list gives its items as strings, a string its characters; a number, boolean or null is not iterable |
| ReportRows.NormalizeRowFields | scripts/triage_failure_clusters.py:34-48 | a row is kept exactly when signature, count, qr_weight and examples convert, and it holds those four values; a non-dict crashes |
| ReportRows.NormalizeDefaults | scripts/failure_signature_tuning_report.py:31-40 | a row with none of the fields becomes ("unknown-fail", 0, 0, []) |
| ReportRows.NormalizeAll | scripts/triage_failure_clusters.py:34-48 | the loop succeeds exactly when every row normalises, keeping order; a failure is that of some row |
| ReportRows.Normalized | scripts/triage_failure_clusters.py:35-48 | one outcome per row, in order |
| ReportRows.CollectOk | scripts/triage_failure_clusters.py:35-48 | all values or the first failure, with every earlier outcome a success |
| ReportRows.NormalizeStep | scripts/triage_failure_clusters.py:35-48 | one more row either appends its normalised form or stops with its failure |
| ReportRows.NormalizePrefixFails | scripts/triage_failure_clusters.py:35-48 | a failure among the first rows is the failure of the whole loop |
| ReportRows.CollectPrefixFails | scripts/triage_failure_clusters.py:35-48 | a failing prefix decides the collected result |
| ReportRows.FirstExample | scripts/triage_failure_clusters.py:67 | the first example, or "-" when there is none |
| Triage.StageHint | scripts/triage_failure_clusters.py:11-46 | the listed stage of a known signature, else "investigate mixed pipeline signals" |
| Triage.StageHintFallback | scripts/triage_failure_clusters.py:46 | the fallback is given exactly for unlisted signatures |
| Triage.EverySignatureStaged | scripts/triage_failure_clusters.py:11-20 | each of the eight failure signatures has a listed stage |
| Triage.Hinted | scripts/triage_failure_clusters.py:40-47 | the row keeps its four fields and gains the stage hint of its signature |
| Triage.HintedAll | scripts/triage_failure_clusters.py:35-48 | every row hinted, in order |
| Triage.DefaultRow | scripts/triage_failure_clusters.py:36-46 | an empty row becomes ("unknown-fail", 0, 0, [], "mixed signals; inspect per-image telemetry") |
| Triage.BuildRows | scripts/triage_failure_clusters.py:32-53 | a normalisation failure ends the script; otherwise the hinted rows ranked by (−qr_weight, −count, signature) and cut to top_n |
| Triage.RankedRows | scripts/triage_failure_clusters.py:50-53 | the report has min(top_n, n) rows, sorted by the key, each a hinted input row with its own stage hint |
| Triage.LeftOutRanksLower | scripts/triage_failure_clusters.py:50-53 | every row left out ranks no higher than every row reported |
| Triage.Triage | scripts/triage_failure_clusters.py:111-123 | a missing artifact raises ValueError; otherwise the report with top_n = max(1, --top-n) in both places |
| Triage.ReportNotEmpty | scripts/triage_failure_clusters.py:116 | a non-empty artifact reports at least one row |
| Triage.TableLines | scripts/triage_failure_clusters.py:66-71 | one table line per row, numbered from 1, with the row's fields and its first example or "-" |
| TuningReport.EverySignatureHinted | scripts/failure_signature_tuning_report.py:10-19 | each of the eight failure signatures has a listed subsystem and knobs |
| TuningReport.Keyed | scripts/failure_signature_tuning_report.py:33-39 | each normalised row keyed by its signature, in file order |
| TuningReport.FailureMapLastWins | scripts/failure_signature_tuning_report.py:31-40 | the map's keys are exactly the signatures present, and each holds the last row with that signature |
| TuningReport.FillKeyedStep | scripts/failure_signature_tuning_report.py:35-39 | one more row overwrites the entry of its signature |
| TuningReport.FailureMap | scripts/failure_signature_tuning_report.py:31-40 | a normalisation failure ends the script; otherwise the map filled row by row |
| TuningReport.QueueRowFor | scripts/failure_signature_tuning_report.py:58-74 | an absent side counts 0; the deltas are candidate − baseline; the hint is the listed one or ("mixed", "inspect telemetry") |
| TuningReport.Example | scripts/failure_signature_tuning_report.py:73 | the first candidate example, else the first baseline example, else "-" |
| TuningReport.QueueRows | scripts/failure_signature_tuning_report.py:57-75 | one queue row per signature, in order |
| TuningReport.BuildQueue | scripts/failure_signature_tuning_report.py:53-83 | either artifact's failure ends the script; otherwise one row per signature of the union, sorted by (descending absolute qr_weight delta, descending absolute count delta, signature), the first min(top_n, size of the union) of them, every left-out one ranking no higher |
| TuningReport.RankedQueue | scripts/failure_signature_tuning_report.py:56-83 | ranking the rows of the sorted union satisfies the queue's whole specification |
| TuningReport.QueueRowsDistinct | scripts/failure_signature_tuning_report.py:56-58 | distinct signatures give distinct rows |
| TuningReport.QueueLines | scripts/failure_signature_tuning_report.py:58-83 | every reported line is the queue row of its own signature, drawn from the union |
| TuningReport.QueueLeftOut | scripts/failure_signature_tuning_report.py:76-83 | a signature left out ranks no higher than every reported one |
| TuningReport.CategoryRateMap | scripts/failure_signature_tuning_report.py:43-50 | only dict rows with a string name and an int or float rate count, a later one overwriting; a non-dict row crashes |
| TuningReport.CategoryDeltas | scripts/failure_signature_tuning_report.py:129-132 | one delta per name of the union, candidate − baseline with a missing side read as 0.0, in ascending name order without repeats |
| TuningReport.DeltaRows | scripts/failure_signature_tuning_report.py:129-132 | the deltas over the sorted distinct union meet that specification |
| TuningReport.TuningReport | scripts/failure_signature_tuning_report.py:121-132 | a missing artifact raises ValueError and each later failure stops the script with its error; Ok exactly when both load, both failure row lists and both category lists read; then the queue for top_n = max(1, --top-n) and the deltas of the two rate maps over their sorted union |
| ArtifactGate.Member | scripts/compare_reading_rate_artifacts.py:33-37 | `dict.get`: the stored value when the key is present, else the default |
| ArtifactGate.Contains | scripts/compare_reading_rate_artifacts.py:27 | `in` on a dict tests its keys; on a number, boolean or null it raises |
| ArtifactGate.LoadArtifact | scripts/compare_reading_rate_artifacts.py:18-29 | a missing or invalid file raises ValueError; a dict is accepted exactly when it has a top-level "summary" key |
| ArtifactGate.ReadMetrics | scripts/compare_reading_rate_artifacts.py:32-44 | both fields must be int or float (so booleans pass), else ValueError; a non-dict on the way raises another error; the result is the two values as floats |
| ArtifactGate.ReadFingerprint | scripts/compare_reading_rate_artifacts.py:47-52 | the fingerprint is accepted exactly when it is a non-empty string, else ValueError |
| ArtifactGate.Validate | scripts/compare_reading_rate_artifacts.py:99-105 | the six validations in order; a success holds both documents, both metrics and both fingerprints |
| ArtifactGate.RegressionCases | scripts/compare_reading_rate_artifacts.py:119-122 | both medians ≤ 0 give 0; only a baseline ≤ 0 gives +∞; otherwise (c − b) / b · 100, positive exactly when c > b |
| ArtifactGate.IdenticalArtifactsPass | scripts/compare_reading_rate_artifacts.py:110-168 | the same artifact twice has equal fingerprints, zero drop and zero regression, and passes non-negative thresholds |
| ArtifactGate.CategoryEntry | scripts/compare_reading_rate_artifacts.py:58-63 | an entry counts exactly when it is a dict with a string name and a numeric rate |
| ArtifactGate.Counted | scripts/compare_reading_rate_artifacts.py:57-63 | each entry's outcome, in order |
| ArtifactGate.RatesOfLastWins | scripts/compare_reading_rate_artifacts.py:55-64 | the keys are the names of counted entries, and each holds the rate of the last entry with that name |
| ArtifactGate.CategoryEntries | scripts/compare_reading_rate_artifacts.py:57 | a missing "categories" key gives no entries; an entry list that cannot be iterated raises |
| ArtifactGate.PerCategoryRates | scripts/compare_reading_rate_artifacts.py:55-64 | the map filled entry by entry, or an error when the list cannot be iterated |
| ArtifactGate.SharedDeltas | scripts/compare_reading_rate_artifacts.py:137-147 | one delta per name in both maps, candidate − baseline, in ascending name order without repeats |
| ArtifactGate.Compare | scripts/compare_reading_rate_artifacts.py:96-168 | exit 2 exactly on a ValueError; a fingerprint mismatch without the flag gives 1; afterwards 1 when either check fails and 0 otherwise, both checks evaluated |
| ArtifactGate.BooleansAreNumbers | scripts/compare_reading_rate_artifacts.py:39-44 | `true` and `false` read as a rate of 1.0 and a median of 0.0 |
| Text.SpaceRun | src/tools/mod.rs:179 | the leading whitespace run: all whitespace, followed by a non-space or the end |
| Text.SpaceRunEnd | src/tools/mod.rs:179 | the trailing whitespace run: all whitespace, preceded by a non-space or the start |
| Text.Trim | src/tools/mod.rs:179 | `trim` is empty exactly for an all-whitespace line, and otherwise starts and ends with a non-space |
| Text.TrimKeeps | src/tools/mod.rs:179 | a string with no whitespace at either end trims to itself |
| Text.TrimIdempotent | src/tools/mod.rs:179 | trimming twice is trimming once |
| Text.WordPrefix | src/tools/mod.rs:166 | the longest whitespace-free prefix |
| Text.Tokens | src/tools/mod.rs:166 | `split_whitespace`: every token non-empty and free of whitespace |
| Text.WordPrefixOf | src/tools/mod.rs:166 | a word followed by whitespace or nothing is the word prefix |
| Text.TokensWord | src/tools/mod.rs:166 | one word splits into itself |
| Text.TokensCons | src/tools/mod.rs:166 | a word, a space and the rest split into the word and the rest's tokens |
| Text.TokensUnwords | src/tools/mod.rs:166 | splitting words joined by single spaces gives the words back |
| Text.TokensUnwordsStep | src/tools/mod.rs:166 | the inductive step of that round trip |
| Text.EqIgnoreAsciiCaseSamples | src/tools/mod.rs:184 | `SETS`, `sets` and `SeTs` equal `SETS` ignoring ASCII case; `SET` and `SETZ` do not |
| Text.Decimal | src/tools/mod.rs:143-146 | the decimal notation of n: digits only, no leading zero |
| Text.DecimalRoundTrip | src/tools/mod.rs:143-146 | reading the notation of n gives n |
| Text.ParseUnsigned | src/tools/mod.rs:143-146 | `parse::<usize>`: at most the maximum; the empty string and a non-digit other than a leading `+` fail |
| Text.ParseDecimal | src/tools/mod.rs:143-146 | the notation of every representable value, with or without `+`, parses back to it |
| Text.DigitRun | src/tools/mod.rs:167 | the length of the leading digit run |
| Text.IntegerIsFloat | src/tools/mod.rs:167 | every decimal integer parses as f64 |
| Text.FractionIsFloat | src/tools/mod.rs:167 | n.m parses as f64 |
| Text.FractionIsDecimal | src/tools/mod.rs:167 | digits, a point and digits form a decimal float |
| Text.UnsignedIsFloat | src/tools/mod.rs:167 | a decimal float starting with a digit is a float |
| Text.DigitRunAll | src/tools/mod.rs:167 | a run of digits is its own digit run |
| Text.DigitRunPrefix | src/tools/mod.rs:167 | the digit run of digits followed by a non-digit stops at the non-digit |
| Text.FloatSamples | src/tools/mod.rs:167 | `1.0`, `-2.5e3`, `.5` and `7.` parse as f64 |
| Text.SpecialFloatSamples | src/tools/mod.rs:167 | `+inf`, `NaN` and `-Infinity` parse as f64 |
| Text.NonFloatWord | src/tools/mod.rs:167 | `foo` does not parse |
| Text.NonFloatSamples | src/tools/mod.rs:167 | `.`, `1e`, the empty string and `1.2.3` do not parse |
| Json.ToFloat | scripts/compare_reading_rate_artifacts.py:44 | `float()` of an int, a float or a boolean (1.0 / 0.0) |
| Json.Get | scripts/triage_failure_clusters.py:33 | `dict.get` fails on a non-dict, else gives the stored value or the default |
| Json.Trunc | scripts/triage_failure_clusters.py:37 | `int()` of a float truncates toward zero |
| Json.SignedDecimal | scripts/triage_failure_clusters.py:36 | `str()` of an int is never empty |
| Json.ParseInt | scripts/triage_failure_clusters.py:37 | `int()` of a string raises ValueError when it is not an integer literal |
| Json.ToInt | scripts/triage_failure_clusters.py:37-38 | `int()`: an int is itself, a boolean 0 or 1, a float truncated; null, a list or a dict raise |
| Json.StrOf | scripts/triage_failure_clusters.py:36-39 | `str()` of a string is itself; floats, lists and dicts are not modelled |
| Json.IntStrRoundTrip | scripts/triage_failure_clusters.py:36-37 | `int(str(i)) == i` for every int |
| Json.ParseSignedDecimal | scripts/triage_failure_clusters.py:37 | the notation of every int parses back to it |
| JsonEscape.Hex4 | src/bin/qrtool.rs:1289-1291 | four lowercase hex digits |
| JsonEscape.EscapeChar | src/bin/qrtool.rs:1283-1293 | one character escapes to itself exactly when it is not `"`, `\\` or a control character below 0x20 |
| JsonEscape.EscapedAppend | src/bin/qrtool.rs:1282-1294 | escaping distributes over concatenation |
| JsonEscape.Escape | src/bin/qrtool.rs:1280-1296 | the loop's output is the character-by-character escape of the input |
| JsonEscape.HexValue | src/bin/qrtool.rs:1290 | a hex digit reads as a value below 16 |
| JsonEscape.HexValue4 | src/bin/qrtool.rs:1290 | four hex digits read as a value below 0x10000 |
| JsonEscape.HexDigitValue | src/bin/qrtool.rs:1290 | each hex digit reads back as its value |
| JsonEscape.Hex4RoundTrip | src/bin/qrtool.rs:1289-1291 | the four hex digits of n read back as n |
| JsonEscape.UnescapeChar | src/bin/qrtool.rs:1283-1293 | reading an escaped character gives the character back |
| JsonEscape.EscapeRoundTrip | src/bin/qrtool.rs:1280-1296 | reading the escaped string as a JSON string literal (RFC 8259 section 7) gives the input back |
| JsonEscape.EscapedLength | src/bin/qrtool.rs:1280-1296 | the output is never shorter, and equal in length exactly when nothing needs escaping |
| JsonEscape.EscapeIdentity | src/bin/qrtool.rs:1280-1296 | the output equals the input exactly when no character needs escaping |
| JsonEscape.PlainUnchanged | src/bin/qrtool.rs:1292 | a string without quotes, backslashes or control characters is copied unchanged |
| JsonEscape.EscapeSamples | src/bin/qrtool.rs:1284-1291 | ESC becomes `\u001b` and a quote is backslash-escaped |
| Dicts.FillLastWins | scripts/failure_signature_tuning_report.py:31-40 | the dict's keys are the keys stored, and each holds the last value stored under it |
| Dicts.FillKey | scripts/failure_signature_tuning_report.py:35 | the same for one key |
| Dicts.FillStep | scripts/failure_signature_tuning_report.py:35 | one more item either leaves the dict or overwrites the entry of its key |
| Sorting.InsertBy | scripts/triage_failure_clusters.py:50-52 | one insertion adds exactly the element |
| Sorting.InsertSorted | scripts/triage_failure_clusters.py:50-52 | inserting into a sorted sequence keeps it sorted |
| Sorting.SortBy | scripts/triage_failure_clusters.py:50-52 | the sorted sequence is a permutation of the input in order |
| Sorting.SameHead | src/bin/qrtool.rs:694-699 | two sorted permutations under a total order start with the same element |
| Sorting.Tail | src/bin/qrtool.rs:694-699 | the tail of a sorted sequence is sorted and holds the rest |
| Sorting.SortedUnique | src/bin/qrtool.rs:694-699 | under a total order the sorted permutation is unique |
| Sorting.SortByUnique | src/bin/qrtool.rs:694-699 | any sorted permutation is the one the sort returns |
| Sorting.LexTotal | src/bin/qrtool.rs:698 | lexicographic comparison is total |
| Sorting.LexTransitive | src/bin/qrtool.rs:698 | lexicographic comparison is transitive |
| Sorting.LexAntisymmetric | src/bin/qrtool.rs:698 | lexicographic comparison is antisymmetric |
| Sorting.StrTotalOrder | src/bin/qrtool.rs:698 | character and string comparison are total orders |
| Sorting.StrSamples | src/bin/qrtool.rs:698 | "" < "a", "ab" < "abc", "abc" < "abd", and "b" is not below "abc" |
| Ranking.KeyTotalOrder | src/bin/qrtool.rs:694-699 | the cluster key (−qr_weight, −count, signature) is a total order |
| Ranking.ByKeyPreorder | scripts/triage_failure_clusters.py:50-52 | ordering rows by their key is a total preorder; ties have equal keys |
| Ranking.Ranked | scripts/triage_failure_clusters.py:50-53 | the sorted prefix has min(top_n, n) rows, is sorted, and is drawn from the input |
| Ranking.RankedKeepsBest | scripts/triage_failure_clusters.py:50-53 | every reported row ranks no lower than every row left out |
| Ranking.DroppedOccurrence | scripts/triage_failure_clusters.py:53 | a row counted less in the prefix occurs after it |
| Ranking.ClampTopN | scripts/triage_failure_clusters.py:116 | max(1, n): at least 1 and n itself when positive |
| Ranking.Twice | scripts/failure_signature_tuning_report.py:56 | an element at two positions occurs at least twice |
| Ranking.DistinctOnce | scripts/failure_signature_tuning_report.py:56 | in a sequence without repeats every element occurs at most once |
| Ranking.MapKeys | scripts/failure_signature_tuning_report.py:56 | the keys of a map without repeats |
| Ranking.SortedNames | scripts/failure_signature_tuning_report.py:56 | `sorted(set(...))`: the names in ascending order, each once |
| FailureClusters.NamesDistinct | src/bin/qrtool.rs:1226-1249 | the eight signature names are distinct |
| FailureClusters.ClassifyFailureSignature | src/bin/qrtool.rs:1226-1229 | over-budget-skip exactly when decoding was skipped by the budget and no payload decoded |
| FailureClusters.StageCounts | src/bin/qrtool.rs:1230-1247 | the six stage counters the ladder tests, in its order |
| FailureClusters.ClassifyIsFirstFailedStage | src/bin/qrtool.rs:1230-1248 | otherwise the signature names the first stage with a zero count, and unknown-fail exactly when every stage passed |
| FailureClusters.BudgetSkipNeedsNoPayload | src/bin/qrtool.rs:1227 | a decoded payload rules out over-budget-skip |
| FailureClusters.Paths | src/bin/qrtool.rs:1186 | the paths of the misses, in order |
| FailureClusters.AddMiss | src/bin/qrtool.rs:1183-1187 | a miss adds one to the count and its expected codes to the weight |
| FailureClusters.AddMissSummary | src/bin/qrtool.rs:1175-1187 | filing one more miss gives the cluster of all the misses, examples the first three paths |
| FailureClusters.WeightAtLeastCount | src/bin/qrtool.rs:1183-1184 | misses of labelled images weigh at least their number |
| FailureClusters.ClusterOfWellFormed | src/bin/qrtool.rs:1183-1187 | a cluster of misses weighs at least its count and keeps at most three examples |
| FailureClusters.MergeExamplesProperties | src/bin/qrtool.rs:450-454 | merging keeps the examples already kept, adds only incoming ones, stays within three and without repeats, and takes every incoming one while room remains |
| FailureClusters.MergeExampleList | src/bin/qrtool.rs:450-454 | the loop computes that merge |
| FailureClusters.MergeCluster | src/bin/qrtool.rs:448-449 | counts and weights add |
| FailureClusters.MergeClusterWellFormed | src/bin/qrtool.rs:440-455 | merging well-formed clusters keeps them well formed |
| FailureClusters.MergeExamplesLength | src/bin/qrtool.rs:450-454 | the merged list is no longer than both lists together |
| FailureClusters.MergedOverEntries | src/bin/qrtool.rs:440-455 | merging over a list of local keys covers those and the global keys, merging exactly the listed ones |
| FailureClusters.MergeClusters | src/bin/qrtool.rs:440-455 | the merged map has the keys of both; a local entry is merged into its global one (or an empty cluster); other global entries stay |
| FailureClusters.MergeInto | src/bin/qrtool.rs:441-454 | one step merges one cluster into its entry |
| FailureClusters.MergeKeepsWellFormed | src/bin/qrtool.rs:440-455 | the merge of well-formed maps is well formed |
| FailureClusters.FailureRows | src/bin/qrtool.rs:685-699 | one row per cluster, sorted by (−qr_weight, −count, signature), each row the cluster of its signature |
| FailureClusters.RowTieSameSignature | src/bin/qrtool.rs:694-699 | rows tied under the order have the same signature, count and weight |
| Telemetry.Plus4 | src/bin/qrtool.rs:897-899 | the four score buckets add elementwise |
| Telemetry.Plus5 | src/bin/qrtool.rs:940-942 | the five attempt buckets add elementwise |
| Telemetry.AttemptsHistBucket | src/bin/qrtool.rs:947-959 | the bucket index is below 5 |
| Telemetry.BitLengthAtLeastFour | src/bin/qrtool.rs:956-957 | eight or more attempts need at least four bits |
| Telemetry.AttemptsBucketIsBitLength | src/bin/qrtool.rs:947-959 | 0 → 0, 1 → 1, 2–3 → 2, 4–7 → 3, ≥ 8 → 4: the bit length capped at 4 |
| Telemetry.AttemptsBucketMonotone | src/bin/qrtool.rs:947-959 | more attempts never fall into a lower bucket |
| Telemetry.Zero | src/bin/qrtool.rs:789-790 | the default telemetry is consistent and has processed nothing |
| Telemetry.Accumulate | src/bin/qrtool.rs:890-944 | every counter adds, so the images loaded add and the totals add |
| Telemetry.RecordDecode | src/bin/qrtool.rs:1092-1171 | a loaded image counts once in the attempt histogram and leaves the total |
| Telemetry.CountImage | src/bin/qrtool.rs:1074-1171 | a labelled image adds one to the total, and one loaded image when it loaded |
| Telemetry.CountImageConsistent | src/bin/qrtool.rs:1074-1171 | counting an image keeps the telemetry consistent |
| Telemetry.AccumulateConsistent | src/bin/qrtool.rs:890-944 | accumulating consistent telemetry keeps it consistent |
| Telemetry.AccumulateCommutative | src/bin/qrtool.rs:890-944 | accumulation commutes |
| Telemetry.AccumulateAssociative | src/bin/qrtool.rs:890-944 | accumulation associates |
| Telemetry.AccumulateZero | src/bin/qrtool.rs:890-944 | the default telemetry is the identity |
| Telemetry.CountImageIsAccumulate | src/bin/qrtool.rs:890-1171 | counting an image equals accumulating that image's telemetry |
| Telemetry.Plus4Zero | src/bin/qrtool.rs:897-899 | adding zero buckets changes nothing |
| Telemetry.BumpIsPlus | src/bin/qrtool.rs:1108-1109 | bumping one bucket adds a unit vector |
| Runtime.RealTotalOrder | src/bin/qrtool.rs:992 | the comparison of runtimes is a total order |
| Runtime.FromSamples | src/bin/qrtool.rs:979-1009 | empty input gives all zeros; otherwise count, total and mean of the samples, min and max are samples bounding them all, min ≤ mean, median ≤ max, the median is the middle value (or mean of the two middle values) of the sorted copy and splits the samples in halves |
| Runtime.SortedSummary | src/bin/qrtool.rs:991-1007 | the ends of a sorted copy are samples bounding every sample, the mean and the median |
| Runtime.MeanOfSamples | src/bin/qrtool.rs:994 | the mean of samples in [lo, hi] lies in [lo, hi] |
| Runtime.MedianOfSorted | src/bin/qrtool.rs:995-1000 | the middle value lies between the ends and has at least half of the samples on each side |
| Runtime.SortedBetween | src/bin/qrtool.rs:1006-1007 | every element of a sorted sequence lies between its ends |
| Runtime.SamplesBetween | src/bin/qrtool.rs:1006-1007 | the ends of a sorted copy are samples and bound every sample |
| Runtime.MiddleHalves | src/bin/qrtool.rs:995-1000 | the middle value of a sorted sequence has half of it on each side |
| Runtime.SplitCount | src/bin/qrtool.rs:995-1000 | counts on one side add over a split |
| Runtime.CountAll | src/bin/qrtool.rs:995-1000 | when every element is on a side they all count |
| Runtime.CountAppend | src/bin/qrtool.rs:995-1000 | counts add over concatenation |
| Runtime.CountPermutation | src/bin/qrtool.rs:991-992 | counts do not depend on order, so the sorted copy counts the same |
| Runtime.SumAppend | src/bin/qrtool.rs:993 | sums add over concatenation |
| Runtime.SumPermutation | src/bin/qrtool.rs:991-993 | the sum of the sorted copy is the sum of the samples |
| Runtime.SumBetween | src/bin/qrtool.rs:993 | a sum of n values in [lo, hi] lies in [n·lo, n·hi] |
| Runtime.MeanBetween | src/bin/qrtool.rs:994 | dividing such a sum by n lands in [lo, hi] |
| ReadingRate.ImageHits | src/bin/qrtool.rs:1081-1087 | hits per image are capped at the expected count |
| ReadingRate.ImageHitsBestOfBoth | src/bin/qrtool.rs:1081-1087 | the hits are min(max(telemetry results, production results), expected) |
| ReadingRate.MissesStep | src/bin/qrtool.rs:1173-1188 | one more image appends its miss to the list of its signature only |
| ReadingRate.EmptySummarises | src/bin/qrtool.rs:1054-1061 | the initial statistics summarise no images |
| ReadingRate.SkipStep | src/bin/qrtool.rs:1064-1071 | an image without a label file or with 0 expected codes changes nothing |
| ReadingRate.LabelledStep | src/bin/qrtool.rs:1072-1188 | the updates of one labelled image keep the statistics a summary of the images seen |
| ReadingRate.FileMiss | src/bin/qrtool.rs:1174-1187 | a miss is filed into the cluster of its signature, created empty when missing |
| ReadingRate.FileMissStep | src/bin/qrtool.rs:1173-1188 | filing a miss keeps the clusters a summary of the misses |
| ReadingRate.FileMissAt | src/bin/qrtool.rs:1173-1188 | the same for one signature |
| ReadingRate.FiledEntry | src/bin/qrtool.rs:1175-1187 | filing into the entry of a signature gives the cluster of its misses |
| ReadingRate.NoMissStep | src/bin/qrtool.rs:1173 | an image with hits leaves the clusters |
| ReadingRate.RecordImage | src/bin/qrtool.rs:1063-1221 | one iteration keeps the statistics the summary of the images seen |
| ReadingRate.RecordLabelled | src/bin/qrtool.rs:1072-1188 | a labelled image adds one labelled image, its expected codes, its capped hits, its runtime if loaded, its telemetry, and files a miss when there were no hits |
| ReadingRate.ReadingRateForImages | src/bin/qrtool.rs:1046-1224 | the result summarises every image: hits, expected, labelled images, runtimes, telemetry and clusters |
| ReadingRate.HitsAtMostExpected | src/bin/qrtool.rs:1087-1088 | total hits never exceed total expected |
| ReadingRate.MissesExpectSome | src/bin/qrtool.rs:1069-1184 | every miss expected at least one code |
| ReadingRate.ClustersWellFormed | src/bin/qrtool.rs:1173-1188 | every cluster weighs at least its count and keeps at most three examples |
| ReadingRate.TelemetryCounts | src/bin/qrtool.rs:1074-1171 | the telemetry's total is the labelled count and its loaded count the number of runtime samples |
| ReadingRate.SamplesAtMostLabelled | src/bin/qrtool.rs:1089 | there are no more runtime samples than labelled images |

## Left out

Plumbing and I/O:
- File, process, environment and command-line plumbing is left out because it is I/O. The model takes the values it would produce as parameters. This covers:
  - `load_rgb`, `collect_images` and `load_smoke_list`;
  - JSON and Markdown writing, `utc_timestamp` and `commit_sha`;
  - the argparse and clap entry points;
  - `src/decoder/config.rs` and `src/debug.rs`.
- Printing and report rendering in all three scripts and in the benchmark tool are left out. Only the exit codes, the rows and the orders they print are modelled.
- The detector calls behind the benchmark loop are parameters: `detect`, the telemetry run and `detect_qr`. The model does not run a detector.

Floating point:
- Floating-point geometry and scoring are left out because they are floating point. This covers:
  - `src/utils/geometry.rs` and `src/models/point.rs`;
  - the finder ratio test and merging;
  - `src/detector/contour.rs`;
  - grey sampling and transform refinement;
  - Sauvola thresholding;
  - the confidence, rerank, IoU, blur and region-clustering scores of `src/pipeline.rs`.
- Rates, runtimes, Otsu's between-class variance, the pyramid scales and the ratios are `real`. Rounding of `f32` and `f64` is not modelled.
- Telemetry.AccumulateAssociative: the telemetry's `*_sum` fields are `f64` in the source, whose addition rounds and is not associative; this law and `Telemetry.AccumulateCommutative` hold for the model's exact `real` sums only.
- Otsu's variance search is modelled over exact reals. Its degenerate uniform case (128) and a two-level split are proved.

Orchestration, parallel code and files that are not part of this model:
- `src/lib.rs` (`detect*`), `src/decoder/qr_decoder.rs` and `decode_ranked_groups` are not part of this model. They orchestrate the float-based code above.
- The SSE2 and NEON kernels and the `*_parallel` variants in `src/utils/grayscale.rs` are left out because they are SIMD and rayon code. Only the scalar per-pixel semantics are modelled.
- `src/detector/timing.rs`, `transform.rs` and `alignment.rs` are not part of this model. `read_timing_pattern` is always `None`, so `validate_timing_patterns` is always false.
- The diagnostic binaries, examples, benchmarks and image tests are not part of this model.

Weaker contracts and deliberate modelling choices:
- Json.StrOf: `str()` of a float, a list or a dict gives `Err(NotModelled)`, because Python's float printing and container `repr` are not modelled. A row whose signature or example is such a value therefore ends in `NotModelled`, where the script would print that repr.
- ReedSolomon.Decode: a zero divisor in the Forney step gives `Err(DivisionByZero)`. The source panics there (src/decoder/reed_solomon.rs:48-63, 259).
- Gf256.Div: requires a non-zero divisor, because `Gf256::div` panics on zero.
- Pipeline.LaneBudgetFromAttempts: the shares `floor(n * 0.5)` and `floor(n * 0.3)` are computed in `f32` (src/pipeline.rs:1073-1074). The model uses the exact `n / 2` and `3 * n / 10`. The two first differ at n = 3,495,263: the `f32` product floors to a medium share of 1,048,579, and the model gives 1,048,578. Every smaller `n` agrees.
- Binarization.ThresholdInto: `BitMatrix::reset` is called but not defined in `src/models/matrix.rs`. So the `_into` variants require an output that is already `w × h`, where the source resets it (src/utils/binarization.rs:18, 55).
- Binarization.OtsuBinarizeInto: the same output-size requirement, for the same missing `reset`.
- Binarization.AdaptiveBinarizeInto: the same output-size requirement, for the same missing `reset`.
- MatrixDecode.BeamRepair: when the confidence vector has length `width · height`, it requires `width <= height`. The source indexes `y * width + x` for `x, y < width` (src/decoder/qr_decoder/matrix_decode.rs:140-141), which is out of range, a panic, on a wider-than-tall matrix.
- Grayscale.ToGrayscaleWithBuffer: requires an output buffer of at least `w · h` bytes where the source asserts it and panics (src/utils/grayscale.rs:419, 451).
- Pyramid.GetSearchWindow: returns `None` for an empty original image. The source computes `original_width - 1` and underflows there; that is a panic in debug builds.
- MemoryPool: `Vec` growth is modelled deterministically: `reserve` grows to `max(2 · capacity, len + additional)`. Rust's minimum non-zero capacity (8 for a `Vec<u8>`) is not modelled either. The bytes that `set_len` exposes are arbitrary.
- Payload: the Kanji character count is 0 because `char_count_bits` returns 0 for Kanji. A Kanji segment therefore reads no characters.
- ReedSolomon.CalculateSyndrome: keeps the source's `(i * j) as u8` exponent, which wraps mod 256 while the field's period is 255. `ReedSolomon.SyndromeExponentWraps` states the effect.
- Binarization.BuildIntegralImage: the `u32` sums wrap mod 2^32, as a release build does. A debug build's overflow panic is not modelled.
- Binarization.LocalMean: the `count as u32` cast is not modelled. The count is at most `w · h`.
- Binarization.OtsuThreshold: `calculate_otsu_threshold` adds the class counts and the class sums in `u32` (src/utils/binarization.rs:169-181), and the model adds them exactly. They agree below 16,843,010 pixels (`Binarization.OtsuSumsFitU32`). From 16,843,010 white pixels on, `class2_sum` at threshold 0 reaches 2^32 (`Binarization.OtsuSumWrapsAt`): a release build wraps there and a debug build panics, and neither is modelled.
- Binarization.ClassSums: the same exact sums in place of the `u32` adds.
- Json.ParseInt: accepts an optional sign and ASCII digits only. Python's `int()` also accepts `_` between digits and non-ASCII decimal digits; those strings give `ValueError` here.
- Ranking.Ranked: sorts by the key with a stable insertion, as Python's `sorted` does, but its contract does not say in which order rows with equal keys come. Under the triage key such rows share signature, count and weight and can differ only in their examples. The tuning queue's rows have distinct signatures, so they never tie (`TuningReport.QueueRowsDistinct`).
- Format.Extract: `read_format_bits_top_left` reads 14 bits and then requires 15, so format extraction is always `None`. The decode paths that depend on it are modelled accordingly; `MatrixDecode.FastPath` is always `None`.

## Findings

Each row pairs a member that models the code as written with a corrected
member. The corrected member carries the intended property, proved.

| source | as written | input that shows it | evidently intended | confidence | as-written member | corrected member |
|---|---|---|---|---|---|---|
| src/decoder/reed_solomon.rs:22-36 | `EXP_TABLE` departs from the powers of 2 modulo 0x11D from index 136 (71 where 79 is due) and returns to 1 at index 138, so it no longer inverts `LOG_TABLE`; `mul(1, 7)` is not 7 | the two-byte block [7, 185] with one EC codeword: its syndrome is zero over the source's tables, so `decode` accepts it | the antilog table of GF(2^8) for x^8 + x^4 + x^3 + x^2 + 1, the inverse of `LOG_TABLE`; over it the same block fails | not executed | ReedSolomon.TwoByteBlockAsWritten | ReedSolomon.TwoByteBlockStandard |
| src/detector/connected_components.rs:39-40 | labels start at 1 and reach `w · h`, but the union-find has only `w · h` elements | a 1×1 all-black matrix takes label 1, and `parent[1]` is out of range, a panic | a union-find of `w · h + 1` elements, so every label has an entry | not executed | ConnectedComponents.OneBlackCellAsWritten | ConnectedComponents.OneBlackCell |
| src/utils/memory_pool.rs:72-78 | `ensure_grayscale_capacity` reserves `capacity - grayscale_capacity` more elements beyond the current length, then records `capacity`. The recorded capacity can exceed the real one | `with_capacity(100)`, `ensure_grayscale_capacity(200)`, then `get_grayscale_buffer(150)`: the recorded 200 skips growth, `set_len` is skipped, and slicing 150 of an empty buffer panics | reserve up to the requested capacity, so the recorded capacity never exceeds the real one | not executed | MemoryPool.EnsureThenGetAsWritten | MemoryPool.EnsureThenGet |
| src/decoder/qr_decoder/geometry.rs:44-45 | the rounded version is cut to `u8` before the range check | a measured width of 1038 modules rounds to version 257, which `as u8` makes 1, so the estimate is dimension 21 | check the range on the un-truncated version, which gives `None` for 1038 | not executed | Geometry.EstimateWraps | Geometry.EstimateDimension |
| src/decoder/function_mask.rs:124-129 | the alignment step rounds the quotient up | version 7 gives centres [6, 20, 38]; Annex E of ISO/IEC 18004 lists 6, 22, 38 | round the quotient down, which reproduces the Annex E table for every version 1 to 40 | not executed | FunctionMask.CentresAsWrittenVersion7 | FunctionMask.CentresMatchAnnexE |
| src/decoder/function_mask.rs:65-73 | the bottom-left version block is marked as a 3-wide, 6-tall region, the transpose of the top-right one | version 7: bottom-left version bit 9, cell (3, 34), is read by `src/decoder/version.rs` as version information but is left unmarked | mark the 6×3 block that `src/decoder/version.rs` reads, so all 18 cells of each copy are function modules | not executed | FunctionMask.VersionCellMissedAsWritten | FunctionMask.VersionCellsAreFunction |

The decoder follows the code as written, because decoding behaviour
depends on these definitions:
- `FunctionMask` marks the source's version block and uses the source's
  rounded-up alignment step, and so do `Bitstream`, `Unmask` and
  `Geometry.AlignmentCenters`.
- `Deinterleave.Deinterleave` decodes over the source's tables,
  `Gf256.AsWritten()`, and `Deinterleave.DeinterleaveIntended` over the
  standard ones. `Deinterleave.TwoByteStreamDependsOnTables` exhibits a
  stream on which the two differ.

The corrected definitions and the proofs about them sit beside the
as-written ones. `Geometry.EstimateNearest` and
`Geometry.EstimateAgreesBelowWrap` state where the two dimension estimates
agree.
