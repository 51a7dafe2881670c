/**
 * The log/antilog tables of GF(2^8) (src/decoder/reed_solomon.rs), for the
 * primitive polynomial x^8 + x^4 + x^3 + x^2 + 1 (0x11D) with generator 2.
 * Each table keeps the source's 256 entries, stored as 16 rows of 16 so that
 * entry i is row i / 16, column i % 16.
 */
module Gf256Tables {
  /** `LOG_TABLE`: entry a is the discrete logarithm of a; entry 0 is an unused 0. */
  const LogTable: seq<seq<int>> := [
    [0, 0, 1, 25, 2, 50, 26, 198, 3, 223, 51, 238, 27, 104, 199, 75],
    [4, 100, 224, 14, 52, 141, 239, 129, 28, 193, 105, 248, 200, 8, 76, 113],
    [5, 138, 101, 47, 225, 36, 15, 33, 53, 147, 142, 218, 240, 18, 130, 69],
    [29, 181, 194, 125, 106, 39, 249, 185, 201, 154, 9, 120, 77, 228, 114, 166],
    [6, 191, 139, 98, 102, 221, 48, 253, 226, 152, 37, 179, 16, 145, 34, 136],
    [54, 208, 148, 206, 143, 150, 219, 189, 241, 210, 19, 92, 131, 56, 70, 64],
    [30, 66, 182, 163, 195, 72, 126, 110, 107, 58, 40, 84, 250, 133, 186, 61],
    [202, 94, 155, 159, 10, 21, 121, 43, 78, 212, 229, 172, 115, 243, 167, 87],
    [7, 112, 192, 247, 140, 128, 99, 13, 103, 74, 222, 237, 49, 197, 254, 24],
    [227, 165, 153, 119, 38, 184, 180, 124, 17, 68, 146, 217, 35, 32, 137, 46],
    [55, 63, 209, 91, 149, 188, 207, 205, 144, 135, 151, 178, 220, 252, 190, 97],
    [242, 86, 211, 171, 20, 42, 93, 158, 132, 60, 57, 83, 71, 109, 65, 162],
    [31, 45, 67, 216, 183, 123, 164, 118, 196, 23, 73, 236, 127, 12, 111, 246],
    [108, 161, 59, 82, 41, 157, 85, 170, 251, 96, 134, 177, 187, 204, 62, 90],
    [203, 89, 95, 176, 156, 169, 160, 81, 11, 245, 22, 235, 122, 117, 44, 215],
    [79, 174, 213, 233, 230, 231, 173, 232, 116, 214, 244, 234, 168, 80, 88, 175]
  ]

  /** `EXP_TABLE` exactly as the source spells it (see ExpTableAsWrittenRepeatsEarly). */
  const ExpTableAsWritten: seq<seq<int>> := [
    [1, 2, 4, 8, 16, 32, 64, 128, 29, 58, 116, 232, 205, 135, 19, 38],
    [76, 152, 45, 90, 180, 117, 234, 201, 143, 3, 6, 12, 24, 48, 96, 192],
    [157, 39, 78, 156, 37, 74, 148, 53, 106, 212, 181, 119, 238, 193, 159, 35],
    [70, 140, 5, 10, 20, 40, 80, 160, 93, 186, 105, 210, 185, 111, 222, 161],
    [95, 190, 97, 194, 153, 47, 94, 188, 101, 202, 137, 15, 30, 60, 120, 240],
    [253, 231, 211, 187, 107, 214, 177, 127, 254, 225, 223, 163, 91, 182, 113, 226],
    [217, 175, 67, 134, 17, 34, 68, 136, 13, 26, 52, 104, 208, 189, 103, 206],
    [129, 31, 62, 124, 248, 237, 199, 147, 59, 118, 236, 197, 151, 51, 102, 204],
    [133, 23, 46, 92, 184, 109, 218, 169, 71, 142, 1, 2, 4, 8, 16, 32],
    [64, 128, 29, 58, 116, 232, 205, 135, 19, 38, 76, 152, 45, 90, 180, 117],
    [234, 201, 143, 3, 6, 12, 24, 48, 96, 192, 157, 39, 78, 156, 37, 74],
    [148, 53, 106, 212, 181, 119, 238, 193, 159, 35, 70, 140, 5, 10, 20, 40],
    [80, 160, 93, 186, 105, 210, 185, 111, 222, 161, 95, 190, 97, 194, 153, 47],
    [94, 188, 101, 202, 137, 15, 30, 60, 120, 240, 253, 231, 211, 187, 107, 214],
    [177, 127, 254, 225, 223, 163, 91, 182, 113, 226, 217, 175, 67, 134, 17, 34],
    [68, 136, 13, 26, 52, 104, 208, 189, 103, 206, 129, 31, 62, 124, 248, 237]
  ]

  /** The antilog table the source evidently intends: entry i is 2^i, with period 255. */
  const ExpTable: seq<seq<int>> := [
    [1, 2, 4, 8, 16, 32, 64, 128, 29, 58, 116, 232, 205, 135, 19, 38],
    [76, 152, 45, 90, 180, 117, 234, 201, 143, 3, 6, 12, 24, 48, 96, 192],
    [157, 39, 78, 156, 37, 74, 148, 53, 106, 212, 181, 119, 238, 193, 159, 35],
    [70, 140, 5, 10, 20, 40, 80, 160, 93, 186, 105, 210, 185, 111, 222, 161],
    [95, 190, 97, 194, 153, 47, 94, 188, 101, 202, 137, 15, 30, 60, 120, 240],
    [253, 231, 211, 187, 107, 214, 177, 127, 254, 225, 223, 163, 91, 182, 113, 226],
    [217, 175, 67, 134, 17, 34, 68, 136, 13, 26, 52, 104, 208, 189, 103, 206],
    [129, 31, 62, 124, 248, 237, 199, 147, 59, 118, 236, 197, 151, 51, 102, 204],
    [133, 23, 46, 92, 184, 109, 218, 169, 79, 158, 33, 66, 132, 21, 42, 84],
    [168, 77, 154, 41, 82, 164, 85, 170, 73, 146, 57, 114, 228, 213, 183, 115],
    [230, 209, 191, 99, 198, 145, 63, 126, 252, 229, 215, 179, 123, 246, 241, 255],
    [227, 219, 171, 75, 150, 49, 98, 196, 149, 55, 110, 220, 165, 87, 174, 65],
    [130, 25, 50, 100, 200, 141, 7, 14, 28, 56, 112, 224, 221, 167, 83, 166],
    [81, 162, 89, 178, 121, 242, 249, 239, 195, 155, 43, 86, 172, 69, 138, 9],
    [18, 36, 72, 144, 61, 122, 244, 245, 247, 243, 251, 235, 203, 139, 11, 22],
    [44, 88, 176, 125, 250, 233, 207, 131, 27, 54, 108, 216, 173, 71, 142, 1]
  ]

  function LogAt(i: int): int
    requires 0 <= i < 256
  {
    LogTable[i / 16][i % 16]
  }

  function ExpAt(i: int): int
    requires 0 <= i < 256
  {
    ExpTable[i / 16][i % 16]
  }

  function ExpAsWrittenAt(i: int): int
    requires 0 <= i < 256
  {
    ExpTableAsWritten[i / 16][i % 16]
  }

  /**
   * The source's antilog table returns to 1 at index 138 instead of 255, so
   * from index 136 on it no longer lists powers of 2, and the antilog of the
   * logarithm of 7 is not 7.
   */
  lemma ExpTableAsWrittenRepeatsEarly()
    ensures ExpAsWrittenAt(138) == 1
    ensures ExpAsWrittenAt(136) != ExpAt(136)
    ensures LogAt(7) == 198 && ExpAsWrittenAt(198) == 185 && ExpAt(198) == 7
  {
  }

  /** Every entry of the source's antilog table is a byte. */
  lemma ExpAsWrittenByte(i: int)
    requires 0 <= i < 256
    ensures 0 <= ExpAsWrittenAt(i) < 256
  {
    if i < 128 {
      AsWrittenLowRows(i / 16);
    } else {
      AsWrittenHighRows(i / 16);
    }
  }

  lemma AsWrittenLowRows(r: int)
    requires 0 <= r < 8
    ensures |ExpTableAsWritten[r]| == 16 && forall c :: 0 <= c < 16 ==> 0 <= ExpTableAsWritten[r][c] < 256
  {
    if r == 0 {} else if r == 1 {} else if r == 2 {} else if r == 3 {} else if r == 4 {} else if r == 5 {} else if r == 6 {} else {}
  }

  lemma AsWrittenHighRows(r: int)
    requires 8 <= r < 16
    ensures |ExpTableAsWritten[r]| == 16 && forall c :: 0 <= c < 16 ==> 0 <= ExpTableAsWritten[r][c] < 256
  {
    if r == 8 {} else if r == 9 {} else if r == 10 {} else if r == 11 {} else if r == 12 {} else if r == 13 {} else if r == 14 {} else {}
  }

  /** For a != 0 the antilog of the logarithm of a is a, and the logarithm is below 255. */
  lemma ExpOfLog(a: int)
    requires 1 <= a < 256
    ensures 0 <= LogAt(a) < 255 && ExpAt(LogAt(a)) == a
  {
    if a < 16 {
      ExpOfLogPart0(a);
    } else if a < 32 {
      ExpOfLogPart1(a);
    } else if a < 48 {
      ExpOfLogPart2(a);
    } else if a < 64 {
      ExpOfLogPart3(a);
    } else if a < 80 {
      ExpOfLogPart4(a);
    } else if a < 96 {
      ExpOfLogPart5(a);
    } else if a < 112 {
      ExpOfLogPart6(a);
    } else if a < 128 {
      ExpOfLogPart7(a);
    } else if a < 144 {
      ExpOfLogPart8(a);
    } else if a < 160 {
      ExpOfLogPart9(a);
    } else if a < 176 {
      ExpOfLogPart10(a);
    } else if a < 192 {
      ExpOfLogPart11(a);
    } else if a < 208 {
      ExpOfLogPart12(a);
    } else if a < 224 {
      ExpOfLogPart13(a);
    } else if a < 240 {
      ExpOfLogPart14(a);
    } else {
      ExpOfLogPart15(a);
    }
  }

  lemma ExpOfLogPart0(a: int)
    requires 1 <= a < 16
    ensures 0 <= LogAt(a) < 255 && ExpAt(LogAt(a)) == a
  {
    if a == 1 {} else if a == 2 {} else if a == 3 {} else if a == 4 {} else if a == 5 {} else if a == 6 {} else if a == 7 {} else if a == 8 {} else if a == 9 {} else if a == 10 {} else if a == 11 {} else if a == 12 {} else if a == 13 {} else if a == 14 {} else {}
  }

  lemma ExpOfLogPart1(a: int)
    requires 16 <= a < 32
    ensures 0 <= LogAt(a) < 255 && ExpAt(LogAt(a)) == a
  {
    if a == 16 {} else if a == 17 {} else if a == 18 {} else if a == 19 {} else if a == 20 {} else if a == 21 {} else if a == 22 {} else if a == 23 {} else if a == 24 {} else if a == 25 {} else if a == 26 {} else if a == 27 {} else if a == 28 {} else if a == 29 {} else if a == 30 {} else {}
  }

  lemma ExpOfLogPart2(a: int)
    requires 32 <= a < 48
    ensures 0 <= LogAt(a) < 255 && ExpAt(LogAt(a)) == a
  {
    if a == 32 {} else if a == 33 {} else if a == 34 {} else if a == 35 {} else if a == 36 {} else if a == 37 {} else if a == 38 {} else if a == 39 {} else if a == 40 {} else if a == 41 {} else if a == 42 {} else if a == 43 {} else if a == 44 {} else if a == 45 {} else if a == 46 {} else {}
  }

  lemma ExpOfLogPart3(a: int)
    requires 48 <= a < 64
    ensures 0 <= LogAt(a) < 255 && ExpAt(LogAt(a)) == a
  {
    if a == 48 {} else if a == 49 {} else if a == 50 {} else if a == 51 {} else if a == 52 {} else if a == 53 {} else if a == 54 {} else if a == 55 {} else if a == 56 {} else if a == 57 {} else if a == 58 {} else if a == 59 {} else if a == 60 {} else if a == 61 {} else if a == 62 {} else {}
  }

  lemma ExpOfLogPart4(a: int)
    requires 64 <= a < 80
    ensures 0 <= LogAt(a) < 255 && ExpAt(LogAt(a)) == a
  {
    if a == 64 {} else if a == 65 {} else if a == 66 {} else if a == 67 {} else if a == 68 {} else if a == 69 {} else if a == 70 {} else if a == 71 {} else if a == 72 {} else if a == 73 {} else if a == 74 {} else if a == 75 {} else if a == 76 {} else if a == 77 {} else if a == 78 {} else {}
  }

  lemma ExpOfLogPart5(a: int)
    requires 80 <= a < 96
    ensures 0 <= LogAt(a) < 255 && ExpAt(LogAt(a)) == a
  {
    if a == 80 {} else if a == 81 {} else if a == 82 {} else if a == 83 {} else if a == 84 {} else if a == 85 {} else if a == 86 {} else if a == 87 {} else if a == 88 {} else if a == 89 {} else if a == 90 {} else if a == 91 {} else if a == 92 {} else if a == 93 {} else if a == 94 {} else {}
  }

  lemma ExpOfLogPart6(a: int)
    requires 96 <= a < 112
    ensures 0 <= LogAt(a) < 255 && ExpAt(LogAt(a)) == a
  {
    if a == 96 {} else if a == 97 {} else if a == 98 {} else if a == 99 {} else if a == 100 {} else if a == 101 {} else if a == 102 {} else if a == 103 {} else if a == 104 {} else if a == 105 {} else if a == 106 {} else if a == 107 {} else if a == 108 {} else if a == 109 {} else if a == 110 {} else {}
  }

  lemma ExpOfLogPart7(a: int)
    requires 112 <= a < 128
    ensures 0 <= LogAt(a) < 255 && ExpAt(LogAt(a)) == a
  {
    if a == 112 {} else if a == 113 {} else if a == 114 {} else if a == 115 {} else if a == 116 {} else if a == 117 {} else if a == 118 {} else if a == 119 {} else if a == 120 {} else if a == 121 {} else if a == 122 {} else if a == 123 {} else if a == 124 {} else if a == 125 {} else if a == 126 {} else {}
  }

  lemma ExpOfLogPart8(a: int)
    requires 128 <= a < 144
    ensures 0 <= LogAt(a) < 255 && ExpAt(LogAt(a)) == a
  {
    if a == 128 {} else if a == 129 {} else if a == 130 {} else if a == 131 {} else if a == 132 {} else if a == 133 {} else if a == 134 {} else if a == 135 {} else if a == 136 {} else if a == 137 {} else if a == 138 {} else if a == 139 {} else if a == 140 {} else if a == 141 {} else if a == 142 {} else {}
  }

  lemma ExpOfLogPart9(a: int)
    requires 144 <= a < 160
    ensures 0 <= LogAt(a) < 255 && ExpAt(LogAt(a)) == a
  {
    if a == 144 {} else if a == 145 {} else if a == 146 {} else if a == 147 {} else if a == 148 {} else if a == 149 {} else if a == 150 {} else if a == 151 {} else if a == 152 {} else if a == 153 {} else if a == 154 {} else if a == 155 {} else if a == 156 {} else if a == 157 {} else if a == 158 {} else {}
  }

  lemma ExpOfLogPart10(a: int)
    requires 160 <= a < 176
    ensures 0 <= LogAt(a) < 255 && ExpAt(LogAt(a)) == a
  {
    if a == 160 {} else if a == 161 {} else if a == 162 {} else if a == 163 {} else if a == 164 {} else if a == 165 {} else if a == 166 {} else if a == 167 {} else if a == 168 {} else if a == 169 {} else if a == 170 {} else if a == 171 {} else if a == 172 {} else if a == 173 {} else if a == 174 {} else {}
  }

  lemma ExpOfLogPart11(a: int)
    requires 176 <= a < 192
    ensures 0 <= LogAt(a) < 255 && ExpAt(LogAt(a)) == a
  {
    if a == 176 {} else if a == 177 {} else if a == 178 {} else if a == 179 {} else if a == 180 {} else if a == 181 {} else if a == 182 {} else if a == 183 {} else if a == 184 {} else if a == 185 {} else if a == 186 {} else if a == 187 {} else if a == 188 {} else if a == 189 {} else if a == 190 {} else {}
  }

  lemma ExpOfLogPart12(a: int)
    requires 192 <= a < 208
    ensures 0 <= LogAt(a) < 255 && ExpAt(LogAt(a)) == a
  {
    if a == 192 {} else if a == 193 {} else if a == 194 {} else if a == 195 {} else if a == 196 {} else if a == 197 {} else if a == 198 {} else if a == 199 {} else if a == 200 {} else if a == 201 {} else if a == 202 {} else if a == 203 {} else if a == 204 {} else if a == 205 {} else if a == 206 {} else {}
  }

  lemma ExpOfLogPart13(a: int)
    requires 208 <= a < 224
    ensures 0 <= LogAt(a) < 255 && ExpAt(LogAt(a)) == a
  {
    if a == 208 {} else if a == 209 {} else if a == 210 {} else if a == 211 {} else if a == 212 {} else if a == 213 {} else if a == 214 {} else if a == 215 {} else if a == 216 {} else if a == 217 {} else if a == 218 {} else if a == 219 {} else if a == 220 {} else if a == 221 {} else if a == 222 {} else {}
  }

  lemma ExpOfLogPart14(a: int)
    requires 224 <= a < 240
    ensures 0 <= LogAt(a) < 255 && ExpAt(LogAt(a)) == a
  {
    if a == 224 {} else if a == 225 {} else if a == 226 {} else if a == 227 {} else if a == 228 {} else if a == 229 {} else if a == 230 {} else if a == 231 {} else if a == 232 {} else if a == 233 {} else if a == 234 {} else if a == 235 {} else if a == 236 {} else if a == 237 {} else if a == 238 {} else {}
  }

  lemma ExpOfLogPart15(a: int)
    requires 240 <= a < 256
    ensures 0 <= LogAt(a) < 255 && ExpAt(LogAt(a)) == a
  {
    if a == 240 {} else if a == 241 {} else if a == 242 {} else if a == 243 {} else if a == 244 {} else if a == 245 {} else if a == 246 {} else if a == 247 {} else if a == 248 {} else if a == 249 {} else if a == 250 {} else if a == 251 {} else if a == 252 {} else if a == 253 {} else if a == 254 {} else {}
  }

  /** For i < 255 the logarithm of 2^i is i, and 2^i is a non-zero byte. */
  lemma LogOfExp(i: int)
    requires 0 <= i < 255
    ensures 0 < ExpAt(i) < 256 && LogAt(ExpAt(i)) == i
  {
    if i < 16 {
      LogOfExpPart0(i);
    } else if i < 32 {
      LogOfExpPart1(i);
    } else if i < 48 {
      LogOfExpPart2(i);
    } else if i < 64 {
      LogOfExpPart3(i);
    } else if i < 80 {
      LogOfExpPart4(i);
    } else if i < 96 {
      LogOfExpPart5(i);
    } else if i < 112 {
      LogOfExpPart6(i);
    } else if i < 128 {
      LogOfExpPart7(i);
    } else if i < 144 {
      LogOfExpPart8(i);
    } else if i < 160 {
      LogOfExpPart9(i);
    } else if i < 176 {
      LogOfExpPart10(i);
    } else if i < 192 {
      LogOfExpPart11(i);
    } else if i < 208 {
      LogOfExpPart12(i);
    } else if i < 224 {
      LogOfExpPart13(i);
    } else if i < 240 {
      LogOfExpPart14(i);
    } else {
      LogOfExpPart15(i);
    }
  }

  lemma LogOfExpPart0(i: int)
    requires 0 <= i < 16
    ensures 0 < ExpAt(i) < 256 && LogAt(ExpAt(i)) == i
  {
    if i == 0 {} else if i == 1 {} else if i == 2 {} else if i == 3 {} else if i == 4 {} else if i == 5 {} else if i == 6 {} else if i == 7 {} else if i == 8 {} else if i == 9 {} else if i == 10 {} else if i == 11 {} else if i == 12 {} else if i == 13 {} else if i == 14 {} else {}
  }

  lemma LogOfExpPart1(i: int)
    requires 16 <= i < 32
    ensures 0 < ExpAt(i) < 256 && LogAt(ExpAt(i)) == i
  {
    if i == 16 {} else if i == 17 {} else if i == 18 {} else if i == 19 {} else if i == 20 {} else if i == 21 {} else if i == 22 {} else if i == 23 {} else if i == 24 {} else if i == 25 {} else if i == 26 {} else if i == 27 {} else if i == 28 {} else if i == 29 {} else if i == 30 {} else {}
  }

  lemma LogOfExpPart2(i: int)
    requires 32 <= i < 48
    ensures 0 < ExpAt(i) < 256 && LogAt(ExpAt(i)) == i
  {
    if i == 32 {} else if i == 33 {} else if i == 34 {} else if i == 35 {} else if i == 36 {} else if i == 37 {} else if i == 38 {} else if i == 39 {} else if i == 40 {} else if i == 41 {} else if i == 42 {} else if i == 43 {} else if i == 44 {} else if i == 45 {} else if i == 46 {} else {}
  }

  lemma LogOfExpPart3(i: int)
    requires 48 <= i < 64
    ensures 0 < ExpAt(i) < 256 && LogAt(ExpAt(i)) == i
  {
    if i == 48 {} else if i == 49 {} else if i == 50 {} else if i == 51 {} else if i == 52 {} else if i == 53 {} else if i == 54 {} else if i == 55 {} else if i == 56 {} else if i == 57 {} else if i == 58 {} else if i == 59 {} else if i == 60 {} else if i == 61 {} else if i == 62 {} else {}
  }

  lemma LogOfExpPart4(i: int)
    requires 64 <= i < 80
    ensures 0 < ExpAt(i) < 256 && LogAt(ExpAt(i)) == i
  {
    if i == 64 {} else if i == 65 {} else if i == 66 {} else if i == 67 {} else if i == 68 {} else if i == 69 {} else if i == 70 {} else if i == 71 {} else if i == 72 {} else if i == 73 {} else if i == 74 {} else if i == 75 {} else if i == 76 {} else if i == 77 {} else if i == 78 {} else {}
  }

  lemma LogOfExpPart5(i: int)
    requires 80 <= i < 96
    ensures 0 < ExpAt(i) < 256 && LogAt(ExpAt(i)) == i
  {
    if i == 80 {} else if i == 81 {} else if i == 82 {} else if i == 83 {} else if i == 84 {} else if i == 85 {} else if i == 86 {} else if i == 87 {} else if i == 88 {} else if i == 89 {} else if i == 90 {} else if i == 91 {} else if i == 92 {} else if i == 93 {} else if i == 94 {} else {}
  }

  lemma LogOfExpPart6(i: int)
    requires 96 <= i < 112
    ensures 0 < ExpAt(i) < 256 && LogAt(ExpAt(i)) == i
  {
    if i == 96 {} else if i == 97 {} else if i == 98 {} else if i == 99 {} else if i == 100 {} else if i == 101 {} else if i == 102 {} else if i == 103 {} else if i == 104 {} else if i == 105 {} else if i == 106 {} else if i == 107 {} else if i == 108 {} else if i == 109 {} else if i == 110 {} else {}
  }

  lemma LogOfExpPart7(i: int)
    requires 112 <= i < 128
    ensures 0 < ExpAt(i) < 256 && LogAt(ExpAt(i)) == i
  {
    if i == 112 {} else if i == 113 {} else if i == 114 {} else if i == 115 {} else if i == 116 {} else if i == 117 {} else if i == 118 {} else if i == 119 {} else if i == 120 {} else if i == 121 {} else if i == 122 {} else if i == 123 {} else if i == 124 {} else if i == 125 {} else if i == 126 {} else {}
  }

  lemma LogOfExpPart8(i: int)
    requires 128 <= i < 144
    ensures 0 < ExpAt(i) < 256 && LogAt(ExpAt(i)) == i
  {
    if i == 128 {} else if i == 129 {} else if i == 130 {} else if i == 131 {} else if i == 132 {} else if i == 133 {} else if i == 134 {} else if i == 135 {} else if i == 136 {} else if i == 137 {} else if i == 138 {} else if i == 139 {} else if i == 140 {} else if i == 141 {} else if i == 142 {} else {}
  }

  lemma LogOfExpPart9(i: int)
    requires 144 <= i < 160
    ensures 0 < ExpAt(i) < 256 && LogAt(ExpAt(i)) == i
  {
    if i == 144 {} else if i == 145 {} else if i == 146 {} else if i == 147 {} else if i == 148 {} else if i == 149 {} else if i == 150 {} else if i == 151 {} else if i == 152 {} else if i == 153 {} else if i == 154 {} else if i == 155 {} else if i == 156 {} else if i == 157 {} else if i == 158 {} else {}
  }

  lemma LogOfExpPart10(i: int)
    requires 160 <= i < 176
    ensures 0 < ExpAt(i) < 256 && LogAt(ExpAt(i)) == i
  {
    if i == 160 {} else if i == 161 {} else if i == 162 {} else if i == 163 {} else if i == 164 {} else if i == 165 {} else if i == 166 {} else if i == 167 {} else if i == 168 {} else if i == 169 {} else if i == 170 {} else if i == 171 {} else if i == 172 {} else if i == 173 {} else if i == 174 {} else {}
  }

  lemma LogOfExpPart11(i: int)
    requires 176 <= i < 192
    ensures 0 < ExpAt(i) < 256 && LogAt(ExpAt(i)) == i
  {
    if i == 176 {} else if i == 177 {} else if i == 178 {} else if i == 179 {} else if i == 180 {} else if i == 181 {} else if i == 182 {} else if i == 183 {} else if i == 184 {} else if i == 185 {} else if i == 186 {} else if i == 187 {} else if i == 188 {} else if i == 189 {} else if i == 190 {} else {}
  }

  lemma LogOfExpPart12(i: int)
    requires 192 <= i < 208
    ensures 0 < ExpAt(i) < 256 && LogAt(ExpAt(i)) == i
  {
    if i == 192 {} else if i == 193 {} else if i == 194 {} else if i == 195 {} else if i == 196 {} else if i == 197 {} else if i == 198 {} else if i == 199 {} else if i == 200 {} else if i == 201 {} else if i == 202 {} else if i == 203 {} else if i == 204 {} else if i == 205 {} else if i == 206 {} else {}
  }

  lemma LogOfExpPart13(i: int)
    requires 208 <= i < 224
    ensures 0 < ExpAt(i) < 256 && LogAt(ExpAt(i)) == i
  {
    if i == 208 {} else if i == 209 {} else if i == 210 {} else if i == 211 {} else if i == 212 {} else if i == 213 {} else if i == 214 {} else if i == 215 {} else if i == 216 {} else if i == 217 {} else if i == 218 {} else if i == 219 {} else if i == 220 {} else if i == 221 {} else if i == 222 {} else {}
  }

  lemma LogOfExpPart14(i: int)
    requires 224 <= i < 240
    ensures 0 < ExpAt(i) < 256 && LogAt(ExpAt(i)) == i
  {
    if i == 224 {} else if i == 225 {} else if i == 226 {} else if i == 227 {} else if i == 228 {} else if i == 229 {} else if i == 230 {} else if i == 231 {} else if i == 232 {} else if i == 233 {} else if i == 234 {} else if i == 235 {} else if i == 236 {} else if i == 237 {} else if i == 238 {} else {}
  }

  lemma LogOfExpPart15(i: int)
    requires 240 <= i < 255
    ensures 0 < ExpAt(i) < 256 && LogAt(ExpAt(i)) == i
  {
    if i == 240 {} else if i == 241 {} else if i == 242 {} else if i == 243 {} else if i == 244 {} else if i == 245 {} else if i == 246 {} else if i == 247 {} else if i == 248 {} else if i == 249 {} else if i == 250 {} else if i == 251 {} else if i == 252 {} else if i == 253 {} else {}
  }
}
