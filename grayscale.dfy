/**
 * Grey conversion (src/utils/grayscale.rs): each pixel's luma is
 * `(76 R + 150 G + 29 B) >> 8`, read from interleaved RGB (stride 3) or
 * RGBA (stride 4, alpha ignored) bytes. The scalar kernels are modelled;
 * the SSE2, NEON and rayon variants compute the same per-pixel value and
 * are not part of this model.
 */
module Grayscale {
  import opened Wrappers

  const CoefR: nat := 76
  const CoefG: nat := 150
  const CoefB: nat := 29

  /**
   * The luma of one pixel: the weighted sum shifted right by 8, capped at
   * 255 (a cap that never bites, since the weights add up to 255).
   */
  function Luma(r: u8, g: u8, b: u8): (y: u8)
    ensures 256 * y <= CoefR * r + CoefG * g + CoefB * b < 256 * (y + 1)
    ensures y <= 254
  {
    Cap((CoefR * r + CoefG * g + CoefB * b) / 256)
  }

  /** `min(255) as u8`. */
  function Cap(x: nat): (y: u8)
    ensures x <= 255 ==> y == x
  {
    if x < 255 then x else 255
  }

  /** Black is 0, white is 254, and a brighter channel never darkens the pixel. */
  lemma LumaRange(r: u8, g: u8, b: u8, r2: u8, g2: u8, b2: u8)
    requires r <= r2 && g <= g2 && b <= b2
    ensures Luma(0, 0, 0) == 0 && Luma(255, 255, 255) == 254
    ensures Luma(r, g, b) <= Luma(r2, g2, b2)
  {
  }

  /** `src` holds `n` pixels of `stride` bytes each. */
  predicate Holds(src: seq<u8>, stride: nat, n: nat)
  {
    (stride == 3 || stride == 4) && n * stride <= |src|
  }

  /** The bytes of pixel `k` lie inside `src`. */
  lemma PixelInside(src: seq<u8>, stride: nat, n: nat, k: nat)
    requires Holds(src, stride, n) && k < n
    ensures k * stride + 2 < |src|
  {
    assert (k + 1) * stride <= n * stride;
  }

  /** The expected grey value of pixel `k`. */
  function PixelGray(src: seq<u8>, stride: nat, n: nat, k: nat): u8
    requires Holds(src, stride, n) && k < n
  {
    PixelInside(src, stride, n, k);
    Luma(src[k * stride], src[k * stride + 1], src[k * stride + 2])
  }

  /** The grey value of pixel `k`, as the loops compute it. */
  method ConvertPixel(src: seq<u8>, stride: nat, n: nat, k: nat) returns (y: u8)
    requires Holds(src, stride, n) && k < n
    ensures y == PixelGray(src, stride, n, k)
  {
    PixelInside(src, stride, n, k);
    var idx := k * stride;
    y := Luma(src[idx], src[idx + 1], src[idx + 2]);
  }

  /** The first `n` entries of `gray` are the grey values of the first `n` pixels. */
  ghost predicate Converted(src: seq<u8>, stride: nat, n: nat, gray: seq<u8>, upTo: nat)
    requires Holds(src, stride, n) && upTo <= n && upTo <= |gray|
  {
    forall k :: 0 <= k < upTo ==> gray[k] == PixelGray(src, stride, n, k)
  }

  /**
   * `rgb_to_grayscale_scalar_unrolled` and its RGBA twin: blocks of eight
   * pixels, then the remaining pixels one by one. Both loops write the
   * same per-pixel value, and nothing past the `n`-th output is touched.
   */
  method ScalarUnrolled(src: seq<u8>, stride: nat, gray: array<u8>, n: nat)
    requires Holds(src, stride, n) && n <= gray.Length
    modifies gray
    ensures Converted(src, stride, n, gray[..], n)
    ensures gray[n..] == old(gray[n..])
  {
    var i := 0;
    while i + 8 <= n
      invariant i <= n
      invariant Converted(src, stride, n, gray[..], i)
      invariant gray[n..] == old(gray[n..])
    {
      for j := 0 to 8
        invariant Converted(src, stride, n, gray[..], i + j)
        invariant gray[n..] == old(gray[n..])
      {
        var y := ConvertPixel(src, stride, n, i + j);
        gray[i + j] := y;
      }
      i := i + 8;
    }
    for k := i to n
      invariant Converted(src, stride, n, gray[..], k)
      invariant gray[n..] == old(gray[n..])
    {
      var y := ConvertPixel(src, stride, n, k);
      gray[k] := y;
    }
  }

  /** `rgb_to_grayscale` (stride 3) and `rgba_to_grayscale` (stride 4): a fresh buffer of `width * height` grey values. */
  method ToGrayscale(src: seq<u8>, stride: nat, width: nat, height: nat) returns (gray: array<u8>)
    requires Holds(src, stride, width * height)
    ensures fresh(gray) && gray.Length == width * height
    ensures Converted(src, stride, width * height, gray[..], width * height)
  {
    gray := new u8[width * height];
    ScalarUnrolled(src, stride, gray, width * height);
  }

  /**
   * `rgb_to_grayscale_with_buffer` (stride 3) and
   * `rgba_to_grayscale_with_buffer` (stride 4): the buffer must hold
   * `width * height` values (the source asserts it); those are written,
   * the rest is left alone, and their number is returned.
   */
  method ToGrayscaleWithBuffer(src: seq<u8>, stride: nat, width: nat, height: nat, output: array<u8>) returns (written: nat)
    requires Holds(src, stride, width * height)
    requires output.Length >= width * height
    modifies output
    ensures written == width * height
    ensures Converted(src, stride, written, output[..], written)
    ensures output[written..] == old(output[written..])
  {
    written := width * height;
    ScalarUnrolled(src, stride, output, written);
  }

  /** The conversion of a single pixel as the source's samples state it: white 254, black 0, red strictly between. */
  lemma Samples()
    ensures Luma(255, 255, 255) >= 254 && Luma(0, 0, 0) == 0
    ensures 0 < Luma(255, 0, 0) < 255 && Luma(0, 255, 0) > 100
  {
  }
}
