/**
 * Bit sequences read most significant bit first, as the format and version
 * readers and the payload's codeword conversion accumulate them with
 * `value = (value << 1) | bit`.
 */
module Bits {
  import opened Wrappers

  function Pow2(n: nat): (r: nat)
    ensures r >= 1
  {
    if n == 0 then 1 else 2 * Pow2(n - 1)
  }

  function BitValue(b: bool): nat
  {
    if b then 1 else 0
  }

  /** The unsigned value of `s`, first element most significant. */
  function PackBits(s: seq<bool>): nat
  {
    if |s| == 0 then 0 else 2 * PackBits(s[..|s| - 1]) + BitValue(s[|s| - 1])
  }

  /** `n` bits never reach 2^n. */
  lemma {:induction false} PackBitsBound(s: seq<bool>)
    ensures PackBits(s) < Pow2(|s|)
  {
    if |s| > 0 {
      PackBitsBound(s[..|s| - 1]);
    }
  }

  /** One more bit shifts the value left and adds the bit. */
  lemma PackBitsSnoc(s: seq<bool>, b: bool)
    ensures PackBits(s + [b]) == 2 * PackBits(s) + BitValue(b)
  {
    assert (s + [b])[..|s|] == s;
  }

  /** Reading one more element of `cells` after `prefix`. */
  lemma PackBitsPrefixStep(prefix: seq<bool>, cells: seq<bool>, n: nat)
    requires n < |cells|
    ensures PackBits(prefix + cells[..n + 1]) == 2 * PackBits(prefix + cells[..n]) + BitValue(cells[n])
  {
    assert prefix + cells[..n + 1] == (prefix + cells[..n]) + [cells[n]];
    PackBitsSnoc(prefix + cells[..n], cells[n]);
  }

  /** Reading one more element of `cells`. */
  lemma PackBitsStep(cells: seq<bool>, n: nat)
    requires n < |cells|
    ensures PackBits(cells[..n + 1]) == 2 * PackBits(cells[..n]) + BitValue(cells[n])
  {
    assert cells[..n + 1] == cells[..n] + [cells[n]];
    PackBitsSnoc(cells[..n], cells[n]);
  }

  lemma Pow2Of18()
    ensures Pow2(18) == 0x40000
  {
    assert Pow2(4) == 16;
    assert Pow2(8) == 256;
    assert Pow2(12) == 4096;
    assert Pow2(16) == 0x10000;
  }

  /** The `n` low bits of `x`, most significant first. */
  function UnpackBits(x: nat, n: nat): (s: seq<bool>)
    ensures |s| == n
  {
    if n == 0 then [] else UnpackBits(x / 2, n - 1) + [x % 2 == 1]
  }

  /** Unpacking then packing keeps the low `n` bits. */
  lemma {:induction false} PackUnpack(x: nat, n: nat)
    ensures PackBits(UnpackBits(x, n)) == x % Pow2(n)
  {
    if n > 0 {
      PackUnpack(x / 2, n - 1);
      PackBitsSnoc(UnpackBits(x / 2, n - 1), x % 2 == 1);
      ModPow2Step(x, n);
    }
  }

  /** Quotient and remainder are unique. */
  lemma DivModUnique(x: int, d: int, q: int, r: int)
    requires d > 0 && 0 <= r < d && x == q * d + r
    ensures x / d == q && x % d == r
  {
    var q', r' := x / d, x % d;
    assert x == q' * d + r';
    assert (q - q') * d == r' - r;
    if q > q' {
      MulAtLeast(q - q', d);
    } else if q < q' {
      MulAtLeast(q' - q, d);
    }
  }

  lemma MulAtLeast(a: int, d: int)
    requires a >= 1 && d > 0
    ensures a * d >= d
  {
  }

  /** x mod 2^n from its last bit and the rest. */
  lemma ModPow2Step(x: nat, n: nat)
    requires n > 0
    ensures x % Pow2(n) == 2 * ((x / 2) % Pow2(n - 1)) + x % 2
  {
    var p := Pow2(n - 1);
    var q := (x / 2) / p;
    var r := (x / 2) % p;
    assert x / 2 == q * p + r;
    assert x == q * (2 * p) + (2 * r + x % 2);
    DivModUnique(x, 2 * p, q, 2 * r + x % 2);
  }

  /** Packing then unpacking gives the bits back. */
  lemma {:induction false} UnpackPack(s: seq<bool>)
    ensures UnpackBits(PackBits(s), |s|) == s
  {
    if |s| > 0 {
      var init := s[..|s| - 1];
      UnpackPack(init);
      assert PackBits(s) / 2 == PackBits(init);
      assert s == init + [s[|s| - 1]];
    }
  }

  /**
   * The mode decoders' inner loop `value = (value << 1) | bits[start + i]`
   * for `i` in `0..n`; the widths they use (at most 11 bits in a `u16`)
   * never overflow.
   */
  method ReadValue(bits: seq<bool>, start: nat, n: nat) returns (v: nat)
    requires start + n <= |bits|
    ensures v == PackBits(bits[start..start + n])
  {
    ghost var cells := bits[start..start + n];
    v := 0;
    for i := 0 to n
      invariant v == PackBits(cells[..i])
    {
      PackBitsStep(cells, i);
      v := 2 * v + BitValue(bits[start + i]);
    }
    assert cells[..n] == cells;
  }

  /** The byte that the eight bits from `i` spell, first bit most significant. */
  function Octet(bits: seq<bool>, i: nat): (r: u8)
    requires i + 8 <= |bits|
    ensures r == PackBits(bits[i..i + 8])
  {
    PackBitsBound(bits[i..i + 8]);
    assert Pow2(8) == 256;
    PackBits(bits[i..i + 8])
  }

  /** Each byte as eight bits, most significant first, as `decode_payload` expands codewords. */
  function Expand(bytes: seq<u8>): (s: seq<bool>)
    ensures |s| == 8 * |bytes|
  {
    if |bytes| == 0 then [] else Expand(bytes[..|bytes| - 1]) + UnpackBits(bytes[|bytes| - 1], 8)
  }

  /** Bits `8k..8k+8` of the expansion are byte `k`. */
  lemma {:induction false} ExpandChunk(bytes: seq<u8>, k: nat)
    requires k < |bytes|
    ensures Expand(bytes)[8 * k..8 * k + 8] == UnpackBits(bytes[k], 8)
  {
    var n := |bytes| - 1;
    var init := Expand(bytes[..n]);
    if k < n {
      ExpandChunk(bytes[..n], k);
      assert Expand(bytes)[8 * k..8 * k + 8] == init[8 * k..8 * k + 8];
    } else {
      assert Expand(bytes)[8 * k..8 * k + 8] == UnpackBits(bytes[n], 8);
    }
  }

  /** Reading back byte `k` of the expansion gives byte `k`. */
  lemma OctetOfExpand(bytes: seq<u8>, k: nat)
    requires k < |bytes|
    ensures Octet(Expand(bytes), 8 * k) == bytes[k]
  {
    ExpandChunk(bytes, k);
    PackUnpackByte(bytes[k]);
  }

  lemma PackUnpackByte(x: u8)
    ensures PackBits(UnpackBits(x, 8)) == x
  {
    PackUnpack(x, 8);
    assert Pow2(8) == 256;
  }
}
