/**
 * 16.16 fixed point over a wrapping 32-bit integer (src/utils/fixed_point.rs).
 * Rust's `i32` is an `int` range here and every wrap is written out.
 */
module FixedPoint {
  import opened Wrappers

  const TwoTo31: int := 0x8000_0000
  const TwoTo32: int := 0x1_0000_0000
  const Scale: int := 65536

  type i32 = x: int | -0x8000_0000 <= x < 0x8000_0000

  /** The two's complement value of the low 32 bits of `x`: what `as i32` and the wrapping operations keep. */
  function Wrap(x: int): (r: i32)
    ensures (r - x) % TwoTo32 == 0
    ensures -TwoTo31 <= x < TwoTo31 ==> r == x
  {
    (x + TwoTo31) % TwoTo32 - TwoTo31
  }

  /** Two values that agree modulo 2^32 wrap to the same `i32`. */
  lemma WrapCongruent(x: int, y: int)
    requires (x - y) % TwoTo32 == 0
    ensures Wrap(x) == Wrap(y)
  {
    var k := (x - y) / TwoTo32;
    assert x + TwoTo31 == (y + TwoTo31) + k * TwoTo32;
    ModShift(y + TwoTo31, k);
  }

  lemma ModShift(a: int, k: int)
    ensures (a + k * TwoTo32) % TwoTo32 == a % TwoTo32
  {
  }

  /** Integer division rounding toward zero, as `/` on `i64`. */
  function TruncDiv(a: int, b: int): (q: int)
    requires b != 0
    ensures (a >= 0) == (b > 0) || a == 0 ==> q >= 0
  {
    var q := (if a < 0 then -a else a) / (if b < 0 then -b else b);
    if (a < 0) != (b < 0) then -q else q
  }

  /** `Fixed`: a 16.16 number held as its raw `i32`. */
  datatype Fixed = Fixed(raw: i32)

  /** `from_i32`: the raw value is `n` shifted left by 16, wrapping. */
  function FromI32(n: i32): (f: Fixed)
    ensures (f.raw - n * Scale) % TwoTo32 == 0
  {
    Fixed(Wrap(n * Scale))
  }

  /** `to_i32`: the arithmetic shift right by 16, rounding toward negative infinity. */
  function ToI32(f: Fixed): (n: i32)
    ensures n * Scale <= f.raw < (n + 1) * Scale
  {
    f.raw / Scale
  }

  /** `add`: the wrapping sum of the raw values. */
  function Add(a: Fixed, b: Fixed): (r: Fixed)
    ensures (r.raw - (a.raw + b.raw)) % TwoTo32 == 0
    ensures -TwoTo31 <= a.raw + b.raw < TwoTo31 ==> r.raw == a.raw + b.raw
  {
    Fixed(Wrap(a.raw + b.raw))
  }

  /**
   * `mul`: the 64-bit product (which cannot overflow for two `i32`s),
   * shifted right by 16 and cut to 32 bits.
   */
  function Mul(a: Fixed, b: Fixed): (r: Fixed)
  {
    Fixed(Wrap((a.raw * b.raw) / Scale))
  }

  /**
   * `div`: none for a zero divisor; otherwise the raw dividend shifted
   * left by 16 (it fits 64 bits) divided toward zero, cut to 32 bits.
   */
  function Div(a: Fixed, b: Fixed): (r: Option<Fixed>)
    ensures r.None? <==> b.raw == 0
  {
    if b.raw == 0 then None else Some(Fixed(Wrap(TruncDiv(a.raw * Scale, b.raw))))
  }

  /** The integers that survive the shift by 16. */
  predicate Fits16(n: int)
  {
    -32768 <= n < 32768
  }

  /** `to_i32` undoes `from_i32` on every integer of 16 bits. */
  lemma RoundTrip(n: i32)
    requires Fits16(n)
    ensures FromI32(n).raw == n * Scale
    ensures ToI32(FromI32(n)) == n
  {
    assert -TwoTo31 <= n * Scale < TwoTo31;
  }

  /** Adding two converted 16-bit integers is converting their sum. */
  lemma AddFromI32(a: i32, b: i32)
    requires Fits16(a) && Fits16(b) && Fits16(a + b)
    ensures Add(FromI32(a), FromI32(b)) == FromI32(a + b)
    ensures ToI32(Add(FromI32(a), FromI32(b))) == a + b
  {
    RoundTrip(a);
    RoundTrip(b);
    RoundTrip(a + b);
    assert a * Scale + b * Scale == (a + b) * Scale;
  }

  /** The sample of the source: one plus two is three. */
  lemma OnePlusTwo()
    ensures ToI32(Add(FromI32(1), FromI32(2))) == 3
  {
    AddFromI32(1, 2);
  }

  /** `add` commutes and has the converted zero as its unit. */
  lemma AddLaws(a: Fixed, b: Fixed)
    ensures Add(a, b) == Add(b, a)
    ensures Add(a, FromI32(0)) == a
  {
  }

  /** Multiplying two converted 16-bit integers is converting their product. */
  lemma MulFromI32(a: i32, b: i32)
    requires Fits16(a) && Fits16(b)
    ensures a * b as int < TwoTo31 && a * b as int >= -TwoTo31
    ensures Mul(FromI32(a), FromI32(b)) == FromI32(a * b)
  {
    RoundTrip(a);
    RoundTrip(b);
    ProductBounds(a, b);
    assert (a * Scale) * (b * Scale) == (a * b * Scale) * Scale;
    assert ((a * Scale) * (b * Scale)) / Scale == a * b * Scale;
  }

  lemma ProductBounds(a: int, b: int)
    requires Fits16(a) && Fits16(b)
    ensures -0x4000_0000 <= a * b <= 0x4000_0000
  {
    var pa := if a < 0 then -a else a;
    var pb := if b < 0 then -b else b;
    assert pa * pb <= 32768 * pb <= 32768 * 32768 by {
      MulMonotone(pa, 32768, pb);
      MulMonotone(pb, 32768, 32768);
    }
    assert a * b == pa * pb || a * b == -(pa * pb);
  }

  lemma MulMonotone(x: nat, y: nat, z: nat)
    requires x <= y
    ensures x * z <= y * z
  {
  }

  /** A number divided by itself is the converted one. */
  lemma DivSelf(a: Fixed)
    requires a.raw != 0
    ensures Div(a, a) == Some(FromI32(1))
  {
    var p: int := if a.raw < 0 then -(a.raw as int) else a.raw as int;
    MulDivCancel(Scale, p);
    assert (if a.raw * Scale < 0 then -(a.raw * Scale) else a.raw * Scale) == Scale * p;
    assert TruncDiv(a.raw * Scale, a.raw) == Scale;
  }

  lemma MulDivCancel(k: int, p: int)
    requires p > 0
    ensures (k * p) / p == k
  {
    var q := (k * p) / p;
    var r := (k * p) % p;
    assert k * p == q * p + r && 0 <= r < p;
    assert (k - q) * p == r;
    MulSign(k - q, p);
  }

  lemma MulSign(d: int, p: int)
    requires p > 0
    ensures d >= 1 ==> d * p >= p
    ensures d <= -1 ==> d * p <= -p
  {
  }

  /** Zero divided by any non-zero number is zero. */
  lemma DivZero(b: Fixed)
    requires b.raw != 0
    ensures Div(FromI32(0), b) == Some(FromI32(0))
  {
  }

  /** `FixedMatrix3x3::identity`: the converted one on the diagonal, the converted zero elsewhere. */
  function Identity(): (m: seq<seq<Fixed>>)
    ensures |m| == 3 && forall i :: 0 <= i < 3 ==> |m[i]| == 3
    ensures forall i, j :: 0 <= i < 3 && 0 <= j < 3 ==>
      ToI32(m[i][j]) == (if i == j then 1 else 0) && m[i][j].raw == (if i == j then Scale else 0)
  {
    var one := FromI32(1);
    var zero := FromI32(0);
    [[one, zero, zero], [zero, one, zero], [zero, zero, one]]
  }
}
