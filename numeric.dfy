/**
 * Numeric mode (src/decoder/modes/numeric.rs): digits in groups of three,
 * two and one read from 10, 7 and 4 bits, each group's value written in
 * decimal, zero-padded to the group's size, with no range check.
 */
module Numeric {
  import opened Wrappers
  import opened Bits

  /** `chars_remaining.min(3)`. */
  function GroupSize(remaining: nat): nat
  {
    if remaining < 3 then remaining else 3
  }

  /** Bits of a group of 3, 2 or 1 digits. */
  function GroupBits(size: nat): nat
  {
    if size == 3 then 10 else if size == 2 then 7 else 4
  }

  /** Bits that `n` digits occupy: 10 per full group, then 0, 4 or 7. */
  function NumericBits(n: nat): nat
  {
    10 * (n / 3) + (if n % 3 == 0 then 0 else if n % 3 == 1 then 4 else 7)
  }

  function Digit(d: nat): char
    requires d < 10
  {
    ('0' as int + d) as char
  }

  predicate IsDigits(s: seq<char>)
  {
    forall i :: 0 <= i < |s| ==> '0' <= s[i] <= '9'
  }

  /** The decimal representation of `n`, without leading zeros. */
  function Decimal(n: nat): (s: seq<char>)
    ensures |s| >= 1 && IsDigits(s)
  {
    if n < 10 then [Digit(n)] else Decimal(n / 10) + [Digit(n % 10)]
  }

  /** `format!("{:0w}", n)`: the decimal digits of `n`, left-padded with zeros to width `w`. */
  function ZeroPadded(n: nat, w: nat): (s: seq<char>)
    ensures IsDigits(s) && |s| >= w
  {
    var d := Decimal(n);
    if |d| >= w then d else seq(w - |d|, _ => '0') + d
  }

  /** The value a digit string denotes. */
  function DigitsValue(s: seq<char>): nat
    requires IsDigits(s)
  {
    if |s| == 0 then 0 else 10 * DigitsValue(s[..|s| - 1]) + (s[|s| - 1] as int - '0' as int)
  }

  function Pow10(k: nat): nat
  {
    if k == 0 then 1 else 10 * Pow10(k - 1)
  }

  /**
   * The reference decoding: from bit `idx` with `remaining` digits left,
   * the digits and the index after the last group, or None when a group
   * runs past the end.
   */
  function Groups(bits: seq<bool>, idx: nat, remaining: nat): Option<(seq<char>, nat)>
    decreases remaining
  {
    if remaining == 0 then Some(([], idx))
    else
      var size := GroupSize(remaining);
      var need := GroupBits(size);
      if idx + need > |bits| then None
      else
        match Groups(bits, idx + need, remaining - size)
        case None => None
        case Some((rest, end)) => Some((ZeroPadded(PackBits(bits[idx..idx + need]), size) + rest, end))
  }

  /** `prefix` in front of a decoding's text. */
  function Attach(prefix: seq<char>, r: Option<(seq<char>, nat)>): Option<(seq<char>, nat)>
  {
    match r
    case None => None
    case Some((s, e)) => Some((prefix + s, e))
  }

  lemma AttachTwice(a: seq<char>, b: seq<char>, r: Option<(seq<char>, nat)>)
    ensures Attach(a, Attach(b, r)) == Attach(a + b, r)
  {
    if r.Some? {
      assert a + (b + r.value.0) == (a + b) + r.value.0;
    }
  }

  lemma AttachEmpty(r: Option<(seq<char>, nat)>)
    ensures Attach([], r) == r
  {
    if r.Some? {
      assert [] + r.value.0 == r.value.0;
    }
  }

  /** One group of the reference decoding. */
  lemma GroupsStep(bits: seq<bool>, idx: nat, remaining: nat)
    requires remaining > 0 && idx + GroupBits(GroupSize(remaining)) <= |bits|
    ensures Groups(bits, idx, remaining)
         == Attach(ZeroPadded(PackBits(bits[idx..idx + GroupBits(GroupSize(remaining))]), GroupSize(remaining)),
                   Groups(bits, idx + GroupBits(GroupSize(remaining)), remaining - GroupSize(remaining)))
  {
  }

  /** `NumericDecoder::decode`: the digits and the number of bits used. */
  method Decode(bits: seq<bool>, characterCount: nat) returns (r: Option<(seq<char>, nat)>)
    ensures r == Groups(bits, 0, characterCount)
  {
    var result: seq<char> := [];
    var bitIdx := 0;
    var charsRemaining := characterCount;
    AttachEmpty(Groups(bits, 0, characterCount));
    while charsRemaining > 0
      invariant Groups(bits, 0, characterCount) == Attach(result, Groups(bits, bitIdx, charsRemaining))
    {
      var groupSize := if charsRemaining < 3 then charsRemaining else 3;
      // group_size is 1, 2 or 3, so the source's fallback arm is unreachable
      var bitsNeeded := if groupSize == 3 then 10 else if groupSize == 2 then 7 else 4;
      if bitIdx + bitsNeeded > |bits| {
        return None;
      }
      var value := ReadValue(bits, bitIdx, bitsNeeded);
      var digits := ZeroPadded(value, groupSize);
      GroupsStep(bits, bitIdx, charsRemaining);
      AttachTwice(result, digits, Groups(bits, bitIdx + bitsNeeded, charsRemaining - groupSize));
      result := result + digits;
      bitIdx := bitIdx + bitsNeeded;
      charsRemaining := charsRemaining - groupSize;
    }
    r := Some((result, bitIdx));
    assert result + [] == result;
  }

  /** A successful decoding uses exactly `NumericBits(n)` bits and yields only digits. */
  lemma {:induction false} GroupsConsumed(bits: seq<bool>, idx: nat, n: nat)
    requires Groups(bits, idx, n).Some?
    ensures Groups(bits, idx, n).value.1 == idx + NumericBits(n)
    ensures IsDigits(Groups(bits, idx, n).value.0)
    decreases n
  {
    if n > 0 {
      var size := GroupSize(n);
      GroupsConsumed(bits, idx + GroupBits(size), n - size);
      assert NumericBits(n) == GroupBits(size) + NumericBits(n - size);
    }
  }

  /** Decoding fails exactly when the groups need more bits than remain. */
  lemma {:induction false} GroupsFailIff(bits: seq<bool>, idx: nat, n: nat)
    requires idx <= |bits|
    ensures Groups(bits, idx, n).None? <==> idx + NumericBits(n) > |bits|
    decreases n
  {
    if n > 0 {
      var size := GroupSize(n);
      var need := GroupBits(size);
      assert NumericBits(n) == need + NumericBits(n - size);
      if idx + need <= |bits| {
        GroupsFailIff(bits, idx + need, n - size);
        assert Groups(bits, idx, n).None? <==> Groups(bits, idx + need, n - size).None?;
      }
    }
  }

  lemma {:induction false} DecimalValue(n: nat)
    ensures DigitsValue(Decimal(n)) == n
  {
    if n >= 10 {
      DecimalValue(n / 10);
      var d := Decimal(n / 10) + [Digit(n % 10)];
      assert d[..|d| - 1] == Decimal(n / 10);
    }
  }

  lemma {:induction false} ZerosValue(k: nat)
    ensures DigitsValue(seq(k, _ => '0')) == 0
  {
    if k > 0 {
      assert seq(k, _ => '0')[..k - 1] == seq(k - 1, _ => '0');
      ZerosValue(k - 1);
    }
  }

  /** Leading zeros do not change a digit string's value. */
  lemma {:induction false} LeadingZerosValue(k: nat, d: seq<char>)
    requires IsDigits(d)
    ensures DigitsValue(seq(k, _ => '0') + d) == DigitsValue(d)
  {
    var z := seq(k, _ => '0');
    if |d| == 0 {
      assert z + d == z;
      ZerosValue(k);
    } else {
      var init := d[..|d| - 1];
      LeadingZerosValue(k, init);
      assert (z + d)[..|z + d| - 1] == z + init;
    }
  }

  lemma {:induction false} DecimalLength(n: nat, w: nat)
    requires w >= 1 && n < Pow10(w)
    ensures |Decimal(n)| <= w
  {
    if n >= 10 {
      DecimalLength(n / 10, w - 1);
    }
  }

  /**
   * A group's text denotes the group's value; it has exactly `w` digits when
   * the value fits in `w` digits, and more otherwise (no range check).
   */
  lemma ZeroPaddedMeaning(n: nat, w: nat)
    requires w >= 1
    ensures DigitsValue(ZeroPadded(n, w)) == n
    ensures n < Pow10(w) <==> |ZeroPadded(n, w)| == w
  {
    var d := Decimal(n);
    DecimalValue(n);
    if |d| < w {
      LeadingZerosValue(w - |d|, d);
    }
    if n < Pow10(w) {
      DecimalLength(n, w);
    } else {
      DecimalAtLeast(n, w);
    }
  }

  lemma {:induction false} DecimalAtLeast(n: nat, w: nat)
    requires w >= 1 && n >= Pow10(w)
    ensures |Decimal(n)| > w
  {
    if w > 1 {
      DecimalAtLeast(n / 10, w - 1);
    }
  }

  /** The unit test: the value 1017 in ten bits, with count 3, gives "1017" and uses 10 bits. */
  lemma Sample1017()
    ensures Groups(UnpackBits(1017, 10), 0, 3) == Some(("1017", 10))
  {
    var bits := UnpackBits(1017, 10);
    PackUnpack(1017, 10);
    assert Pow2(10) == 1024;
    assert bits[0..10] == bits;
    assert Decimal(1) == "1";
    assert Decimal(10) == "10";
    assert Decimal(101) == "101";
    assert Decimal(1017) == "1017";
    var text := ZeroPadded(PackBits(bits[0..10]), 3);
    assert text == "1017";
    GroupsStep(bits, 0, 3);
    assert Groups(bits, 10, 0) == Some(([], 10));
    assert text + [] == text;
  }
}
