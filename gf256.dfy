/**
 * Arithmetic in GF(2^8) by log/antilog lookup (`Gf256` in
 * src/decoder/reed_solomon.rs).
 *
 * The operations read the two lookup tables through a `Field` value rather
 * than through the global constants, so that every proof about them reasons
 * from the properties of the tables (`Inverse`) instead of their 512 literal
 * entries. `AsWritten()` is the field of the source's tables as they are
 * spelled, the one the decoder computes with; `Standard()` is the field the
 * source intends, and `StandardInverse` proves its tables are mutually
 * inverse.
 */
module Gf256 {
  import opened Wrappers
  import opened Gf256Tables

  /** A logarithm table and an antilog table, each of 256 entries. */
  datatype Tables = Tables(log: seq<int>, exp: seq<int>)

  /** 256 entries, all of them bytes. */
  predicate ByteTable(t: seq<int>)
  {
    |t| == 256 && forall i :: 0 <= i < 256 ==> 0 <= t[i] < 256
  }

  /** A pair of byte tables. */
  type Field = f: Tables | ByteTable(f.log) && ByteTable(f.exp)
    witness Tables(seq(256, i => 0), seq(256, i => 0))

  /** `LOG_TABLE[a]`. */
  function Log(f: Field, a: u8): u8
  {
    f.log[a]
  }

  /** `EXP_TABLE[i]`. */
  function Exp(f: Field, i: int): u8
    requires 0 <= i < 256
  {
    f.exp[i]
  }

  /**
   * The tables are mutually inverse between the non-zero bytes and the
   * exponents 0..254, as for any generator of the multiplicative group.
   */
  ghost predicate Inverse(f: Field)
  {
    (forall a: u8 :: a != 0 ==> Log(f, a) < 255 && Exp(f, Log(f, a)) == a) &&
    (forall i :: 0 <= i < 255 ==> Exp(f, i) != 0 && Log(f, Exp(f, i)) == i)
  }

  /** The field of the source's `LOG_TABLE` and the table of powers of 2, read row by row. */
  function Standard(): (f: Field)
    ensures forall i :: 0 <= i < 256 ==> f.log[i] == LogAt(i) && f.exp[i] == ExpAt(i)
  {
    forall i | 0 <= i < 256
      ensures 0 <= LogAt(i) < 256 && 0 <= ExpAt(i) < 256
    {
      if i == 0 {
        assert LogAt(0) == 0;
      } else {
        ExpOfLog(i);
      }
      if i == 255 {
        assert ExpAt(255) == 1;
      } else {
        LogOfExp(i);
      }
    }
    Tables(seq(256, i requires 0 <= i < 256 => LogAt(i)), seq(256, i requires 0 <= i < 256 => ExpAt(i)))
  }

  /** The standard tables are mutually inverse. */
  lemma StandardInverse()
    ensures Inverse(Standard())
  {
    var f := Standard();
    forall a: u8 | a != 0
      ensures Log(f, a) < 255 && Exp(f, Log(f, a)) == a
    {
      ExpOfLog(a);
    }
    forall i | 0 <= i < 255
      ensures Exp(f, i) != 0 && Log(f, Exp(f, i)) == i
    {
      LogOfExp(i);
    }
  }

  /** The field of the source's `LOG_TABLE` and `EXP_TABLE` as written, the one `Gf256` computes with. */
  function AsWritten(): (f: Field)
    ensures forall i :: 0 <= i < 256 ==> f.log[i] == LogAt(i) && f.exp[i] == ExpAsWrittenAt(i)
  {
    forall i | 0 <= i < 256
      ensures 0 <= LogAt(i) < 256 && 0 <= ExpAsWrittenAt(i) < 256
    {
      if i == 0 {
        assert LogAt(0) == 0;
      } else {
        ExpOfLog(i);
      }
      ExpAsWrittenByte(i);
    }
    Tables(seq(256, i requires 0 <= i < 256 => LogAt(i)), seq(256, i requires 0 <= i < 256 => ExpAsWrittenAt(i)))
  }

  /**
   * The source's own `EXP_TABLE` is not the inverse of `LOG_TABLE`: the
   * logarithm of 7 is 198, but its entry 198 is 185.
   */
  lemma AsWrittenNotInverse()
    ensures ExpAsWrittenAt(LogAt(7)) != 7
    ensures !Inverse(AsWritten())
  {
    ExpTableAsWrittenRepeatsEarly();
    assert Exp(AsWritten(), Log(AsWritten(), 7)) != 7;
  }

  /** The entries of the source's tables that decoding the block [7, 185] reads. */
  lemma SampleEntriesAsWritten()
    ensures Log(AsWritten(), 1) == 0 && Log(AsWritten(), 7) == 198 && Log(AsWritten(), 185) == 60
    ensures Exp(AsWritten(), 0) == 1 && Exp(AsWritten(), 60) == 185 && Exp(AsWritten(), 198) == 185
  {
    assert LogAt(1) == 0 && LogAt(7) == 198 && LogAt(185) == 60;
    assert ExpAsWrittenAt(0) == 1 && ExpAsWrittenAt(60) == 185 && ExpAsWrittenAt(198) == 185;
  }

  /** The entries of the true field's tables that decoding the block [7, 185] reads. */
  lemma SampleEntriesStandard()
    ensures Log(Standard(), 1) == 0 && Log(Standard(), 2) == 1 && Log(Standard(), 7) == 198
    ensures Log(Standard(), 185) == 60 && Log(Standard(), 190) == 65
    ensures Exp(Standard(), 0) == 1 && Exp(Standard(), 1) == 2 && Exp(Standard(), 60) == 185
    ensures Exp(Standard(), 65) == 190 && Exp(Standard(), 66) == 97 && Exp(Standard(), 198) == 7
  {
    assert LogAt(1) == 0 && LogAt(2) == 1 && LogAt(7) == 198 && LogAt(185) == 60 && LogAt(190) == 65;
    assert ExpAt(0) == 1 && ExpAt(1) == 2 && ExpAt(60) == 185 && ExpAt(65) == 190 && ExpAt(66) == 97;
    assert ExpAt(198) == 7;
  }

  /** `Gf256::mul`. */
  function Mul(f: Field, a: u8, b: u8): u8
  {
    if a == 0 || b == 0 then 0 else Exp(f, (Log(f, a) + Log(f, b)) % 255)
  }

  /** `Gf256::div`; the source panics on a zero divisor. */
  function Div(f: Field, a: u8, b: u8): u8
    requires b != 0
  {
    if a == 0 then 0
    else
      var la: int := Log(f, a);
      var lb: int := Log(f, b);
      var diff := if la >= lb then la - lb else la + 255 - lb;
      Exp(f, diff)
  }

  /** `Gf256::pow`. */
  function Pow(f: Field, a: u8, n: u8): (r: u8)
    ensures n == 0 ==> r == 1
    ensures n > 0 && a == 0 ==> r == 0
  {
    if n == 0 then 1
    else if a == 0 then 0
    else Exp(f, (Log(f, a) * n) % 255)
  }

  /** With the source's tables 1 is not an identity: 1 * 7 comes out as 185. */
  lemma MulAsWrittenOneSeven()
    ensures Mul(AsWritten(), 1, 7) == 185
    ensures Mul(Standard(), 1, 7) == 7
  {
    ExpTableAsWrittenRepeatsEarly();
    assert LogAt(1) == 0;
    MulOneSeven(AsWritten());
    MulOneSeven(Standard());
  }

  /** 1 * 7 is entry 198 of the antilog table, the logarithm of 7. */
  lemma MulOneSeven(f: Field)
    requires f.log[1] == 0 && f.log[7] == 198
    ensures Mul(f, 1, 7) == f.exp[198]
  {
  }

  /** Reducing the left summand first does not change a sum modulo 255. */
  lemma ModAddLeft(x: nat, y: nat)
    ensures (x % 255 + y) % 255 == (x + y) % 255
  {
  }

  /** Bytes are determined by their logarithms. */
  lemma LogInjective(f: Field, a: u8, b: u8)
    requires Inverse(f)
    requires a != 0 && b != 0 && Log(f, a) == Log(f, b)
    ensures a == b
  {
    assert Exp(f, Log(f, a)) == a && Exp(f, Log(f, b)) == b;
  }

  /** A product is zero exactly when a factor is; otherwise logarithms add. */
  lemma MulLog(f: Field, a: u8, b: u8)
    requires Inverse(f)
    ensures Mul(f, a, b) == 0 <==> a == 0 || b == 0
    ensures a != 0 && b != 0 ==> Log(f, Mul(f, a, b)) == (Log(f, a) + Log(f, b)) % 255
  {
  }

  /** 1 is the multiplicative identity, and 0 absorbs. */
  lemma MulIdentity(f: Field, a: u8)
    requires Inverse(f)
    requires Exp(f, 0) == 1
    ensures Mul(f, 1, a) == a && Mul(f, a, 1) == a
    ensures Mul(f, 0, a) == 0 && Mul(f, a, 0) == 0
  {
    assert Log(f, 1) == 0 by {
      assert Log(f, Exp(f, 0)) == 0;
    }
    if a != 0 {
      var la := Log(f, a);
      assert (0 + la) % 255 == la && (la + 0) % 255 == la;
    }
  }

  lemma MulCommutative(f: Field, a: u8, b: u8)
    ensures Mul(f, a, b) == Mul(f, b, a)
  {
  }

  lemma MulAssociative(f: Field, a: u8, b: u8, c: u8)
    requires Inverse(f)
    ensures Mul(f, Mul(f, a, b), c) == Mul(f, a, Mul(f, b, c))
  {
    if a != 0 && b != 0 && c != 0 {
      var la: int, lb: int, lc: int := Log(f, a), Log(f, b), Log(f, c);
      var ab, bc := Mul(f, a, b), Mul(f, b, c);
      MulLog(f, a, b);
      MulLog(f, b, c);
      MulLog(f, ab, c);
      MulLog(f, a, bc);
      ModAddLeft(la + lb, lc);
      ModAddLeft(lb + lc, la);
      assert Log(f, Mul(f, ab, c)) == (la + lb + lc) % 255;
      assert Log(f, Mul(f, a, bc)) == (lb + lc + la) % 255;
      LogInjective(f, Mul(f, ab, c), Mul(f, a, bc));
    }
  }

  /** A quotient is zero exactly when the dividend is; otherwise logarithms subtract. */
  lemma DivLog(f: Field, a: u8, b: u8)
    requires Inverse(f) && b != 0
    ensures Div(f, a, b) == 0 <==> a == 0
    ensures a != 0 ==> Log(f, Div(f, a, b)) == (Log(f, a) + 255 - Log(f, b)) % 255
  {
    if a != 0 {
      var la: int, lb: int := Log(f, a), Log(f, b);
      var diff := if la >= lb then la - lb else la + 255 - lb;
      assert diff == (la + 255 - lb) % 255;
    }
  }

  /** Division undoes multiplication. */
  lemma DivOfMul(f: Field, a: u8, b: u8)
    requires Inverse(f) && b != 0
    ensures Div(f, Mul(f, a, b), b) == a
  {
    if a != 0 {
      var la: int, lb: int := Log(f, a), Log(f, b);
      var p := Mul(f, a, b);
      MulLog(f, a, b);
      assert p != 0 && Log(f, p) == (la + lb) % 255;
      DivLog(f, p, b);
      var q := Div(f, p, b);
      assert q != 0 && Log(f, q) == ((la + lb) % 255 + 255 - lb) % 255;
      ModAddLeft(la + lb, 255 - lb);
      assert (la + lb + (255 - lb)) % 255 == la;
      LogInjective(f, q, a);
    }
  }

  /** Multiplication undoes division. */
  lemma MulOfDiv(f: Field, a: u8, b: u8)
    requires Inverse(f) && b != 0
    ensures Mul(f, Div(f, a, b), b) == a
  {
    if a != 0 {
      var la: int, lb: int := Log(f, a), Log(f, b);
      var q := Div(f, a, b);
      DivLog(f, a, b);
      assert q != 0 && Log(f, q) == (la + 255 - lb) % 255;
      MulLog(f, q, b);
      var p := Mul(f, q, b);
      assert p != 0 && Log(f, p) == ((la + 255 - lb) % 255 + lb) % 255;
      ModAddLeft(la + 255 - lb, lb);
      assert (la + 255 - lb + lb) % 255 == la;
      LogInjective(f, p, a);
    }
  }

  /** x / x == 1 and 0 / x == 0. */
  lemma DivSelf(f: Field, x: u8)
    requires Exp(f, 0) == 1 && x != 0
    ensures Div(f, x, x) == 1 && Div(f, 0, x) == 0
  {
  }

  /** Repeated multiplication, the meaning of a power. */
  function PowRef(f: Field, a: u8, n: nat): u8
  {
    if n == 0 then 1 else Mul(f, PowRef(f, a, n - 1), a)
  }

  /** One more factor: a^(n+1) == a^n * a. */
  lemma PowSucc(f: Field, a: u8, n: u8)
    requires Inverse(f) && Exp(f, 0) == 1
    requires n < 255
    ensures Pow(f, a, n + 1) == Mul(f, Pow(f, a, n), a)
  {
    if a != 0 && n > 0 {
      var la := Log(f, a);
      var p := Pow(f, a, n);
      assert Log(f, p) == (la * n) % 255;
      MulLog(f, p, a);
      ModAddLeft(la * n, la);
      assert la * n + la == la * (n + 1);
      LogInjective(f, Pow(f, a, n + 1), Mul(f, p, a));
    } else if a != 0 {
      MulIdentity(f, a);
      assert Log(f, a) * 1 % 255 == Log(f, a);
    }
  }

  /** `pow` agrees with repeated multiplication for every u8 exponent. */
  lemma {:induction false} PowIsRepeatedMul(f: Field, a: u8, n: u8)
    requires Inverse(f) && Exp(f, 0) == 1
    ensures Pow(f, a, n) == PowRef(f, a, n)
  {
    if n > 0 {
      PowIsRepeatedMul(f, a, n - 1);
      PowSucc(f, a, n - 1);
    }
  }

  /** The standard field satisfies every hypothesis of the lemmas above. */
  lemma StandardIsField()
    ensures Inverse(Standard()) && Exp(Standard(), 0) == 1
  {
    StandardInverse();
    assert ExpAt(0) == 1;
  }
}
