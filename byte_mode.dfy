/**
 * Byte mode (src/decoder/modes/byte.rs): `count` bytes of eight bits each,
 * most significant first, then strict UTF-8 decoding of those bytes.
 */
module ByteMode {
  import opened Wrappers
  import opened Bits
  import Utf8

  /** The `count` bytes from the start of `bits`. */
  function Bytes(bits: seq<bool>, count: nat): (r: seq<u8>)
    requires 8 * count <= |bits|
    ensures |r| == count
  {
    seq(count, k requires 0 <= k < count => Octet(bits, 8 * k))
  }

  /** The reference decoding: the text and the `8 * count` bits used. */
  function DecodeSpec(bits: seq<bool>, count: nat): Option<(seq<char>, nat)>
  {
    if 8 * count > |bits| then None
    else
      match Utf8.Decode(Bytes(bits, count))
      case None => None
      case Some(s) => Some((s, 8 * count))
  }

  /** `ByteDecoder::decode`. */
  method Decode(bits: seq<bool>, characterCount: nat) returns (r: Option<(seq<char>, nat)>)
    ensures r == DecodeSpec(bits, characterCount)
  {
    var bytes: seq<u8> := [];
    var bitIdx := 0;
    for k := 0 to characterCount
      invariant bitIdx == 8 * k <= |bits|
      invariant bytes == seq(k, j requires 0 <= j < k => Octet(bits, 8 * j))
    {
      if bitIdx + 8 > |bits| {
        return None;
      }
      var value := ReadValue(bits, bitIdx, 8);
      assert value == Octet(bits, bitIdx);
      var byte: u8 := value;
      bytes := bytes + [byte];
      bitIdx := bitIdx + 8;
    }
    assert bytes == Bytes(bits, characterCount);
    match Utf8.Decode(bytes)
    case None =>
      r := None;
    case Some(s) =>
      r := Some((s, bitIdx));
  }

  /** Decoding uses `8 * count` bits when it succeeds, and fails when fewer bits are there. */
  lemma DecodeUses(bits: seq<bool>, count: nat)
    ensures DecodeSpec(bits, count).Some? ==> DecodeSpec(bits, count).value.1 == 8 * count
    ensures 8 * count > |bits| ==> DecodeSpec(bits, count).None?
  {
  }

  /** With enough bits, decoding fails exactly on invalid UTF-8. */
  lemma DecodeStrict(bits: seq<bool>, count: nat)
    requires 8 * count <= |bits|
    ensures DecodeSpec(bits, count).None? <==> Utf8.Decode(Bytes(bits, count)).None?
  {
  }

  /** The bytes of the expansion of `b` are `b`. */
  lemma BytesOfExpand(b: seq<u8>)
    ensures Bytes(Expand(b), |b|) == b
  {
    forall k | 0 <= k < |b|
      ensures Bytes(Expand(b), |b|)[k] == b[k]
    {
      OctetOfExpand(b, k);
    }
  }

  /** The bits of a string's UTF-8 encoding decode back to the string. */
  lemma RoundTrip(s: seq<char>)
    ensures DecodeSpec(Expand(Utf8.Encode(s)), |Utf8.Encode(s)|) == Some((s, 8 * |Utf8.Encode(s)|))
  {
    BytesOfExpand(Utf8.Encode(s));
    Utf8.DecodeEncode(s);
  }

  /** The unit test: the bits of 0x48 0x49 decode to "HI". */
  lemma SampleHI()
    ensures DecodeSpec(Expand([0x48, 0x49]), 2) == Some(("HI", 16))
  {
    assert Utf8.Encode("HI"[1..]) == [0x49];
    assert Utf8.Encode("HI") == [0x48, 0x49];
    RoundTrip("HI");
  }
}
