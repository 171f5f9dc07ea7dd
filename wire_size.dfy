/**
 * The sizes the emitted `CalculateSize` asks Google.Protobuf's `CodedOutputStream`
 * for, stated after the Protocol Buffers encoding documentation: "Base 128 Varints"
 * (seven bits per byte, low group first, the high bit marking continuation; a
 * negative int32 is sign-extended to 64 bits) and "Length-delimited records" (a
 * length varint followed by the UTF-8 bytes of the string).
 */
module WireSize {

  const TwoTo31: int := 0x8000_0000
  const TwoTo32: int := 0x1_0000_0000
  const TwoTo64: int := 0x1_0000_0000_0000_0000

  /** The base 128 varint encoding of `v`: seven bits per byte, continuation bit on all but the last. */
  function EncodeVarint(v: nat): (r: seq<nat>)
    ensures |r| >= 1
    ensures forall i :: 0 <= i < |r| ==> r[i] < 256
  {
    if v < 128 then [v] else [v % 128 + 128] + EncodeVarint(v / 128)
  }

  function Pow128(k: nat): (r: nat)
    ensures r >= 1
  {
    if k == 0 then 1 else 128 * Pow128(k - 1)
  }

  /** A value needs `k` varint bytes exactly when it is at least 128^(k-1) and below 128^k. */
  lemma {:induction false} EncodeVarintLength(v: nat, k: nat)
    requires k >= 1
    requires (k == 1 || Pow128(k - 1) <= v) && v < Pow128(k)
    ensures |EncodeVarint(v)| == k
  {
    if k > 1 {
      var p := Pow128(k - 2);
      assert Pow128(k - 1) == 128 * p;
      assert Pow128(k) == 128 * (128 * p);
      assert v / 128 < 128 * p;
      assert k - 1 == 1 || p <= v / 128;
      EncodeVarintLength(v / 128, k - 1);
    } else {
      assert Pow128(1) == 128;
    }
  }

  /** `ComputeRawVarint32Size`: the varint size of a 32-bit unsigned value. */
  function RawVarint32Size(v: nat): (r: nat)
    requires v < TwoTo32
    ensures 1 <= r <= 5
  {
    if v < 0x80 then 1
    else if v < 0x4000 then 2
    else if v < 0x20_0000 then 3
    else if v < 0x1000_0000 then 4
    else 5
  }

  /** `ComputeUInt32Size` */
  function UInt32Size(v: nat): (r: nat)
    requires v < TwoTo32
  {
    RawVarint32Size(v)
  }

  /** `ComputeInt32Size`: a negative value is written sign-extended to 64 bits and takes ten bytes. */
  function Int32Size(v: int): (r: nat)
    requires -TwoTo31 <= v < TwoTo31
  {
    if v >= 0 then RawVarint32Size(v) else 10
  }

  /** The 32-bit size functions agree with the length of the base 128 varint encoding. */
  lemma RawVarint32SizeIsEncodingLength(v: nat)
    requires v < TwoTo32
    ensures RawVarint32Size(v) == |EncodeVarint(v)|
  {
    assert Pow128(1) == 0x80 && Pow128(2) == 0x4000 && Pow128(3) == 0x20_0000;
    assert Pow128(4) == 0x1000_0000 && Pow128(5) == 0x8_0000_0000;
    EncodeVarintLength(v, RawVarint32Size(v));
  }

  /** An int32 takes as many bytes as the varint of its 64-bit two's complement pattern. */
  lemma Int32SizeIsEncodingLength(v: int)
    requires -TwoTo31 <= v < TwoTo31
    ensures Int32Size(v) == |EncodeVarint(if v >= 0 then v else v + TwoTo64)|
  {
    if v >= 0 {
      RawVarint32SizeIsEncodingLength(v);
    } else {
      assert Pow128(9) == 0x8000_0000_0000_0000;
      assert Pow128(10) == 0x40_0000_0000_0000_0000;
      EncodeVarintLength(v + TwoTo64, 10);
    }
  }

  /** UTF-8 bytes of one Unicode scalar value (RFC 3629). */
  function Utf8CharLength(c: char): (r: nat)
    ensures 1 <= r <= 4
  {
    if c as int < 0x80 then 1
    else if c as int < 0x800 then 2
    else if c as int < 0x1_0000 then 3
    else 4
  }

  /** `Encoding.UTF8.GetByteCount`: the UTF-8 byte count of a string. */
  function Utf8Length(s: string): (r: nat)
    ensures |s| <= r <= 4 * |s|
  {
    if s == [] then 0 else Utf8CharLength(s[0]) + Utf8Length(s[1..])
  }

  /**
   * `ComputeStringSize`: a length varint followed by the UTF-8 bytes. The byte count is
   * a C# `int`, so it is below 2^31.
   */
  function StringSize(s: string): (r: nat)
    requires Utf8Length(s) < TwoTo31
    ensures r > Utf8Length(s)
  {
    var n := Utf8Length(s);
    RawVarint32Size(n) + n
  }

  /** The string size is a length-delimited record: its length prefix is the varint of the byte count. */
  lemma StringSizeIsRecordLength(s: string)
    requires Utf8Length(s) < TwoTo31
    ensures StringSize(s) == |EncodeVarint(Utf8Length(s))| + Utf8Length(s)
  {
    RawVarint32SizeIsEncodingLength(Utf8Length(s));
  }
}
