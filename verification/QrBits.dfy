/**
  The bit stream of `encodeQR` in src/api/audit-verify.ts (lines 524-557): byte-mode
  header, data, padding, codewords and back to bits, with a reader for byte-mode
  streams (section 7.4.5 of ISO/IEC 18004:2015).
*/
module QrBits {
  import opened Wrappers
  import opened Bitwise
  import opened GF256

  type Bit = b: nat | b < 2

  const DATA_BIT_TARGET: nat := 44 * 8

  /** The low len bits of val, most significant first. */
  function BitsOf(val: nat, len: nat): (bits: seq<Bit>)
    ensures |bits| == len
  {
    if len == 0 then [] else BitsOf(val / 2, len - 1) + [val % 2]
  }

  function Value(bits: seq<Bit>): nat {
    if bits == [] then 0 else 2 * Value(bits[..|bits| - 1]) + bits[|bits| - 1]
  }

  function Zeros(n: nat): (bits: seq<Bit>)
    ensures |bits| == n
  {
    seq(n, _ => 0)
  }

  /** The bits of a list of codewords. */
  function Unpack(codewords: seq<Byte>): (bits: seq<Bit>)
    ensures |bits| == 8 * |codewords|
  {
    if codewords == [] then [] else BitsOf(codewords[0], 8) + Unpack(codewords[1..])
  }

  lemma {:induction false} ValueBound(bits: seq<Bit>)
    ensures Value(bits) < Pow2(|bits|)
  {
    if bits != [] {
      ValueBound(bits[..|bits| - 1]);
    }
  }

  function ByteValue(bits: seq<Bit>): Byte
    requires |bits| == 8
  {
    ValueBound(bits);
    assert Pow2(8) == 256;
    Value(bits)
  }

  /** The codewords of a list of bits. */
  function Pack(bits: seq<Bit>): (codewords: seq<Byte>)
    requires |bits| % 8 == 0
    ensures |codewords| == |bits| / 8
  {
    if bits == [] then [] else [ByteValue(bits[..8])] + Pack(bits[8..])
  }

  lemma {:induction false} BitsOfValue(bits: seq<Bit>)
    ensures BitsOf(Value(bits), |bits|) == bits
  {
    if bits != [] {
      BitsOfValue(bits[..|bits| - 1]);
    }
  }

  lemma {:induction false} ValueOfBits(val: nat, len: nat)
    requires val < Pow2(len)
    ensures Value(BitsOf(val, len)) == val
  {
    if len > 0 {
      ValueOfBits(val / 2, len - 1);
      assert BitsOf(val, len)[..len - 1] == BitsOf(val / 2, len - 1);
    }
  }

  lemma {:induction false} UnpackPack(bits: seq<Bit>)
    requires |bits| % 8 == 0
    ensures Unpack(Pack(bits)) == bits
    decreases |bits|
  {
    hide BitsOf, Value;
    if bits != [] {
      BitsOfValue(bits[..8]);
      UnpackPack(bits[8..]);
      assert bits == bits[..8] + bits[8..];
    }
  }

  lemma {:induction false} PackUnpack(codewords: seq<Byte>)
    ensures Pack(Unpack(codewords)) == codewords
  {
    hide BitsOf, Value;
    if codewords != [] {
      var bits := Unpack(codewords);
      assert bits[..8] == BitsOf(codewords[0], 8) && bits[8..] == Unpack(codewords[1..]);
      ValueOfBits(codewords[0], 8);
      assert Pow2(8) == 256;
      PackUnpack(codewords[1..]);
    }
  }

  lemma {:induction false} UnpackConcat(a: seq<Byte>, b: seq<Byte>)
    ensures Unpack(a + b) == Unpack(a) + Unpack(b)
  {
    hide BitsOf;
    if a == [] {
      assert a + b == b;
    } else {
      assert (a + b)[1..] == a[1..] + b;
      UnpackConcat(a[1..], b);
    }
  }

  // ---- the stream -------------------------------------------------------------------

  /** Mode indicator, character count, data. */
  function Message(bytes: seq<Byte>): (bits: seq<Bit>)
    ensures |bits| == 12 + 8 * |bytes|
  {
    BitsOf(4, 4) + BitsOf(|bytes|, 8) + Unpack(bytes)
  }

  /** The data codewords: zeros up to 44 codewords, or to the next full one. */
  function DataBits(bytes: seq<Byte>): (bits: seq<Bit>)
    ensures |bits| == 8 * if |bytes| <= 42 then 44 else |bytes| + 2
  {
    hide BitsOf, Unpack;
    Message(bytes) + Zeros(if |bytes| <= 42 then DATA_BIT_TARGET - 12 - 8 * |bytes| else 4)
  }

  /** All bits to be placed. */
  function SymbolBits(data: seq<Byte>, ec: seq<Byte>): (bits: seq<Bit>)
    ensures |bits| == 8 * |data| + 8 * |ec| + 7
  {
    Unpack(data) + Unpack(ec) + Zeros(7)
  }

  /** A reader: mode indicator, count, that many bytes. */
  function ReadMessage(bits: seq<Bit>): Option<seq<Byte>> {
    if |bits| < 12 || Value(bits[..4]) != 4 then None
    else
      var count := Value(bits[4..12]);
      if |bits| < 12 + 8 * count then None else Some(Pack(bits[12..12 + 8 * count]))
  }

  lemma ReadsMessage(bytes: seq<Byte>, rest: seq<Bit>)
    requires |bytes| < 256
    ensures ReadMessage(Message(bytes) + rest) == Some(bytes)
  {
    hide BitsOf, Value, Pack, Unpack;
    var bits := Message(bytes) + rest;
    assert bits[..4] == BitsOf(4, 4);
    assert bits[4..12] == BitsOf(|bytes|, 8);
    assert bits[12..12 + 8 * |bytes|] == Unpack(bytes);
    assert Pow2(4) == 16 && Pow2(8) == 256;
    ValueOfBits(4, 4);
    ValueOfBits(|bytes|, 8);
    PackUnpack(bytes);
  }

  lemma {:induction false} BitOf(val: nat, len: nat, i: nat)
    requires i < len
    ensures BitsOf(val, len)[i] == ShiftRight(val, len - 1 - i) % 2
  {
    if i < len - 1 {
      BitOf(val / 2, len - 1, i);
    }
  }

  lemma {:induction false} UnpackAt(codewords: seq<Byte>, j: nat, i: nat)
    requires j < |codewords| && i < 8
    ensures Unpack(codewords)[8 * j + i] == ShiftRight(codewords[j], 7 - i) % 2
  {
    hide BitsOf, ShiftRight;
    if j == 0 {
      BitOf(codewords[0], 8, i);
    } else {
      UnpackAt(codewords[1..], j - 1, i);
    }
  }

  /** The stream begins with 0100. */
  lemma ModeAt(bytes: seq<Byte>)
    ensures Message(bytes)[..4] == [0, 1, 0, 0]
  {
    hide BitsOf, Unpack;
    Mode();
    assert Message(bytes)[..4] == BitsOf(4, 4);
  }

  /** Then comes the count, most significant bit first. */
  lemma CountAt(bytes: seq<Byte>, i: nat)
    requires i < 8
    ensures Message(bytes)[4 + i] == ShiftRight(|bytes|, 7 - i) % 2
  {
    hide BitsOf, Unpack, ShiftRight;
    BitOf(|bytes|, 8, i);
  }

  /** Then every byte, most significant bit first. */
  lemma ByteAt(bytes: seq<Byte>, j: nat, i: nat)
    requires j < |bytes| && i < 8
    ensures Message(bytes)[12 + 8 * j + i] == ShiftRight(bytes[j], 7 - i) % 2
  {
    hide BitsOf, Unpack, ShiftRight;
    UnpackAt(bytes, j, i);
  }

  lemma Mode()
    ensures BitsOf(4, 4) == [0, 1, 0, 0]
  {
    assert BitsOf(0, 1) == [0] && BitsOf(1, 2) == [0, 1] && BitsOf(2, 3) == [0, 1, 0];
  }

  // ---- the encoder ----------------------------------------------------------------------

  /** `pushBits` */
  method PushBits(bits: seq<Bit>, val: nat, len: nat) returns (longer: seq<Bit>)
    ensures longer == bits + BitsOf(val, len)
  {
    longer := bits;
    var i: nat := len;
    while i > 0
      invariant i <= len
      invariant longer == bits + BitsOf(ShiftRight(val, i), len - i)
    {
      i := i - 1;
      ShiftHalf(val, i);
      longer := longer + [ShiftRight(val, i) % 2];
    }
  }

  lemma {:induction false} ShiftHalf(val: nat, i: nat)
    ensures ShiftRight(val, i) / 2 == ShiftRight(val, i + 1)
  {
    if i > 0 {
      ShiftHalf(val / 2, i - 1);
    }
  }

  method BuildDataBits(bytes: seq<Byte>) returns (dataBits: seq<Bit>)
    ensures dataBits == DataBits(bytes)
  {
    hide BitsOf;
    dataBits := PushBits([], 4, 4);
    dataBits := PushBits(dataBits, |bytes|, 8);
    ghost var header := dataBits;
    for i := 0 to |bytes|
      invariant dataBits == header + Unpack(bytes[..i])
    {
      UnpackSnoc(bytes, i);
      dataBits := PushBits(dataBits, bytes[i], 8);
    }
    assert bytes[..|bytes|] == bytes;
    assert dataBits == Message(bytes);
    ghost var n := |dataBits|;
    while |dataBits| < (if DATA_BIT_TARGET <= |dataBits| + 4 then DATA_BIT_TARGET else |dataBits| + 4)
      invariant n <= |dataBits| && dataBits == Message(bytes) + Zeros(|dataBits| - n)
      invariant n < DATA_BIT_TARGET ==> |dataBits| <= DATA_BIT_TARGET
      invariant n >= DATA_BIT_TARGET ==> |dataBits| == n
      decreases DATA_BIT_TARGET - |dataBits|
    {
      dataBits := dataBits + [0];
    }
    while |dataBits| % 8 != 0
      invariant n <= |dataBits| && dataBits == Message(bytes) + Zeros(|dataBits| - n)
      invariant n <= DATA_BIT_TARGET ==> |dataBits| == DATA_BIT_TARGET
      invariant n > DATA_BIT_TARGET ==> |dataBits| <= n + 4
      decreases n + 4 - |dataBits|
    {
      dataBits := dataBits + [0];
    }
    // Nothing is left for the loop over the pad bytes 0xec and 0x11 to fill.
    assert |dataBits| >= DATA_BIT_TARGET;
  }

  lemma UnpackSnoc(bytes: seq<Byte>, i: nat)
    requires i < |bytes|
    ensures Unpack(bytes[..i + 1]) == Unpack(bytes[..i]) + BitsOf(bytes[i], 8)
  {
    hide BitsOf;
    assert bytes[..i + 1] == bytes[..i] + [bytes[i]];
    UnpackConcat(bytes[..i], [bytes[i]]);
  }

  method PackBits(dataBits: seq<Bit>) returns (codewords: seq<Byte>)
    requires |dataBits| % 8 == 0
    ensures codewords == Pack(dataBits)
  {
    hide Value, Pack, ByteValue;
    codewords := [];
    var i := 0;
    while i < |dataBits|
      invariant i <= |dataBits| && i % 8 == 0
      invariant codewords + Pack(dataBits[i..]) == Pack(dataBits)
    {
      var byte := PackByte(dataBits[i..i + 8]);
      PackStep(dataBits[i..]);
      assert dataBits[i..][..8] == dataBits[i..i + 8] && dataBits[i..][8..] == dataBits[i + 8..];
      codewords := codewords + [byte];
      i := i + 8;
    }
    PackNothing(dataBits[i..]);
  }

  lemma PackNothing(bits: seq<Bit>)
    requires bits == []
    ensures Pack(bits) == []
  {
  }

  method PackByte(bits: seq<Bit>) returns (byte: Byte)
    requires |bits| == 8
    ensures byte == ByteValue(bits)
  {
    var b: nat := 0;
    for j := 0 to 8
      invariant b == Value(bits[..j])
    {
      assert bits[..j + 1][..j] == bits[..j];
      b := 2 * b + bits[j];
    }
    assert bits[..8] == bits;
    ValueBound(bits);
    assert Pow2(8) == 256;
    byte := b;
  }

  lemma PackStep(bits: seq<Bit>)
    requires |bits| % 8 == 0 && bits != []
    ensures Pack(bits) == [ByteValue(bits[..8])] + Pack(bits[8..])
  {
  }

  /** Lines 552-557. */
  method UnpackBits(codewords: seq<Byte>) returns (allBits: seq<Bit>)
    ensures allBits == Unpack(codewords) + Zeros(7)
  {
    hide BitsOf;
    allBits := [];
    for i := 0 to |codewords|
      invariant allBits == Unpack(codewords[..i])
    {
      UnpackSnoc(codewords, i);
      allBits := PushBits(allBits, codewords[i], 8);
    }
    assert codewords[..|codewords|] == codewords;
    for i := 0 to 7
      invariant allBits == Unpack(codewords) + Zeros(i)
    {
      allBits := allBits + [0];
    }
  }
}
