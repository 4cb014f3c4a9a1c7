/** Bytes, their bits, and big-endian unsigned integers. */
module Bytes {
  import opened Common
  import opened Crc

  type Byte = b: int | 0 <= b < 256

  function Pow2(n: nat): nat {
    if n == 0 then 1 else 2 * Pow2(n - 1)
  }

  /** The number a bit string spells, highest bit first. */
  function Value(bits: Bits): nat
    decreases |bits|
  {
    if bits == [] then 0 else 2 * Value(bits[..|bits| - 1]) + (if bits[|bits| - 1] then 1 else 0)
  }

  function ToBits(n: nat, width: nat): (bits: Bits)
    ensures |bits| == width
    decreases width
  {
    if width == 0 then [] else ToBits(n / 2, width - 1) + [n % 2 == 1]
  }

  lemma Powers()
    ensures Pow2(8) == 256 && Pow2(16) == 0x10000
  {
    assert Pow2(12) == 4096;
  }

  lemma {:induction false} ValueOfBits(n: nat, width: nat)
    requires n < Pow2(width)
    ensures Value(ToBits(n, width)) == n
    decreases width
  {
    if width > 0 {
      ValueOfBits(n / 2, width - 1);
      var bits := ToBits(n, width);
      assert bits[..|bits| - 1] == ToBits(n / 2, width - 1);
    }
  }

  lemma {:induction false} BitsOfValue(bits: Bits)
    ensures Value(bits) < Pow2(|bits|)
    ensures ToBits(Value(bits), |bits|) == bits
    decreases |bits|
  {
    if bits != [] {
      BitsOfValue(bits[..|bits| - 1]);
      assert bits == bits[..|bits| - 1] + [bits[|bits| - 1]];
    }
  }

  function ByteBits(b: Byte): (bits: Bits)
    ensures |bits| == 8
  {
    ToBits(b, 8)
  }

  lemma ByteValue(b: Byte)
    ensures Value(ByteBits(b)) == b
  {
    Powers();
    ValueOfBits(b, 8);
  }

  lemma ByteOfBits(bits: Bits)
    requires |bits| == 8
    ensures Value(bits) < 256 && ByteBits(Value(bits)) == bits
  {
    Powers();
    BitsOfValue(bits);
  }

  function BytesBits(data: seq<Byte>): Bits {
    if data == [] then [] else ByteBits(data[0]) + BytesBits(data[1..])
  }

  lemma {:induction false} BytesBitsAppend(a: seq<Byte>, b: seq<Byte>)
    ensures BytesBits(a + b) == BytesBits(a) + BytesBits(b)
  {
    if a == [] {
      assert a + b == b;
    } else {
      assert (a + b)[1..] == a[1..] + b;
      BytesBitsAppend(a[1..], b);
    }
  }

  lemma BytesBitsOne(b: Byte)
    ensures BytesBits([b]) == ByteBits(b)
  {
    assert [b][1..] == [];
  }

  // ------------------------------------------------------ big-endian integers

  const TWO32: nat := 0x1_0000_0000

  /** `>>> 0`: an integer modulo 2^32. */
  function ToUint32(n: int): nat {
    n % TWO32
  }

  function U16(n: nat): (bytes: seq<Byte>)
    requires n < 0x10000
    ensures |bytes| == 2
  {
    [n / 256, n % 256]
  }

  function ReadU16(bytes: seq<Byte>): (n: nat)
    requires |bytes| == 2
    ensures n < 0x10000
  {
    bytes[0] as int * 256 + bytes[1] as int
  }

  function U32(n: nat): (bytes: seq<Byte>)
    requires n < TWO32
    ensures |bytes| == 4
  {
    U16(n / 0x10000) + U16(n % 0x10000)
  }

  function ReadU32(bytes: seq<Byte>): (n: nat)
    requires |bytes| == 4
    ensures n < TWO32
  {
    ReadU16(bytes[..2]) * 0x10000 + ReadU16(bytes[2..])
  }

  lemma ReadU32OfU32(n: nat)
    requires n < TWO32
    ensures ReadU32(U32(n)) == n
  {
    assert U32(n)[..2] == U16(n / 0x10000) && U32(n)[2..] == U16(n % 0x10000);
  }

  lemma U32OfReadU32(bytes: seq<Byte>)
    requires |bytes| == 4
    ensures U32(ReadU32(bytes)) == bytes
  {
    var high, low := ReadU16(bytes[..2]), ReadU16(bytes[2..]);
    assert ReadU32(bytes) / 0x10000 == high && ReadU32(bytes) % 0x10000 == low;
    assert U16(high) == bytes[..2] && U16(low) == bytes[2..];
  }

  const TWO64: nat := 0x1_0000_0000_0000_0000

  function U64(n: nat): (bytes: seq<Byte>)
    requires n < TWO64
    ensures |bytes| == 8
  {
    U32(n / TWO32) + U32(n % TWO32)
  }

  lemma U64Injective(m: nat, n: nat)
    requires m < TWO64 && n < TWO64 && U64(m) == U64(n)
    ensures m == n
  {
    assert U64(m)[..4] == U32(m / TWO32) && U64(n)[..4] == U32(n / TWO32);
    assert U64(m)[4..] == U32(m % TWO32) && U64(n)[4..] == U32(n % TWO32);
    ReadU32OfU32(m / TWO32);
    ReadU32OfU32(n / TWO32);
    ReadU32OfU32(m % TWO32);
    ReadU32OfU32(n % TWO32);
  }
}
