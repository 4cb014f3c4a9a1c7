/**
 * The checksum as the program computes it: a 256-entry table built once, then one lookup per
 * byte. Integers are 32-bit words written as bit strings, highest bit first.
 */
module CrcTable {
  import opened Crc
  import opened Bytes

  function ShiftLeft(w: Bits, n: nat): Bits
    requires n <= |w|
  {
    w[n..] + Zeros(n)
  }

  function ShiftRight(w: Bits, n: nat): Bits
    requires n <= |w|
  {
    Zeros(n) + w[..|w| - n]
  }

  // ------------------------------------------------------------------- the table

  /** One step of the table's inner loop; nothing is masked until the loop ends. */
  function WideStep(crc: Bits): (next: Bits)
    requires |crc| == 32
    ensures |next| == 32
  {
    if crc[16] then Xor(ShiftLeft(crc, 1), Zeros(16) + GENERATOR) else ShiftLeft(crc, 1)
  }

  /** Its low half is one multiplication by x. */
  lemma WideStepIsMulX(crc: Bits)
    requires |crc| == 32
    ensures WideStep(crc)[16..] == MulX(crc[16..])
  {
  }

  lemma {:induction false} MulXnSnoc(s: Bits, n: nat)
    requires |s| == 16
    ensures MulXn(s, n + 1) == MulX(MulXn(s, n))
    decreases n
  {
    if n > 0 {
      MulXnSnoc(MulX(s), n - 1);
    }
  }

  /** Entry `i` of the table: `i` in the high byte, times x^8. */
  function Entry(i: Byte): (w: Bits)
    ensures |w| == 16
  {
    MulXn(ByteBits(i) + Zeros(8), |ByteBits(i)|)
  }

  ghost predicate IsEntry(w: Bits, i: Byte) {
    w == Entry(i)
  }

  ghost predicate IsTable(table: seq<Bits>) {
    |table| == 256 && forall i :: 0 <= i < 256 ==> IsEntry(table[i], i)
  }

  method ComputeEntry(i: Byte) returns (entry: Bits)
    ensures IsEntry(entry, i)
  {
    var crc := ShiftLeft(Zeros(24) + ByteBits(i), 8);
    ghost var start := crc[16..];
    assert start == ByteBits(i) + Zeros(8);
    for j := 0 to |ByteBits(i)|
      invariant |crc| == 32 && crc[16..] == MulXn(start, j)
    {
      WideStepIsMulX(crc);
      MulXnSnoc(start, j);
      crc := WideStep(crc);
    }
    entry := crc[16..];
  }

  method BuildTable() returns (table: array<Bits>)
    ensures IsTable(table[..])
  {
    hide IsEntry;
    table := new Bits[256];
    for i := 0 to 256
      invariant forall k :: 0 <= k < i ==> IsEntry(table[k], k)
    {
      var entry := ComputeEntry(i);
      table[i] := entry;
    }
  }

  // ---------------------------------------------------------------- the checksum

  /** The sixteen bits of `crc16(data)`. */
  function CrcBits(data: seq<Byte>): (w: Bits)
    ensures |w| == 16
  {
    Shift(AllOnes(), BytesBits(data))
  }

  /** The number `crc16(data)` returns. */
  function Crc16Value(data: seq<Byte>): (n: nat)
    ensures n < 0x10000
  {
    BitsOfValue(CrcBits(data));
    Powers();
    Value(CrcBits(data))
  }

  /** Multiplying a register whose top `n` bits are zero by x^n only moves it up. */
  lemma {:induction false} MoveUp(w: Bits, n: nat)
    requires |w| == 16 && n <= 16 && w[..n] == Zeros(n)
    ensures MulXn(w, n) == ShiftLeft(w, n)
    decreases n
  {
    if n > 0 {
      assert !w[..n][0];
      var v := w[1..] + [false];
      assert v[..n - 1] == w[..n][1..];
      MoveUp(v, n - 1);
    }
  }

  /** One lookup does eight register steps. */
  lemma LookupIsEightSteps(s: Bits, b: Bits)
    requires |s| == 16 && |b| == 8
    ensures Shift(s, b) == Xor(ShiftLeft(s, 8), MulXn(Xor(s[..8], b) + Zeros(8), |b|))
  {
    var high, low := Xor(s[..8], b) + Zeros(8), Zeros(8) + s[8..];
    ShiftWindow(s, b);
    assert Xor(s, Align(b)) == Xor(low, high);
    MulXnLinear(low, high, |b|);
    MoveUp(low, |b|);
    assert ShiftLeft(low, 8) == ShiftLeft(s, 8);
  }

  lemma CrcSnoc(data: seq<Byte>, b: Byte)
    ensures CrcBits(data + [b]) == Shift(CrcBits(data), ByteBits(b))
  {
    BytesBitsAppend(data, [b]);
    BytesBitsOne(b);
    ShiftAppend(AllOnes(), BytesBits(data), ByteBits(b));
  }

  function TableIndex(crc: Bits, b: Byte): (index: Bits)
    requires |crc| == 32
    ensures |index| == 8
  {
    Xor(ShiftRight(crc, 8), Zeros(24) + ByteBits(b))[24..]
  }

  function Combine(crc: Bits, entry: Bits): (next: Bits)
    requires |crc| == 32 && |entry| == 16
    ensures |next| == 16
  {
    Xor(ShiftLeft(crc, 8), Zeros(16) + entry)[16..]
  }

  lemma TableIndexBits(s: Bits, b: Byte)
    requires |s| == 16
    ensures TableIndex(Zeros(16) + s, b) == Xor(s[..8], ByteBits(b))
  {
  }

  lemma CombineBits(s: Bits, entry: Bits)
    requires |s| == 16 && |entry| == 16
    ensures Combine(Zeros(16) + s, entry) == Xor(ShiftLeft(s, 8), entry)
  {
  }

  /** The loop body on a 32-bit register whose high half is zero. */
  lemma LookupStepIsShift(s: Bits, b: Byte, i: Byte)
    requires |s| == 16 && i == Value(TableIndex(Zeros(16) + s, b))
    ensures Combine(Zeros(16) + s, Entry(i)) == Shift(s, ByteBits(b))
  {
    TableIndexBits(s, b);
    ByteOfBits(Xor(s[..8], ByteBits(b)));
    CombineBits(s, Entry(i));
    LookupIsEightSteps(s, ByteBits(b));
  }

  method CrcByte(table: array<Bits>, crc: Bits, b: Byte) returns (next: Bits)
    requires IsTable(table[..]) && |crc| == 16
    ensures next == Shift(crc, ByteBits(b))
  {
    var index := TableIndex(Zeros(16) + crc, b);
    ByteOfBits(index);
    var i: Byte := Value(index);
    var entry := table[i];
    assert IsEntry(table[..][i], i);
    LookupStepIsShift(crc, b, i);
    next := Combine(Zeros(16) + crc, entry);
  }

  /** The table-driven loop computes the remainder of polynomial division. */
  method Crc16(table: array<Bits>, data: seq<Byte>) returns (crc: Bits)
    requires IsTable(table[..])
    ensures crc == CrcBits(data)
    ensures crc == Checksum(BytesBits(data))
  {
    crc := AllOnes();
    for i := 0 to |data|
      invariant crc == CrcBits(data[..i])
    {
      CrcSnoc(data[..i], data[i]);
      assert data[..i + 1] == data[..i] + [data[i]];
      crc := CrcByte(table, crc, data[i]);
    }
    assert data[..|data|] == data;
    ShiftDivides(AllOnes(), BytesBits(data));
  }

  // ------------------------------------------------------------ what it notices

  lemma PairBits(p: seq<Byte>)
    requires |p| == 2
    ensures BytesBits(p) == ByteBits(p[0]) + ByteBits(p[1])
  {
    BytesBitsAppend([p[0]], [p[1]]);
    assert p == [p[0]] + [p[1]];
    BytesBitsOne(p[0]);
    BytesBitsOne(p[1]);
  }

  lemma PairInjective(p: seq<Byte>, q: seq<Byte>)
    requires |p| == |q| == 2 && BytesBits(p) == BytesBits(q)
    ensures p == q
  {
    PairBits(p);
    PairBits(q);
    assert ByteBits(p[0]) == BytesBits(p)[..8] == ByteBits(q[0]);
    assert ByteBits(p[1]) == BytesBits(p)[8..] == ByteBits(q[1]);
    ByteValue(p[0]);
    ByteValue(q[0]);
    ByteValue(p[1]);
    ByteValue(q[1]);
  }

  /** Any change confined to two adjacent bytes changes the checksum. */
  lemma AdjacentBytesAreNoticed(before: seq<Byte>, p: seq<Byte>, q: seq<Byte>, after: seq<Byte>)
    requires |p| == |q| == 2
    ensures Crc16Value(before + p + after) == Crc16Value(before + q + after) <==> p == q
  {
    PairBits(p);
    PairBits(q);
    BytesBitsAppend(before, p);
    BytesBitsAppend(before, q);
    BytesBitsAppend(before + p, after);
    BytesBitsAppend(before + q, after);
    BurstIsNoticed(BytesBits(before), BytesBits(p), BytesBits(q), BytesBits(after));
    ShiftDivides(AllOnes(), BytesBits(before + p + after));
    ShiftDivides(AllOnes(), BytesBits(before + q + after));
    BitsOfValue(CrcBits(before + p + after));
    BitsOfValue(CrcBits(before + q + after));
    if BytesBits(p) == BytesBits(q) {
      PairInjective(p, q);
    }
  }
}
