/**
 * CRC-16/CCITT-FALSE as polynomial arithmetic: the checksum is the remainder of long division,
 * a bit-serial register computes it, and no burst of at most sixteen bits goes unnoticed.
 * Polynomials over GF(2) are bit strings, highest power first.
 */
module Crc {

  type Bits = seq<bool>

  function Zeros(n: nat): (z: Bits)
    ensures |z| == n
  {
    seq(n, _ => false)
  }

  /** x^16 + x^12 + x^5 + 1 without its leading term, 0x1021. */
  const GENERATOR: Bits :=
    [false, false, false, true, false, false, false, false,
     false, false, true, false, false, false, false, true]

  /** The initial value, 0xFFFF. */
  function AllOnes(): (z: Bits)
    ensures |z| == 16
  {
    seq(16, _ => true)
  }

  function Xor(a: Bits, b: Bits): (c: Bits)
    requires |a| == |b|
    ensures |c| == |a|
  {
    seq(|a|, i requires 0 <= i < |a| => a[i] != b[i])
  }

  // ------------------------------------------- the definition: polynomial division

  /** Add (over GF(2)) a polynomial to the leading terms of another. */
  function AddLeading(bits: Bits, p: Bits): Bits
    requires |p| <= |bits|
  {
    Xor(bits[..|p|], p) + bits[|p|..]
  }

  /** Remainder of long division by the generator. */
  function Remainder(bits: Bits): Bits
    requires 16 <= |bits|
    decreases |bits|
  {
    if |bits| == 16 then bits
    else Remainder(if bits[0] then AddLeading(bits[1..], GENERATOR) else bits[1..])
  }

  /** The checksum: sixteen zero bits appended, the first sixteen complemented, then the remainder. */
  function Checksum(message: Bits): Bits {
    Remainder(AddLeading(message + Zeros(16), AllOnes()))
  }

  // --------------------------------------------------------- the bit-serial register

  /** Multiplication by x modulo the generator. */
  function MulX(s: Bits): (t: Bits)
    requires |s| == 16
    ensures |t| == 16
  {
    if s[0] then Xor(s[1..] + [false], GENERATOR) else s[1..] + [false]
  }

  function FeedBit(s: Bits, b: bool): (t: Bits)
    requires |s| == 16
    ensures |t| == 16
  {
    MulX(s[0 := s[0] != b])
  }

  function Shift(s: Bits, message: Bits): (t: Bits)
    requires |s| == 16
    ensures |t| == 16
    decreases |message|
  {
    if message == [] then s else Shift(FeedBit(s, message[0]), message[1..])
  }

  /** One bit of division is one step of the register. */
  lemma DivideOneBit(s: Bits, message: Bits)
    requires |s| == 16 && message != []
    ensures Remainder(AddLeading(message + Zeros(16), s))
         == Remainder(AddLeading(message[1..] + Zeros(16), FeedBit(s, message[0])))
  {
    var rest := message[1..] + Zeros(16);
    var x := AddLeading(message + Zeros(16), s);
    assert x[1..] == AddLeading(rest, s[1..] + [false]);
    if x[0] {
      assert AddLeading(x[1..], GENERATOR) == AddLeading(rest, FeedBit(s, message[0]));
    }
  }

  /** The register divides as it goes. */
  lemma {:induction false} ShiftDivides(s: Bits, message: Bits)
    requires |s| == 16
    ensures Remainder(AddLeading(message + Zeros(16), s)) == Shift(s, message)
    decreases |message|
  {
    if message == [] {
      assert AddLeading([] + Zeros(16), s) == s;
    } else {
      DivideOneBit(s, message);
      ShiftDivides(FeedBit(s, message[0]), message[1..]);
    }
  }

  // ------------------------------------------------------------ linear and injective

  function MulXn(s: Bits, n: nat): (t: Bits)
    requires |s| == 16
    ensures |t| == 16
    decreases n
  {
    if n == 0 then s else MulXn(MulX(s), n - 1)
  }

  lemma MulXLinear(a: Bits, b: Bits)
    requires |a| == 16 && |b| == 16
    ensures MulX(Xor(a, b)) == Xor(MulX(a), MulX(b))
  {
  }

  lemma {:induction false} MulXnLinear(a: Bits, b: Bits, n: nat)
    requires |a| == 16 && |b| == 16
    ensures MulXn(Xor(a, b), n) == Xor(MulXn(a, n), MulXn(b, n))
    decreases n
  {
    if n > 0 {
      MulXLinear(a, b);
      MulXnLinear(MulX(a), MulX(b), n - 1);
    }
  }

  /** The generator has a constant term, so multiplying by x loses nothing. */
  lemma MulXInjective(a: Bits, b: Bits)
    requires |a| == 16 && |b| == 16 && MulX(a) == MulX(b)
    ensures a == b
  {
    assert MulX(a)[15] == a[0] && MulX(b)[15] == b[0];
    forall i | 1 <= i < 16
      ensures a[i] == b[i]
    {
      assert MulX(a)[i - 1] == (a[i] != (a[0] && GENERATOR[i - 1]));
      assert MulX(b)[i - 1] == (b[i] != (b[0] && GENERATOR[i - 1]));
    }
  }

  lemma {:induction false} MulXnInjective(a: Bits, b: Bits, n: nat)
    requires |a| == 16 && |b| == 16 && MulXn(a, n) == MulXn(b, n)
    ensures a == b
    decreases n
  {
    if n > 0 {
      MulXnInjective(MulX(a), MulX(b), n - 1);
      MulXInjective(a, b);
    }
  }

  lemma {:induction false} ShiftInjective(a: Bits, b: Bits, message: Bits)
    requires |a| == 16 && |b| == 16 && Shift(a, message) == Shift(b, message)
    ensures a == b
    decreases |message|
  {
    if message != [] {
      var c := message[0];
      ShiftInjective(FeedBit(a, c), FeedBit(b, c), message[1..]);
      var a', b' := a[0 := a[0] != c], b[0 := b[0] != c];
      MulXInjective(a', b');
      assert a == a'[0 := a'[0] != c] && b == b'[0 := b'[0] != c];
    }
  }

  lemma {:induction false} ShiftAppend(s: Bits, a: Bits, b: Bits)
    requires |s| == 16
    ensures Shift(s, a + b) == Shift(Shift(s, a), b)
    decreases |a|
  {
    if a == [] {
      assert a + b == b;
    } else {
      assert (a + b)[1..] == a[1..] + b;
      ShiftAppend(FeedBit(s, a[0]), a[1..], b);
    }
  }

  // ------------------------------------------------------------------- short bursts

  /** At most sixteen bits as the high end of a register. */
  function Align(w: Bits): (s: Bits)
    requires |w| <= 16
    ensures |s| == 16
  {
    w + Zeros(16 - |w|)
  }

  /** Adding a window and multiplying by x is feeding its first bit and adding the rest. */
  lemma WindowStep(s: Bits, w: Bits)
    requires |s| == 16 && 1 <= |w| <= 16
    ensures MulX(Xor(s, Align(w))) == Xor(FeedBit(s, w[0]), Align(w[1..]))
  {
    var s' := s[0 := s[0] != w[0]];
    var tail := [false] + w[1..] + Zeros(16 - |w|);
    assert Xor(s, Align(w)) == Xor(s', tail);
    MulXLinear(s', tail);
    assert MulX(tail) == Align(w[1..]);
  }

  /** Feeding a short window is adding it at the high end and multiplying by x once per bit. */
  lemma {:induction false} ShiftWindow(s: Bits, w: Bits)
    requires |s| == 16 && |w| <= 16
    ensures Shift(s, w) == MulXn(Xor(s, Align(w)), |w|)
    decreases |w|
  {
    if w == [] {
      assert Xor(s, Align(w)) == s;
    } else {
      WindowStep(s, w);
      ShiftWindow(FeedBit(s, w[0]), w[1..]);
    }
  }

  lemma AlignInjective(s: Bits, v: Bits, w: Bits)
    requires |s| == 16 && |v| == |w| <= 16 && Xor(s, Align(v)) == Xor(s, Align(w))
    ensures v == w
  {
    forall i | 0 <= i < |v|
      ensures v[i] == w[i]
    {
      assert Xor(s, Align(v))[i] == (s[i] != v[i]);
      assert Xor(s, Align(w))[i] == (s[i] != w[i]);
    }
  }

  lemma WindowChangesRegister(s: Bits, v: Bits, w: Bits)
    requires |s| == 16 && |v| == |w| <= 16 && Shift(s, v) == Shift(s, w)
    ensures v == w
  {
    ShiftWindow(s, v);
    ShiftWindow(s, w);
    MulXnInjective(Xor(s, Align(v)), Xor(s, Align(w)), |v|);
    AlignInjective(s, v, w);
  }

  /**
   * Two messages of equal length that agree outside a window of at most sixteen bits have the same
   * checksum only if they are the same message.
   */
  lemma BurstIsNoticed(before: Bits, v: Bits, w: Bits, after: Bits)
    requires |v| == |w| <= 16
    ensures Checksum(before + v + after) == Checksum(before + w + after) <==> v == w
  {
    if Checksum(before + v + after) == Checksum(before + w + after) {
      ShiftDivides(AllOnes(), before + v + after);
      ShiftDivides(AllOnes(), before + w + after);
      var t := Shift(AllOnes(), before);
      ShiftAppend(AllOnes(), before, v);
      ShiftAppend(AllOnes(), before, w);
      ShiftAppend(AllOnes(), before + v, after);
      ShiftAppend(AllOnes(), before + w, after);
      ShiftInjective(Shift(t, v), Shift(t, w), after);
      WindowChangesRegister(t, v, w);
    }
  }
}
