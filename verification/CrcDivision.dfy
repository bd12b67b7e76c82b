/** Facts about single bits of a register. */
module RegisterBits {
  import opened Crc

  function Mask(i: nat): bv16 {
    if i == 0 then 0x8000
    else if i == 1 then 0x4000
    else if i == 2 then 0x2000
    else if i == 3 then 0x1000
    else if i == 4 then 0x0800
    else if i == 5 then 0x0400
    else if i == 6 then 0x0200
    else if i == 7 then 0x0100
    else if i == 8 then 0x0080
    else if i == 9 then 0x0040
    else if i == 10 then 0x0020
    else if i == 11 then 0x0010
    else if i == 12 then 0x0008
    else if i == 13 then 0x0004
    else if i == 14 then 0x0002
    else 0x0001
  }

  function ByteMask(i: nat): byte {
    if i == 0 then 0x80
    else if i == 1 then 0x40
    else if i == 2 then 0x20
    else if i == 3 then 0x10
    else if i == 4 then 0x08
    else if i == 5 then 0x04
    else if i == 6 then 0x02
    else 0x01
  }

  function Doubled(w: bv16): bv16 {
    w << 1
  }

  /** Bit `i` of a register, and of a byte, the highest first. */
  predicate Bit(w: bv16, i: nat) {
    i < 16 && w & Mask(i) != 0
  }

  predicate ByteBit(b: byte, i: nat) {
    i < 8 && b & ByteMask(i) != 0
  }

  lemma MaskIsOne(i: nat)
    requires i < 16
    ensures Mask(i) != 0 && Mask(i) & (Mask(i) - 1) == 0
  {}

  lemma NextMask(i: nat)
    requires i < 15
    ensures Mask(i) == Doubled(Mask(i + 1)) && Mask(i + 1) & 0x8000 == 0
  {}

  lemma UpperMask(i: nat)
    requires i < 8
    ensures Mask(i) == Upper(ByteMask(i))
  {}

  lemma LowMask(i: nat)
    requires 8 <= i < 16
    ensures Mask(i) & 0xff00 == 0
  {}

  lemma XorBit(w: bv16, u: bv16, m: bv16)
    requires m != 0 && m & (m - 1) == 0
    ensures ((w ^ u) & m != 0) == ((w & m != 0) != (u & m != 0))
  {}

  lemma ShiftBit(w: bv16, m: bv16)
    requires m & 0x8000 == 0
    ensures ((w << 1) & (m << 1) != 0) == (w & m != 0)
  {}

  lemma NoLastBit(w: bv16)
    ensures (w << 1) & 1 == 0
  {}

  lemma UpperBit(u: bv16, b: byte, m: bv16, n: byte)
    requires u == (b as bv16) << 8 && m == (n as bv16) << 8
    ensures (u & m != 0) == (b & n != 0)
  {}

  lemma NoLowBit(u: bv16, b: byte, m: bv16)
    requires u == (b as bv16) << 8 && m & 0xff00 == 0
    ensures u & m == 0
  {}

  lemma UpperHas(b: byte, m: bv16, n: byte)
    requires m == Upper(n)
    ensures (Upper(b) & m != 0) == (b & n != 0)
  {
    UpperBit(Upper(b), b, m, n);
  }

  lemma UpperHasNot(b: byte, m: bv16)
    requires m & 0xff00 == 0
    ensures Upper(b) & m == 0
  {
    NoLowBit(Upper(b), b, m);
  }

  lemma UpperFirst(b: byte, i: nat)
    requires i < 8
    ensures Bit(Upper(b), i) == ByteBit(b, i)
  {
    hide Mask;
    hide ByteMask;
    hide Upper;
    hide Bit;
    hide ByteBit;
    var m, n := Mask(i), ByteMask(i);
    UpperMask(i);
    UpperHas(b, m, n);
    BitIs(Upper(b), i, m);
    ByteBitIs(b, i, n);
  }

  lemma BitIs(w: bv16, i: nat, m: bv16)
    requires i < 16 && m == Mask(i)
    ensures Bit(w, i) == (w & m != 0)
  {}

  lemma ByteBitIs(b: byte, i: nat, n: byte)
    requires i < 8 && n == ByteMask(i)
    ensures ByteBit(b, i) == (b & n != 0)
  {}

  lemma UpperLast(b: byte, i: nat)
    requires 8 <= i < 16
    ensures !Bit(Upper(b), i)
  {
    hide Mask;
    hide Upper;
    LowMask(i);
    UpperHasNot(b, Mask(i));
  }

  lemma UpperIs(b: byte, i: nat)
    requires i < 16
    ensures Bit(Upper(b), i) == ByteBit(b, i)
  {
    hide Bit;
    if i < 8 {
      UpperFirst(b, i);
    } else {
      UpperLast(b, i);
    }
  }
}

/** Which checksum it is: the remainder of polynomial division over GF(2). A polynomial is
    the sequence of its coefficients, highest first. */
module CrcDivision {
  import opened Crc
  import opened RegisterBits

  /** x^16 + x^12 + x^5 + 1. */
  const GENERATOR: seq<bool> :=
    [true, false, false, false, true, false, false, false, false, false, false, true, false, false, false, false, true]

  /** The coefficients added, over GF(2), where `q` lies under the front of `p`. */
  function Plus(p: seq<bool>, q: seq<bool>): (r: seq<bool>)
    requires |q| <= |p|
    ensures |r| == |p|
  {
    seq(|p|, i requires 0 <= i < |p| => if i < |q| then p[i] != q[i] else p[i])
  }

  /** The remainder by the generator: long division, one coefficient at a time. */
  function Remainder(p: seq<bool>): (r: seq<bool>)
    ensures |r| <= 16 && (|p| >= 16 ==> |r| == 16)
    decreases |p|
  {
    if |p| <= 16 then p
    else if p[0] then Remainder(Plus(p, GENERATOR)[1..])
    else Remainder(p[1..])
  }

  function Zeros(n: nat): (z: seq<bool>)
    ensures |z| == n
  {
    seq(n, _ => false)
  }

  function ByteBits(b: byte): (r: seq<bool>)
    ensures |r| == 8
  {
    seq(8, i requires 0 <= i < 8 => ByteBit(b, i))
  }

  /** The bits of a message as they go on the line, highest first. */
  function Bits(m: seq<byte>): (r: seq<bool>)
    ensures |r| == 8 * |m|
  {
    if m == [] then [] else ByteBits(m[0]) + Bits(m[1..])
  }

  function WordBits(w: bv16): (r: seq<bool>)
    ensures |r| == 16
  {
    seq(16, i requires 0 <= i < 16 => Bit(w, i))
  }

  // ---- the register is what long division has left of the front ----

  lemma TopBit(w: bv16)
    ensures Top(w) == WordBits(w)[0]
  {}

  lemma DoubledBit(w: bv16, m: bv16, n: bv16)
    requires n == Doubled(m) && m & 0x8000 == 0
    ensures (Doubled(w) & n != 0) == (w & m != 0)
  {
    ShiftBit(w, m);
  }

  lemma LastBit(w: bv16)
    ensures !Bit(Doubled(w), 15) && !Bit(w, 16)
  {
    NoLastBit(w);
  }

  lemma MovedBit(w: bv16, i: nat)
    requires i < 16
    ensures Bit(Doubled(w), i) == Bit(w, i + 1)
  {
    hide Mask;
    if i < 15 {
      hide Doubled;
      NextMask(i);
      DoubledBit(w, Mask(i + 1), Mask(i));
    } else {
      LastBit(w);
    }
  }

  lemma PlainBit(w: bv16, i: nat)
    requires i < 16 && !Top(w)
    ensures Bit(Shift(w), i) == Bit(w, i + 1)
  {
    assert Shift(w) == Doubled(w);
    MovedBit(w, i);
  }

  /** A shift that loses no bit. */
  lemma ShiftPlain(w: bv16)
    requires !Top(w)
    ensures WordBits(Shift(w)) == WordBits(w)[1..] + [false]
  {
    assert !Bit(w, 16);
    hide Bit;
    hide Shift;
    forall i | 0 <= i < 16
      ensures WordBits(Shift(w))[i] == (WordBits(w)[1..] + [false])[i]
    {
      PlainBit(w, i);
    }
  }

  lemma PolyIsGenerator(i: nat)
    requires i < 16
    ensures Bit(POLY, i) == GENERATOR[i + 1]
  {}

  lemma XoredBit(s: bv16, u: bv16, x: bv16, i: nat)
    requires i < 16 && x == s ^ u
    ensures Bit(x, i) == (Bit(s, i) != Bit(u, i))
  {
    hide Mask;
    MaskIsOne(i);
    XorBit(s, u, Mask(i));
  }

  lemma OverSplit(w: bv16, i: nat)
    requires i < 16 && Top(w)
    ensures Bit(Shift(w), i) == (Bit(Doubled(w), i) != Bit(POLY, i))
  {
    XoredBit(Doubled(w), POLY, Shift(w), i);
  }

  lemma OverBit(w: bv16, i: nat)
    requires i < 16 && Top(w)
    ensures Bit(Shift(w), i) == (Bit(w, i + 1) != GENERATOR[i + 1])
  {
    hide Bit;
    hide Shift;
    hide Doubled;
    hide Top;
    OverSplit(w, i);
    MovedBit(w, i);
    PolyIsGenerator(i);
  }

  /** A shift that loses one takes the generator away. */
  lemma ShiftOver(w: bv16)
    requires Top(w)
    ensures WordBits(Shift(w)) == Plus(WordBits(w) + [false], GENERATOR)[1..]
  {
    assert !Bit(w, 16);
    hide Bit;
    hide Shift;
    var v := WordBits(w) + [false];
    forall i | 0 <= i < 16
      ensures WordBits(Shift(w))[i] == Plus(v, GENERATOR)[1..][i]
    {
      OverBit(w, i);
      assert Plus(v, GENERATOR)[1..][i] == (v[i + 1] != GENERATOR[i + 1]);
    }
  }

  /** One round of the bit loop is one step of long division, while the message bit
      under it has been taken in. */
  lemma RoundDivides(w: bv16, t: seq<bool>)
    requires |t| > 16 && !t[0]
    ensures Remainder(Plus(t, WordBits(w))) == Remainder(Plus(t[1..], WordBits(Shift(w))))
  {
    hide WordBits;
    var p := Plus(t, WordBits(w));
    TopBit(w);
    if Top(w) {
      ShiftOver(w);
      forall i | 0 <= i < |t| - 1
        ensures Plus(p, GENERATOR)[1..][i] == Plus(t[1..], WordBits(Shift(w)))[i]
      {
        RoundBit(w, t, i);
      }
      assert Plus(p, GENERATOR)[1..] == Plus(t[1..], WordBits(Shift(w)));
    } else {
      ShiftPlain(w);
      assert p[1..] == Plus(t[1..], WordBits(Shift(w)));
    }
  }

  lemma RoundBit(w: bv16, t: seq<bool>, i: nat)
    requires |t| > 16 && i < |t| - 1 && Top(w)
    ensures Plus(Plus(t, WordBits(w)), GENERATOR)[1..][i] == Plus(t[1..], WordBits(Shift(w)))[i]
  {
    hide WordBits;
    ShiftOver(w);
    var v := WordBits(w) + [false];
    if i < 16 {
      assert WordBits(Shift(w))[i] == Plus(v, GENERATOR)[i + 1];
    }
  }

  lemma {:induction false} RoundsDivide(w: bv16, n: nat, t: seq<bool>)
    requires |t| >= 16 + n && forall i :: 0 <= i < n ==> !t[i]
    ensures Remainder(Plus(t, WordBits(w))) == Remainder(Plus(t[n..], WordBits(Shifts(w, n))))
    decreases n
  {
    hide WordBits;
    hide Shift;
    hide Remainder;
    if n == 0 {
      assert t[0..] == t;
    } else {
      RoundsDivide(w, n - 1, t);
      RoundDivides(Shifts(w, n - 1), t[n - 1..]);
      assert t[n - 1..][1..] == t[n..];
    }
  }

  /** The register when a message byte has come in. */
  function TakeIn(w: bv16, b: byte): bv16 {
    w ^ Upper(b)
  }

  lemma TakeSplit(w: bv16, b: byte, i: nat)
    requires i < 16
    ensures Bit(TakeIn(w, b), i) == (Bit(w, i) != Bit(Upper(b), i))
  {
    hide Upper;
    XoredBit(w, Upper(b), TakeIn(w, b), i);
  }

  lemma TakenBit(w: bv16, b: byte, i: nat)
    requires i < 16
    ensures Bit(TakeIn(w, b), i) == (Bit(w, i) != ByteBit(b, i))
  {
    hide Bit;
    hide ByteBit;
    hide TakeIn;
    hide Upper;
    TakeSplit(w, b, i);
    UpperIs(b, i);
  }

  lemma NoNinthBit(b: byte, i: nat)
    ensures i >= 8 ==> !ByteBit(b, i)
  {}

  /** A message byte comes in at the front. */
  lemma TakenIn(w: bv16, b: byte)
    ensures WordBits(TakeIn(w, b)) == Plus(WordBits(w), ByteBits(b))
  {
    hide Bit;
    hide ByteBit;
    hide TakeIn;
    forall i | 0 <= i < 16
      ensures WordBits(TakeIn(w, b))[i] == Plus(WordBits(w), ByteBits(b))[i]
    {
      TakenBit(w, b, i);
      NoNinthBit(b, i);
    }
  }

  /** One message byte is eight steps of long division. */
  lemma ByteDivides(w: bv16, b: byte, t: seq<bool>)
    requires |t| >= 16
    ensures Remainder(Plus(ByteBits(b) + t, WordBits(w))) == Remainder(Plus(t, WordBits(Update(w, b))))
  {
    hide WordBits;
    hide ByteBits;
    hide Remainder;
    hide Shifts;
    var cleared := Zeros(8) + t;
    TakenIn(w, b);
    assert Plus(ByteBits(b) + t, WordBits(w)) == Plus(cleared, WordBits(TakeIn(w, b)));
    RoundsDivide(TakeIn(w, b), 8, cleared);
    assert cleared[8..] == t;
  }

  lemma {:induction false} MessageDivides(w: bv16, m: seq<byte>)
    ensures Remainder(Plus(Bits(m) + Zeros(16), WordBits(w))) == WordBits(Extend(w, m))
    decreases |m|
  {
    hide WordBits;
    hide ByteBits;
    hide Update;
    if m == [] {
      assert Plus([] + Zeros(16), WordBits(w)) == WordBits(w);
    } else {
      hide Remainder;
      assert Bits(m) + Zeros(16) == ByteBits(m[0]) + (Bits(m[1..]) + Zeros(16));
      ByteDivides(w, m[0], Bits(m[1..]) + Zeros(16));
      MessageDivides(Update(w, m[0]), m[1..]);
      assert [m[0]] + m[1..] == m;
      ExtendConcat(w, [m[0]], m[1..]);
      assert [m[0]][..0] == [];
      assert Extend(w, [m[0]]) == Update(w, m[0]);
    }
  }

  lemma NoBits()
    ensures WordBits(0) == Zeros(16)
  {}

  /** The checksum of a message is the remainder of the message times x^16 by
      x^16 + x^12 + x^5 + 1. */
  lemma {:induction false} ChecksumIsRemainder(m: seq<byte>)
    ensures WordBits(Crc16(m)) == Remainder(Bits(m) + Zeros(16))
  {
    hide WordBits;
    hide Remainder;
    hide Extend;
    MessageDivides(0, m);
    NoBits();
    var p := Bits(m) + Zeros(16);
    assert Plus(p, Zeros(16)) == p;
  }
}
