/** CRC-16/XMODEM as the framing code computes it: polynomial 0x1021, initial
    value 0, no reflection.

    The byte loop and the bit loop are methods; the functions beside them say
    what the loops compute, and the lemmas say what a checksum is good for. */
module Crc {

  type byte = bv8

  const POLY: bv16 := 0x1021

  predicate Top(crc: bv16) {
    crc & 0x8000 != 0
  }

  /** One round of the bit loop. */
  function Shift(crc: bv16): bv16 {
    if Top(crc) then (crc << 1) ^ POLY else crc << 1
  }

  /** `n` rounds of the bit loop. */
  function Shifts(crc: bv16, n: nat): bv16 {
    if n == 0 then crc else Shift(Shifts(crc, n - 1))
  }

  function Wide(b: byte): bv16 {
    b as bv16
  }

  /** A message byte where the register takes it in. */
  function Upper(b: byte): bv16 {
    Wide(b) << 8
  }

  /** The register after one more message byte. */
  function Update(crc: bv16, b: byte): bv16 {
    Shifts(crc ^ Upper(b), 8)
  }

  /** The register after the message `s`, from the register `crc`. */
  function Extend(crc: bv16, s: seq<byte>): bv16
    decreases |s|
  {
    if s == [] then crc else Update(Extend(crc, s[..|s| - 1]), s[|s| - 1])
  }

  function Crc16(s: seq<byte>): bv16 {
    Extend(0, s)
  }

  function High(crc: bv16): byte {
    (crc >> 8) as byte
  }

  function Low(crc: bv16): byte {
    (crc & 0xff) as byte
  }

  /** The 16-bit word a header or subpacket carries as two bytes, high first. */
  function Word(hi: byte, lo: byte): bv16 {
    Upper(hi) | Wide(lo)
  }

  method Round(crc0: bv16) returns (crc: bv16)
    ensures crc == Shift(crc0)
  {
    if crc0 & 0x8000 != 0 {
      crc := (crc0 << 1) ^ POLY;
    } else {
      crc := crc0 << 1;
    }
  }

  method UpdateLoop(crc0: bv16, b: byte) returns (crc: bv16)
    ensures crc == Update(crc0, b)
  {
    crc := crc0 ^ Upper(b);
    ghost var start := crc;
    var i := 0;
    while i < 8
      invariant 0 <= i <= 8
      invariant crc == Shifts(start, i)
    {
      crc := Round(crc);
      i := i + 1;
    }
  }

  method XModem(data: seq<byte>) returns (crc: bv16)
    ensures crc == Crc16(data)
  {
    crc := 0;
    for i := 0 to |data|
      invariant crc == Extend(0, data[..i])
    {
      assert data[..i + 1][..i] == data[..i];
      crc := UpdateLoop(crc, data[i]);
    }
    assert data[..|data|] == data;
  }

  // Linearity of the bit loop, one case of the two top bits at a time.

  lemma TopLinear(a: bv16, b: bv16)
    ensures Top(a ^ b) == (Top(a) != Top(b))
  {}

  lemma ShiftLinear(a: bv16, b: bv16)
    ensures Shift(a ^ b) == Shift(a) ^ Shift(b)
  {
    TopLinear(a, b);
    if Top(a) {
      if Top(b) { BothTop(a, b); } else { OneTop(a, b); }
    } else {
      if Top(b) {
        OneTop(b, a);
        XorSymmetric(a, b);
        XorSymmetric(Shift(a), Shift(b));
      } else { NoTop(a, b); }
    }
  }

  lemma XorSymmetric(a: bv16, b: bv16)
    ensures a ^ b == b ^ a
  {}

  lemma NoTop(a: bv16, b: bv16)
    requires !Top(a) && !Top(b)
    ensures Shift(a ^ b) == Shift(a) ^ Shift(b)
  {
    TopLinear(a, b);
    assert (a ^ b) << 1 == (a << 1) ^ (b << 1);
  }

  lemma OneTop(a: bv16, b: bv16)
    requires Top(a) && !Top(b)
    ensures Shift(a ^ b) == Shift(a) ^ Shift(b)
  {
    TopLinear(a, b);
    assert ((a ^ b) << 1) ^ POLY == ((a << 1) ^ POLY) ^ (b << 1);
  }

  lemma BothTop(a: bv16, b: bv16)
    requires Top(a) && Top(b)
    ensures Shift(a ^ b) == Shift(a) ^ Shift(b)
  {
    TopLinear(a, b);
    assert (a ^ b) << 1 == ((a << 1) ^ POLY) ^ ((b << 1) ^ POLY);
  }

  predicate IsSum(sum: bv16, a: bv16, b: bv16) {
    sum == a ^ b
  }

  lemma SumShifts(sum: bv16, a: bv16, b: bv16)
    requires IsSum(sum, a, b)
    ensures IsSum(Shift(sum), Shift(a), Shift(b))
  {
    hide Shift;
    ShiftLinear(a, b);
  }

  lemma {:induction false} SumsShift(sum: bv16, a: bv16, b: bv16, n: nat)
    requires IsSum(sum, a, b)
    ensures IsSum(Shifts(sum, n), Shifts(a, n), Shifts(b, n))
    decreases n
  {
    hide Shift;
    hide IsSum;
    if n > 0 {
      SumsShift(sum, a, b, n - 1);
      SumShifts(Shifts(sum, n - 1), Shifts(a, n - 1), Shifts(b, n - 1));
    }
  }

  lemma {:induction false} ShiftsLinear(a: bv16, b: bv16, n: nat)
    ensures Shifts(a ^ b, n) == Shifts(a, n) ^ Shifts(b, n)
  {
    hide Shift;
    SumsShift(a ^ b, a, b, n);
  }

  // Eight rounds take a message byte in: what they do to a single byte, and
  // that they lose nothing.

  lemma EightRounds(c: bv16)
    ensures Shifts(c, 8) == Shift(Shift(Shift(Shift(Shift(Shift(Shift(Shift(c))))))))
  {
    assert Shifts(c, 1) == Shift(c);
    assert Shifts(c, 2) == Shift(Shifts(c, 1));
    assert Shifts(c, 3) == Shift(Shifts(c, 2));
    assert Shifts(c, 4) == Shift(Shifts(c, 3));
    assert Shifts(c, 5) == Shift(Shifts(c, 4));
    assert Shifts(c, 6) == Shift(Shifts(c, 5));
    assert Shifts(c, 7) == Shift(Shifts(c, 6));
  }

  lemma ShiftZero(c: bv16)
    requires Shift(c) == 0
    ensures c == 0
  {}

  lemma {:induction false} ShiftsZero(c: bv16, n: nat)
    requires Shifts(c, n) == 0
    ensures c == 0
  {
    if n > 0 {
      ShiftZero(Shifts(c, n - 1));
      ShiftsZero(c, n - 1);
    }
  }

  lemma XorZero(a: bv16, b: bv16)
    ensures a ^ b == 0 <==> a == b
  {}

  lemma ShiftsInjective(a: bv16, b: bv16, n: nat)
    requires Shifts(a, n) == Shifts(b, n)
    ensures a == b
  {
    ShiftsLinear(a, b, n);
    XorZero(Shifts(a, n), Shifts(b, n));
    ShiftsZero(a ^ b, n);
    XorZero(a, b);
  }

  lemma LowByte(b: byte)
    ensures Shifts(Wide(b), 8) == Upper(b)
  {
    EightRounds(Wide(b));
  }

  lemma HighByte(x: byte)
    requires Shifts(Upper(x), 8) & 0xff == 0
    ensures x == 0
  {
    EightRounds(Upper(x));
  }

  // Messages.

  lemma {:induction false} ExtendConcat(crc: bv16, s: seq<byte>, t: seq<byte>)
    ensures Extend(crc, s + t) == Extend(Extend(crc, s), t)
    decreases |t|
  {
    if t == [] {
      assert s + t == s;
    } else {
      var n := |t| - 1;
      assert (s + t)[..|s + t| - 1] == s + t[..n];
      ExtendConcat(crc, s, t[..n]);
    }
  }

  lemma ExtendTwo(crc: bv16, x: byte, y: byte)
    ensures Extend(crc, [x, y]) == Update(Update(crc, x), y)
  {
    assert [x, y][..1] == [x];
    assert [x][..0] == [];
    assert Extend(crc, [x]) == Update(crc, x);
  }

  lemma {:induction false} ExtendInjective(a: bv16, b: bv16, s: seq<byte>)
    requires Extend(a, s) == Extend(b, s)
    ensures a == b
    decreases |s|
  {
    if s != [] {
      var n := |s| - 1;
      UpdateInjective(Extend(a, s[..n]), Extend(b, s[..n]), s[n]);
      ExtendInjective(a, b, s[..n]);
    }
  }

  lemma UpdateInjective(a: bv16, b: bv16, x: byte)
    requires Update(a, x) == Update(b, x)
    ensures a == b
  {
    XorShiftsInjective(a, b, Upper(x), 8);
  }

  lemma XorShiftsInjective(a: bv16, b: bv16, x: bv16, n: nat)
    requires Shifts(a ^ x, n) == Shifts(b ^ x, n)
    ensures a == b
  {
    ShiftsInjective(a ^ x, b ^ x, n);
    XorCancel(a, b, x);
  }

  lemma XorCancel(a: bv16, b: bv16, x: bv16)
    requires a ^ x == b ^ x
    ensures a == b
  {}

  lemma LowBytesAgree(a: bv16, b: bv16, x: byte, y: byte)
    requires a ^ Upper(x) == b ^ Upper(y)
    ensures (a ^ b) & 0xff == 0
    ensures a == b ==> x == y
  {}

  lemma HighByteXor(c: bv16, x: byte, y: byte)
    ensures (c ^ Upper(x)) ^ (c ^ Upper(y)) == Upper(x ^ y)
    ensures x ^ y == 0 ==> x == y
  {}

  lemma FirstByteSame(crc: bv16, x: byte, y: byte, n: nat)
    requires (Shifts(crc ^ Upper(x), n) ^ Shifts(crc ^ Upper(y), n)) & 0xff == 0
    ensures Shifts(Upper(x ^ y), n) & 0xff == 0
  {
    ShiftsLinear(crc ^ Upper(x), crc ^ Upper(y), n);
    HighByteXor(crc, x, y);
  }

  /** Two bytes taken in from the same register leave different registers
      unless they are the same two bytes. */
  lemma TwoBytesSame(crc: bv16, x0: byte, x1: byte, y0: byte, y1: byte)
    requires Update(Update(crc, x0), x1) == Update(Update(crc, y0), y1)
    ensures x0 == y0 && x1 == y1
  {
    var a, b := Update(crc, x0), Update(crc, y0);
    UpdatesMeet(a, b, x1, y1);
    FirstByteSame(crc, x0, y0, 8);
    HighByte(x0 ^ y0);
    HighByteXor(crc, x0, y0);
  }

  lemma UpdatesMeet(a: bv16, b: bv16, x: byte, y: byte)
    requires Update(a, x) == Update(b, y)
    ensures (a ^ b) & 0xff == 0
    ensures a == b ==> x == y
  {
    ShiftsInjective(a ^ Upper(x), b ^ Upper(y), 8);
    LowBytesAgree(a, b, x, y);
  }

  /** Damage within two adjacent bytes, anywhere in a message of any length,
      changes the checksum. */
  lemma BurstDetected(s: seq<byte>, t: seq<byte>, i: nat)
    requires |s| == |t| && i + 1 < |s|
    requires s != t
    requires forall k :: 0 <= k < |s| && k != i && k != i + 1 ==> s[k] == t[k]
    ensures Crc16(s) != Crc16(t)
  {
    var pre, post := s[..i], s[i + 2..];
    assert t[..i] == pre && t[i + 2..] == post;
    assert s == pre + ([s[i], s[i + 1]] + post);
    assert t == pre + ([t[i], t[i + 1]] + post);
    var crc := Crc16(pre);
    ExtendConcat(0, pre, [s[i], s[i + 1]] + post);
    ExtendConcat(0, pre, [t[i], t[i + 1]] + post);
    ExtendConcat(crc, [s[i], s[i + 1]], post);
    ExtendConcat(crc, [t[i], t[i + 1]], post);
    ExtendTwo(crc, s[i], s[i + 1]);
    ExtendTwo(crc, t[i], t[i + 1]);
    if Crc16(s) == Crc16(t) {
      ExtendInjective(Extend(crc, [s[i], s[i + 1]]), Extend(crc, [t[i], t[i + 1]]), post);
      TwoBytesSame(crc, s[i], s[i + 1], t[i], t[i + 1]);
    }
  }

  /** Taking in two bytes clears the register exactly when they are the
      register itself, high byte first. */
  lemma TrailerClears(crc: bv16, hi: byte, lo: byte)
    ensures Extend(crc, [hi, lo]) == 0 <==> crc == Word(hi, lo)
  {
    ExtendTwo(crc, hi, lo);
    WordXor(crc, hi, lo);
    if crc == Word(hi, lo) {
      WordClears(crc ^ Upper(hi), lo);
    } else if Extend(crc, [hi, lo]) == 0 {
      OnlyWordClears(crc ^ Upper(hi), lo);
    }
  }

  lemma WordClears(a: bv16, lo: byte)
    requires a == Wide(lo)
    ensures Shifts(Shifts(a, 8) ^ Upper(lo), 8) == 0
  {
    LowByte(lo);
    ClearsIf(a, 8);
  }

  lemma OnlyWordClears(a: bv16, lo: byte)
    requires Shifts(Shifts(a, 8) ^ Upper(lo), 8) == 0
    ensures a == Wide(lo)
  {
    LowByte(lo);
    ClearsOnlyIf(a, Wide(lo), 8);
  }

  lemma ClearsOnlyIf(a: bv16, b: bv16, n: nat)
    requires Shifts(Shifts(a, n) ^ Shifts(b, n), n) == 0
    ensures a == b
  {
    ShiftsZero(Shifts(a, n) ^ Shifts(b, n), n);
    XorZero(Shifts(a, n), Shifts(b, n));
    ShiftsInjective(a, b, n);
  }

  lemma ClearsIf(a: bv16, n: nat)
    ensures Shifts(Shifts(a, n) ^ Shifts(a, n), n) == 0
  {
    XorZero(Shifts(a, n), Shifts(a, n));
    ShiftsOfZero(n);
  }

  lemma {:induction false} ShiftsOfZero(n: nat)
    ensures Shifts(0, n) == 0
  {
    if n > 0 {
      ShiftsOfZero(n - 1);
    }
  }

  lemma WordXor(crc: bv16, hi: byte, lo: byte)
    ensures crc ^ Upper(hi) == Wide(lo) <==> crc == Word(hi, lo)
  {
    OrIsXor(hi, lo);
    if crc ^ Upper(hi) == Wide(lo) {
      assert crc == Upper(hi) ^ Wide(lo);
    }
  }

  lemma OrIsXor(hi: byte, lo: byte)
    ensures Upper(hi) | Wide(lo) == Upper(hi) ^ Wide(lo)
    ensures (Upper(hi) ^ Wide(lo)) ^ Upper(hi) == Wide(lo)
  {}

  /** A message followed by its own checksum, high byte first, has checksum
      zero; no other two bytes do that. */
  lemma SelfCheck(m: seq<byte>, hi: byte, lo: byte)
    ensures Crc16(m + [hi, lo]) == 0 <==> Crc16(m) == Word(hi, lo)
    ensures Crc16(m + [High(Crc16(m)), Low(Crc16(m))]) == 0
  {
    ExtendConcat(0, m, [hi, lo]);
    TrailerClears(Crc16(m), hi, lo);
    var c := Crc16(m);
    ExtendConcat(0, m, [High(c), Low(c)]);
    TrailerClears(c, High(c), Low(c));
    WordOfParts(c);
  }

  lemma WordOfParts(c: bv16)
    ensures Word(High(c), Low(c)) == c
  {}
}
