/** The ZMODEM byte formats: headers, data subpackets and ZDLE escaping
    (sections 7.2 to 7.4 of Forsberg's "The ZMODEM Inter Application File
    Transfer Protocol", 1988). */
module Proto {
  import opened Crc

  const ZPAD: byte := 0x2a
  const ZDLE: byte := 0x18
  const CAN: byte := 0x18
  const XON: byte := 0x11
  const XOFF: byte := 0x13
  const CR: byte := 0x0d
  const LF: byte := 0x0a

  const ZBIN: byte := 0x41
  const ZHEX: byte := 0x42
  const ZBIN32: byte := 0x43

  const ZRQINIT: byte := 0
  const ZRINIT: byte := 1
  const ZACK: byte := 3
  const ZFIN: byte := 8

  const ZCRCE: byte := 0x68
  const ZCRCG: byte := 0x69
  const ZCRCQ: byte := 0x6a
  const ZCRCW: byte := 0x6b
  const ZRUB0: byte := 0x6c
  const ZRUB1: byte := 0x6d

  datatype Option<+T> = None | Some(value: T)

  /** A frame type and its four header bytes: ZP0..ZP3 of a position, ZF3..ZF0 of flags. */
  datatype Header = Header(kind: byte, p0: byte, p1: byte, p2: byte, p3: byte, format: byte) {
    function Raw(): seq<byte> {
      [kind, p0, p1, p2, p3]
    }
  }

  /** CRC-32 comes from a library; all that matters here is that both sides
      compute the same four bytes (little endian) for the same message. */
  datatype Quad = Quad(b0: byte, b1: byte, b2: byte, b3: byte) {
    function Bytes(): seq<byte> {
      [b0, b1, b2, b3]
    }
  }
  type Sum32 = seq<byte> -> Quad

  predicate IsEnd(b: byte) {
    b == ZCRCE || b == ZCRCG || b == ZCRCQ || b == ZCRCW
  }

  // Classes of bytes, as the bit tests of the scanner see them.

  predicate IsPad(b: byte) {
    b & 0x7f == ZPAD
  }

  /** Neither a control character nor one with its high bit set. */
  predicate Plain(b: byte) {
    b & 0x60 != 0
  }

  predicate IsXonXoff(b: byte) {
    b & 0x7f == XON || b & 0x7f == XOFF
  }

  // ---- escaping ----

  /** Whether `b`, sent right after the data byte `last`, must be escaped. */
  predicate Needs(ctl: bool, last: byte, b: byte) {
    if b == ZDLE || b == 0x10 || b == XON || b == XOFF || b == 0x98 || b == 0x90 || b == 0x91 || b == 0x93 then true
    else if b == CR || b == 0x8d then ctl || last & 0x7f == 0x40
    else ctl && !Plain(b)
  }

  function EscapeByte(ctl: bool, last: byte, b: byte): seq<byte> {
    if Needs(ctl, last, b) then [ZDLE, Toggle(b)] else [b]
  }

  /** An escaped byte travels with this bit inverted. */
  function Toggle(b: byte): byte {
    b ^ 0x40
  }

  function Escape(ctl: bool, last: byte, data: seq<byte>): seq<byte>
    decreases |data|
  {
    if data == [] then [] else EscapeByte(ctl, last, data[0]) + Escape(ctl, data[0], data[1..])
  }

  /** The escaper's memory after `data`. */
  function LastOf(last: byte, data: seq<byte>): byte {
    if data == [] then last else data[|data| - 1]
  }

  lemma {:induction false} EscapeConcat(ctl: bool, last: byte, a: seq<byte>, b: seq<byte>)
    ensures Escape(ctl, last, a + b) == Escape(ctl, last, a) + Escape(ctl, LastOf(last, a), b)
    decreases |a|
  {
    if a == [] {
      assert a + b == b;
    } else {
      assert (a + b)[1..] == a[1..] + b;
      EscapeConcat(ctl, a[0], a[1..], b);
    }
  }

  lemma EscapeSnoc(ctl: bool, last: byte, data: seq<byte>, i: nat)
    requires i < |data|
    ensures Escape(ctl, last, data[..i + 1]) ==
            Escape(ctl, last, data[..i]) + EscapeByte(ctl, LastOf(last, data[..i]), data[i])
  {
    EscapeConcat(ctl, last, data[..i], [data[i]]);
    assert data[..i + 1] == data[..i] + [data[i]];
    assert [data[i]][1..] == [];
  }

  /** A 16-bit checksum as it goes on the line, high byte first. */
  function Bytes16(crc: bv16): seq<byte> {
    [High(crc), Low(crc)]
  }

  /** The checksum bytes that follow `message` on the line. */
  function Trailer(sum: Sum32, crc32: bool, message: seq<byte>): seq<byte> {
    if crc32 then sum(message).Bytes() else Bytes16(Crc16(message))
  }

  function BinHeader(sum: Sum32, crc32: bool, ctl: bool, h: Header): seq<byte> {
    [ZPAD, ZDLE, if crc32 then ZBIN32 else ZBIN] + Escape(ctl, 0, h.Raw() + Trailer(sum, crc32, h.Raw()))
  }

  function Subpacket(sum: Sum32, crc32: bool, ctl: bool, last: byte, data: seq<byte>, end: byte): seq<byte> {
    SubpacketBody(sum, crc32, ctl, last, data, end) + AfterSubpacket(end)
  }

  function SubpacketBody(sum: Sum32, crc32: bool, ctl: bool, last: byte, data: seq<byte>, end: byte): seq<byte> {
    Escape(ctl, last, data) + [ZDLE, end] + Escape(ctl, end, Trailer(sum, crc32, data + [end]))
  }

  function AfterSubpacket(end: byte): seq<byte> {
    if end == ZCRCW then [XON] else []
  }

  /** The stateful escaper and the two binary encoders that share it. */
  class Escaper {
    var ctl: bool
    var last: byte

    constructor ()
      ensures !ctl && last == 0
    {
      ctl, last := false, 0;
    }

    method Put(dst: seq<byte>, b: byte) returns (out: seq<byte>)
      modifies this`last
      ensures out == dst + EscapeByte(ctl, old(last), b) && last == b
    {
      if Needs(ctl, last, b) {
        out := dst + [ZDLE, Toggle(b)];
      } else {
        out := dst + [b];
      }
      last := b;
    }

    method PutAll(dst: seq<byte>, data: seq<byte>) returns (out: seq<byte>)
      modifies this`last
      ensures out == dst + Escape(ctl, old(last), data)
      ensures last == LastOf(old(last), data)
    {
      out := dst;
      for i := 0 to |data|
        invariant out == dst + Escape(ctl, old(last), data[..i])
        invariant last == LastOf(old(last), data[..i])
      {
        EscapeSnoc(ctl, old(last), data, i);
        out := Put(out, data[i]);
      }
      assert data[..|data|] == data;
    }

    /** The escaper forgets what went before: a header stands on its own. */
    method EncodeBinHeader(sum: Sum32, crc32: bool, h: Header) returns (out: seq<byte>)
      modifies this`last
      ensures out == BinHeader(sum, crc32, ctl, h)
      ensures last == LastOf(0, Trailer(sum, crc32, h.Raw()))
    {
      var raw := [h.kind, h.p0, h.p1, h.p2, h.p3];
      out := [ZPAD, ZDLE];
      if crc32 {
        out := out + [ZBIN32];
        var c := sum(raw);
        raw := raw + [c.b0, c.b1, c.b2, c.b3];
      } else {
        out := out + [ZBIN];
        var crc := XModem(raw);
        raw := raw + Bytes16(crc);
      }
      last := 0;
      out := PutAll(out, raw);
    }

    method EncodeSubpacket(sum: Sum32, crc32: bool, dst: seq<byte>, data: seq<byte>, end: byte)
      returns (out: seq<byte>)
      requires IsEnd(end)
      modifies this`last
      ensures out == dst + Subpacket(sum, crc32, ctl, old(last), data, end)
      ensures last == LastOf(end, Trailer(sum, crc32, data + [end]))
    {
      out := PutBody(sum, crc32, dst, data, end);
      if end == ZCRCW {
        out := out + [XON];
      }
    }

    method PutBody(sum: Sum32, crc32: bool, dst: seq<byte>, data: seq<byte>, end: byte) returns (out: seq<byte>)
      modifies this`last
      ensures out == dst + SubpacketBody(sum, crc32, ctl, old(last), data, end)
      ensures last == LastOf(end, Trailer(sum, crc32, data + [end]))
    {
      out := PutAll(dst, data);
      out := out + [ZDLE, end];
      last := end;
      out := PutTrailer(sum, crc32, out, data, end);
      AppendThree(dst, Escape(ctl, old(last), data), [ZDLE, end], Escape(ctl, end, Trailer(sum, crc32, data + [end])));
    }

    method PutTrailer(sum: Sum32, crc32: bool, dst: seq<byte>, data: seq<byte>, end: byte) returns (out: seq<byte>)
      modifies this`last
      ensures out == dst + Escape(ctl, old(last), Trailer(sum, crc32, data + [end]))
      ensures last == LastOf(old(last), Trailer(sum, crc32, data + [end]))
    {
      if crc32 {
        out := PutAll(dst, sum(data + [end]).Bytes());
      } else {
        var crc := XModem(data);
        crc := UpdateLoop(crc, end);
        ExtendConcat(0, data, [end]);
        ExtendOne(Crc16(data), end);
        out := PutAll(dst, Bytes16(crc));
      }
    }
  }

  lemma AppendThree<T>(a: seq<T>, b: seq<T>, c: seq<T>, d: seq<T>)
    ensures a + b + c + d == a + (b + c + d)
  {}

  lemma ExtendOne(crc: bv16, b: byte)
    ensures Extend(crc, [b]) == Update(crc, b)
  {
    assert [b][..0] == [];
  }

  // ---- hex headers ----

  function Digit(n: byte): byte
    requires n < 16
  {
    if n < 10 then 0x30 + n else 0x57 + n
  }

  function HexByte(b: byte): seq<byte> {
    NibblesSmall(b);
    [Digit(b >> 4), Digit(b & 0x0f)]
  }

  lemma NibblesSmall(b: byte)
    ensures b >> 4 < 16 && b & 0x0f < 16
  {}

  function HexBytes(s: seq<byte>): (digits: seq<byte>)
    ensures |digits| == 2 * |s|
  {
    if s == [] then [] else HexByte(s[0]) + HexBytes(s[1..])
  }

  function HexHeader(h: Header): seq<byte> {
    var raw := h.Raw();
    [ZPAD, ZPAD, ZDLE, ZHEX] + HexBytes(raw + Bytes16(Crc16(raw))) + [CR, 0x8a] +
    (if h.kind != ZACK && h.kind != ZFIN then [XON] else [])
  }

  method PutHex(dst: seq<byte>, raw: seq<byte>) returns (out: seq<byte>)
    ensures out == dst + HexBytes(raw)
  {
    out := dst;
    for i := 0 to |raw|
      invariant out + HexBytes(raw[i..]) == dst + HexBytes(raw)
    {
      assert raw[i..][1..] == raw[i + 1..];
      var pair := PutHexByte(raw[i]);
      out := out + pair;
    }
  }

  method PutHexByte(b: byte) returns (out: seq<byte>)
    ensures out == HexByte(b)
  {
    NibblesSmall(b);
    out := [Digit(b >> 4), Digit(b & 0x0f)];
  }

  method EncodeHexHeader(h: Header) returns (out: seq<byte>)
    ensures out == HexHeader(h)
  {
    var raw := [h.kind, h.p0, h.p1, h.p2, h.p3];
    var crc := XModem(raw);
    raw := raw + Bytes16(crc);
    out := PutHex([ZPAD, ZPAD, ZDLE, ZHEX], raw);
    out := out + [CR, 0x8a];
    if h.kind != ZACK && h.kind != ZFIN {
      out := out + [XON];
    }
  }

  function HexValue(c: byte): Option<byte> {
    if 0x30 <= c <= 0x39 then Some(c - 0x30)
    else if 0x61 <= c <= 0x66 then Some(c - 0x57)
    else if 0x41 <= c <= 0x46 then Some(c - 0x37)
    else None
  }

  /** One byte from two digits, whatever their high bits. */
  function HexPair(hi: byte, lo: byte): Option<byte> {
    match (HexValue(hi & 0x7f), HexValue(lo & 0x7f))
    case (Some(h), Some(l)) => Some((h << 4) | l)
    case _ => None
  }

  function UnhexBytes(d: seq<byte>): (raw: Option<seq<byte>>)
    requires |d| % 2 == 0
    ensures raw.Some? ==> 2 * |raw.value| == |d|
  {
    if d == [] then Some([])
    else
      match HexPair(d[0], d[1])
      case Some(b) => Prefixed([b], UnhexBytes(d[2..]))
      case None => None
  }

  /** The seven decoded bytes are taken for a header when they carry their own checksum. */
  predicate Accepts(raw: seq<byte>)
    requires |raw| == 7
  {
    Crc16(raw[..5]) == Word(raw[5], raw[6])
  }

  function DecodeHexDigits(digits: seq<byte>): Option<Header> {
    if |digits| != 14 then None
    else
      match UnhexBytes(digits)
      case None => None
      case Some(raw) => HeaderOf(raw)
  }

  function Prefixed(raw: seq<byte>, rest: Option<seq<byte>>): Option<seq<byte>> {
    match rest
    case None => None
    case Some(tail) => Some(raw + tail)
  }

  lemma PrefixedNothing(raw: seq<byte>, rest: Option<seq<byte>>)
    ensures Prefixed([], rest) == rest
    ensures Prefixed(raw, Some([])) == Some(raw)
  {
    if rest.Some? {
      assert [] + rest.value == rest.value;
    }
    assert raw + [] == raw;
  }

  lemma PrefixedTwice(raw: seq<byte>, b: byte, rest: Option<seq<byte>>)
    ensures Prefixed(raw, Prefixed([b], rest)) == Prefixed(raw + [b], rest)
  {
    match rest
    case None =>
    case Some(tail) =>
      assert raw + ([b] + tail) == raw + [b] + tail;
  }

  method DecodeHexHeaderDigits(digits: seq<byte>) returns (h: Option<Header>)
    ensures h == DecodeHexDigits(digits)
  {
    if |digits| != 14 {
      return None;
    }
    var raw: seq<byte> := [];
    assert digits[0..] == digits;
    PrefixedNothing([], UnhexBytes(digits));
    for i := 0 to 7
      invariant |raw| == i
      invariant UnhexBytes(digits) == Prefixed(raw, UnhexBytes(digits[2 * i..]))
    {
      var rest := digits[2 * i..];
      assert rest[0] == digits[2 * i] && rest[1] == digits[2 * i + 1] && rest[2..] == digits[2 * (i + 1)..];
      var b := HexPair(digits[2 * i], digits[2 * i + 1]);
      if b.None? {
        return None;
      }
      PrefixedTwice(raw, b.value, UnhexBytes(rest[2..]));
      raw := raw + [b.value];
    }
    assert digits[14..] == [];
    PrefixedNothing(raw, None);
    h := CheckRaw(raw);
  }

  function HeaderOf(raw: seq<byte>): Option<Header>
    requires |raw| == 7
  {
    if Accepts(raw) then Some(Header(raw[0], raw[1], raw[2], raw[3], raw[4], ZHEX)) else None
  }

  method CheckRaw(raw: seq<byte>) returns (h: Option<Header>)
    requires |raw| == 7
    ensures h == HeaderOf(raw)
  {
    var crc := XModem(raw[..5]);
    if crc != Word(raw[5], raw[6]) {
      return None;
    }
    return Some(Header(raw[0], raw[1], raw[2], raw[3], raw[4], ZHEX));
  }

  lemma DigitValue(n: byte)
    requires n < 16
    ensures Digit(n) & 0x7f == Digit(n)
    ensures HexValue(Digit(n)) == Some(n)
  {}

  lemma Nibbles(b: byte)
    ensures ((b >> 4) << 4) | (b & 0x0f) == b
  {}

  lemma HexPairOfByte(b: byte)
    ensures HexPair(HexByte(b)[0], HexByte(b)[1]) == Some(b)
  {
    NibblesSmall(b);
    DigitValue(b >> 4);
    DigitValue(b & 0x0f);
    Nibbles(b);
  }

  lemma {:induction false} UnhexOfHex(s: seq<byte>)
    ensures UnhexBytes(HexBytes(s)) == Some(s)
  {
    if s != [] {
      var d := HexBytes(s);
      assert d[2..] == HexBytes(s[1..]);
      HexPairOfByte(s[0]);
      UnhexOfHex(s[1..]);
      assert [s[0]] + s[1..] == s;
    }
  }

  /** Printing and reading a hex header are inverse (the read one is marked as hex). */
  lemma HexHeaderRoundTrip(h: Header)
    ensures |HexHeader(h)| >= 18
    ensures DecodeHexDigits(HexHeader(h)[4..18]) == Some(h.(format := ZHEX))
  {
    var raw := h.Raw();
    var all := raw + Bytes16(Crc16(raw));
    assert HexHeader(h)[4..18] == HexBytes(all);
    UnhexOfHex(all);
    assert all[..5] == raw;
    WordOfParts(Crc16(raw));
  }

  /** No damage confined to two adjacent decoded bytes of a hex header, of
      which the checksum bytes are two, is ever accepted. */
  lemma DamagedHexHeaderRefused(raw: seq<byte>, damaged: seq<byte>, i: nat)
    requires |raw| == |damaged| == 7 && i < 6
    requires HeaderOf(raw).Some?
    requires raw != damaged
    requires forall k :: 0 <= k < 7 && k != i && k != i + 1 ==> raw[k] == damaged[k]
    ensures HeaderOf(damaged).None?
  {
    BurstDetected(raw, damaged, i);
    SelfCheck(raw[..5], raw[5], raw[6]);
    SelfCheck(damaged[..5], damaged[5], damaged[6]);
    assert raw == raw[..5] + [raw[5], raw[6]];
    assert damaged == damaged[..5] + [damaged[5], damaged[6]];
  }
}
