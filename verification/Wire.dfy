/** Ordinary bytes on the line, written out: the formats are those of every other ZMODEM. */
module Wire {
  import opened Crc
  import opened Proto
  import opened Unescape
  import opened Scan

  // ---- checksums ----

  /** One message byte, from register to register. */
  lemma Takes(before: bv16, b: byte, after: bv16)
    requires var c := before ^ Upper(b); Shift(Shift(Shift(Shift(Shift(Shift(Shift(Shift(c)))))))) == after
    ensures Update(before, b) == after
  {
    EightRounds(before ^ Upper(b));
  }

  lemma {:induction false} SumOf(m: seq<byte>, registers: seq<bv16>)
    requires |registers| == |m| + 1 && registers[0] == 0
    requires forall i :: 0 <= i < |m| ==> Update(registers[i], m[i]) == registers[i + 1]
    ensures Crc16(m) == registers[|m|]
    decreases |m|
  {
    hide Update;
    if m != [] {
      var n := |m| - 1;
      SumOf(m[..n], registers[..n + 1]);
    }
  }

  lemma ZrinitSum()
    ensures Crc16([0x01, 0x00, 0x00, 0x00, 0x23]) == 0xbe50
  {
    Takes(0x0000, 0x01, 0x1021);
    Takes(0x1021, 0x00, 0x3331);
    Takes(0x3331, 0x00, 0x3730);
    Takes(0x3730, 0x00, 0x76b4);
    Takes(0x76b4, 0x23, 0xbe50);
    hide Update;
    SumOf([0x01, 0x00, 0x00, 0x00, 0x23], [0x0000, 0x1021, 0x3331, 0x3730, 0x76b4, 0xbe50]);
  }

  lemma ZfinSum()
    ensures Crc16([0x08, 0x00, 0x00, 0x00, 0x00]) == 0x022d
  {
    Takes(0x0000, 0x08, 0x8108);
    Takes(0x8108, 0x00, 0x89a9);
    Takes(0x89a9, 0x00, 0xa9a1);
    Takes(0xa9a1, 0x00, 0x85c3);
    Takes(0x85c3, 0x00, 0x022d);
    hide Update;
    SumOf([0x08, 0x00, 0x00, 0x00, 0x00], [0x0000, 0x8108, 0x89a9, 0xa9a1, 0x85c3, 0x022d]);
  }

  lemma ZdataSum()
    ensures Crc16([0x0a, 0x00, 0x04, 0x00, 0x00]) == 0x9a6e
  {
    Takes(0x0000, 0x0a, 0xa14a);
    Takes(0xa14a, 0x00, 0xefcb);
    Takes(0xefcb, 0x04, 0x8745);
    Takes(0x8745, 0x00, 0xa46f);
    Takes(0xa46f, 0x00, 0x9a6e);
    hide Update;
    SumOf([0x0a, 0x00, 0x04, 0x00, 0x00], [0x0000, 0xa14a, 0xefcb, 0x8745, 0xa46f, 0x9a6e]);
  }

  lemma PacketSum()
    ensures Crc16([0x68, 0x69, 0x6b]) == 0x5eb5
  {
    Takes(0x0000, 0x68, 0xedae);
    Takes(0xedae, 0x69, 0x7f0c);
    Takes(0x7f0c, 0x6b, 0x5eb5);
    hide Update;
    SumOf([0x68, 0x69, 0x6b], [0x0000, 0xedae, 0x7f0c, 0x5eb5]);
  }

  // ---- headers and subpackets ----

  /** The receiver's ordinary ZRINIT: `**`, CAN, `B0100000023be50`, CR, LF with its high
      bit, XON. */
  lemma ZrinitBytes()
    ensures HexHeader(Header(0x01, 0x00, 0x00, 0x00, 0x23, ZHEX)) ==
            [0x2a, 0x2a, 0x18, 0x42, 0x30, 0x31, 0x30, 0x30, 0x30, 0x30, 0x30, 0x30, 0x32, 0x33, 0x62, 0x65, 0x35, 0x30,
             0x0d, 0x8a, 0x11]
  {
    ZrinitSum();
    var raw: seq<byte> := [0x01, 0x00, 0x00, 0x00, 0x23];
    hide Crc16;
    assert Bytes16(0xbe50) == [0xbe, 0x50];
    assert raw + [0xbe, 0x50] == [0x01, 0x00, 0x00, 0x00, 0x23, 0xbe, 0x50];
    SevenDigits([0x01, 0x00, 0x00, 0x00, 0x23, 0xbe, 0x50],
                [0x30, 0x31, 0x30, 0x30, 0x30, 0x30, 0x30, 0x30, 0x32, 0x33, 0x62, 0x65, 0x35, 0x30]);
  }

  /** ZFIN ends without the XON. */
  lemma ZfinBytes()
    ensures HexHeader(Header(0x08, 0x00, 0x00, 0x00, 0x00, ZHEX)) ==
            [0x2a, 0x2a, 0x18, 0x42, 0x30, 0x38, 0x30, 0x30, 0x30, 0x30, 0x30, 0x30, 0x30, 0x30, 0x30, 0x32, 0x32, 0x64,
             0x0d, 0x8a]
  {
    ZfinSum();
    var raw: seq<byte> := [0x08, 0x00, 0x00, 0x00, 0x00];
    hide Crc16;
    assert Bytes16(0x022d) == [0x02, 0x2d];
    assert raw + [0x02, 0x2d] == [0x08, 0x00, 0x00, 0x00, 0x00, 0x02, 0x2d];
    SevenDigits([0x08, 0x00, 0x00, 0x00, 0x00, 0x02, 0x2d],
                [0x30, 0x38, 0x30, 0x30, 0x30, 0x30, 0x30, 0x30, 0x30, 0x30, 0x30, 0x32, 0x32, 0x64]);
  }

  lemma {:induction false} DigitsAt(s: seq<byte>, i: nat)
    requires i < |s|
    ensures HexBytes(s)[2 * i] == HexByte(s[i])[0] && HexBytes(s)[2 * i + 1] == HexByte(s[i])[1]
    decreases |s|
  {
    hide HexByte;
    if i > 0 {
      DigitsAt(s[1..], i - 1);
      assert HexBytes(s)[2..] == HexBytes(s[1..]);
    }
  }

  /** The digits of seven bytes. */
  lemma SevenDigits(s: seq<byte>, digits: seq<byte>)
    requires |s| == 7 && |digits| == 14
    requires forall i :: 0 <= i < 7 ==> digits[2 * i] == HexByte(s[i])[0] && digits[2 * i + 1] == HexByte(s[i])[1]
    ensures HexBytes(s) == digits
  {
    hide HexByte;
    hide HexBytes;
    forall i | 0 <= i < 7
      ensures HexBytes(s)[2 * i] == digits[2 * i] && HexBytes(s)[2 * i + 1] == digits[2 * i + 1]
    {
      DigitsAt(s, i);
    }
    forall k | 0 <= k < 14
      ensures HexBytes(s)[k] == digits[k]
    {
      assert k == 2 * (k / 2) || k == 2 * (k / 2) + 1;
    }
  }

  /** A binary ZDATA for offset 1024, with its CRC-16. */
  lemma ZdataBytes(sum: Sum32)
    ensures BinHeader(sum, false, false, Header(0x0a, 0x00, 0x04, 0x00, 0x00, ZBIN)) ==
            [0x2a, 0x18, 0x41, 0x0a, 0x00, 0x04, 0x00, 0x00, 0x9a, 0x6e]
  {
    ZdataSum();
    var raw: seq<byte> := [0x0a, 0x00, 0x04, 0x00, 0x00];
    hide Crc16;
    assert Bytes16(0x9a6e) == [0x9a, 0x6e];
    assert raw + [0x9a, 0x6e] == [0x0a, 0x00, 0x04, 0x00, 0x00, 0x9a, 0x6e];
    NothingToEscape(0, [0x0a, 0x00, 0x04, 0x00, 0x00, 0x9a, 0x6e]);
  }

  /** Bytes that line equipment leaves alone. */
  predicate Tame(b: byte) {
    b !in {0x0d, 0x8d, 0x10, 0x11, 0x13, 0x18, 0x90, 0x91, 0x93, 0x98}
  }

  lemma {:induction false} NothingToEscape(last: byte, s: seq<byte>)
    requires forall i :: 0 <= i < |s| ==> Tame(s[i])
    ensures Escape(false, last, s) == s
    decreases |s|
  {
    if s != [] {
      TameStays(last, s[0]);
      hide Needs;
      NothingToEscape(s[0], s[1..]);
    }
  }

  lemma TameStays(last: byte, b: byte)
    requires Tame(b)
    ensures !Needs(false, last, b)
  {}

  /** The last subpacket of a frame that waits for an answer, with its CRC-16 and XON. */
  lemma PacketBytes(sum: Sum32)
    ensures Subpacket(sum, false, false, 0, [0x68, 0x69], ZCRCW) == [0x68, 0x69, 0x18, 0x6b, 0x5e, 0xb5, 0x11]
  {
    PacketSum();
    hide Crc16;
    assert Bytes16(0x5eb5) == [0x5e, 0xb5];
    assert [0x68, 0x69] + [ZCRCW] == [0x68, 0x69, 0x6b];
    NothingToEscape(0, [0x68, 0x69]);
    NothingToEscape(ZCRCW, [0x5e, 0xb5]);
  }

  /** The other frame ends. */
  lemma FrameEndBytes()
    ensures [ZCRCE, ZCRCG, ZCRCQ, ZCRCW] == [0x68, 0x69, 0x6a, 0x6b]
    ensures forall b: byte :: IsEnd(b) <==> 0x68 <= b <= 0x6b
  {}

  // ---- escaping ----

  /** Every byte that line equipment may eat goes out as a pair: the ZDLE itself, flow
      control, the CR after an `@` that a telenet switch listens for; and, if the peer
      wants that, every other control character. */
  lemma EscapedExactly(ctl: bool, last: byte, b: byte)
    ensures EscapeByte(ctl, last, b) ==
            if b in {0x10, 0x11, 0x13, 0x18, 0x90, 0x91, 0x93, 0x98}
               || (b in {0x0d, 0x8d} && (ctl || last == 0x40 || last == 0xc0))
               || (ctl && (b < 0x20 || 0x80 <= b < 0xa0))
            then [0x18, b ^ 0x40] else [b]
  {
    LastIsAt(last);
    ControlIs(b);
  }

  lemma LastIsAt(last: byte)
    ensures last & 0x7f == 0x40 <==> last == 0x40 || last == 0xc0
  {}

  lemma ControlIs(b: byte)
    ensures Plain(b) <==> !(b < 0x20 || 0x80 <= b < 0xa0)
  {}

  /** Rubouts have pairs of their own. */
  lemma RuboutBytes(rest: seq<byte>, ctlIgnore: bool)
    ensures SubItem([0x18, 0x6c] + rest, 0, ctlIgnore) == Data(0x7f, 2) == HdrItem([0x18, 0x6c] + rest, 0, ctlIgnore)
    ensures SubItem([0x18, 0x6d] + rest, 0, ctlIgnore) == Data(0xff, 2) == HdrItem([0x18, 0x6d] + rest, 0, ctlIgnore)
  {
    RuboutsArePlain();
  }

  lemma RuboutsArePlain()
    ensures !IsXonXoff(0x6c) && !IsXonXoff(0x6d) && Plain(0x6c) && Plain(0x6d) && !Plain(0x18)
  {}

  /** Five CAN in a row end the session, four do not. */
  lemma CancelBytes(rest: seq<byte>, ctlIgnore: bool)
    ensures SubItem([0x18, 0x18, 0x18, 0x18, 0x18] + rest, 0, ctlIgnore) == Cancel(5)
    ensures HdrItem([0x18, 0x18, 0x18, 0x18, 0x18] + rest, 0, ctlIgnore) == Cancel(5)
    ensures SubItem([0x18, 0x18, 0x18, 0x18, 0x41] + rest, 0, ctlIgnore) == Bad(5)
    ensures HdrItem([0x18, 0x18, 0x18, 0x18, 0x41] + rest, 0, ctlIgnore) == Bad(5)
  {
    RuboutsArePlain();
    LetterIsPlain();
    CansEscape([0x18, 0x18, 0x18, 0x18, 0x18] + rest, ctlIgnore);
    CansEscape([0x18, 0x18, 0x18, 0x18, 0x41] + rest, ctlIgnore);
  }

  lemma LetterIsPlain()
    ensures !IsXonXoff(0x41) && Plain(0x41)
  {}

  lemma CansEscape(buf: seq<byte>, ctlIgnore: bool)
    requires |buf| >= 5 && buf[0] == buf[1] == buf[2] == buf[3] == 0x18 && !Plain(0x18)
    ensures SubItem(buf, 0, ctlIgnore) == SubEscaped(buf, 4, 4, ctlIgnore)
    ensures HdrItem(buf, 0, ctlIgnore) == HdrEscaped(buf, 4, 4, ctlIgnore)
  {
    hide Plain;
    assert SubEscaped(buf, 3, 3, ctlIgnore) == SubEscaped(buf, 4, 4, ctlIgnore);
    assert SubEscaped(buf, 2, 2, ctlIgnore) == SubEscaped(buf, 3, 3, ctlIgnore);
    assert SubEscaped(buf, 1, 1, ctlIgnore) == SubEscaped(buf, 2, 2, ctlIgnore);
    assert HdrEscaped(buf, 3, 3, ctlIgnore) == HdrEscaped(buf, 4, 4, ctlIgnore);
    assert HdrEscaped(buf, 2, 2, ctlIgnore) == HdrEscaped(buf, 3, 3, ctlIgnore);
    assert HdrEscaped(buf, 1, 1, ctlIgnore) == HdrEscaped(buf, 2, 2, ctlIgnore);
  }

  // ---- flow control ----

  predicate Flow(b: byte) {
    b in {0x11, 0x13, 0x91, 0x93}
  }

  predicate FlowFree(s: seq<byte>) {
    forall i :: 0 <= i < |s| ==> !Flow(s[i])
  }

  lemma PairIsFlowFree(ctl: bool, last: byte, b: byte)
    ensures FlowFree(EscapeByte(ctl, last, b))
  {
    EscapedExactly(ctl, last, b);
    ControlIs(b);
    ToggledIsNoFlow(b);
  }

  lemma ToggledIsNoFlow(b: byte)
    ensures b < 0x20 || 0x80 <= b < 0xa0 ==> !Flow(b ^ 0x40)
  {}

  lemma {:induction false} EscapeIsFlowFree(ctl: bool, last: byte, s: seq<byte>)
    ensures FlowFree(Escape(ctl, last, s))
    decreases |s|
  {
    hide EscapeByte;
    hide Flow;
    if s != [] {
      PairIsFlowFree(ctl, last, s[0]);
      EscapeIsFlowFree(ctl, s[0], s[1..]);
    }
  }

  /** Whatever the data and the checksum, no flow control byte is in a subpacket, but for
      the XON after one that ends its frame and waits. */
  lemma {:induction false} FlowInSubpacket(sum: Sum32, crc32: bool, ctl: bool, last: byte, data: seq<byte>, end: byte)
    requires IsEnd(end)
    ensures var s := Subpacket(sum, crc32, ctl, last, data, end);
            && (if end == 0x6b then s[|s| - 1] == 0x11 && FlowFree(s[..|s| - 1]) else FlowFree(s))
  {
    hide Escape;
    EscapeIsFlowFree(ctl, last, data);
    EscapeIsFlowFree(ctl, end, Trailer(sum, crc32, data + [end]));
    FrameEndBytes();
    var body := SubpacketBody(sum, crc32, ctl, last, data, end);
    assert FlowFree(body) by {
      hide Trailer;
      assert FlowFree([ZDLE, end]);
    }
    assert body + [] == body && (body + [XON])[..|body|] == body;
  }

  lemma HexIsFlowFree(b: byte)
    ensures FlowFree(HexByte(b))
  {}

  lemma {:induction false} DigitsAreFlowFree(s: seq<byte>)
    ensures FlowFree(HexBytes(s))
    decreases |s|
  {
    hide HexByte;
    hide Flow;
    if s != [] {
      HexIsFlowFree(s[0]);
      DigitsAreFlowFree(s[1..]);
    }
  }

  /** A hex header ends with XON, but for ZACK and ZFIN, and has no other. */
  lemma FlowInHexHeader(h: Header)
    ensures var s := HexHeader(h);
            if h.kind == 0x03 || h.kind == 0x08 then FlowFree(s) else s[|s| - 1] == 0x11 && FlowFree(s[..|s| - 1])
  {
    hide HexBytes;
    hide Crc16;
    var digits := HexBytes(h.Raw() + Bytes16(Crc16(h.Raw())));
    DigitsAreFlowFree(h.Raw() + Bytes16(Crc16(h.Raw())));
    assert FlowFree([ZPAD, ZPAD, ZDLE, ZHEX]) && FlowFree([CR, 0x8a]);
    var body := [ZPAD, ZPAD, ZDLE, ZHEX] + digits + [CR, 0x8a];
    assert FlowFree(body);
    assert (body + [XON])[..|body|] == body;
  }

  // ---- where headers begin ----

  lemma PadsAre(b: byte)
    ensures IsPad(b) <==> b == 0x2a || b == 0xaa
  {}

  /** A stream without a pad, with the high bit or not, has no header, good or bad. */
  lemma {:induction false} NoPadNoHeader(r: Reader, s: seq<byte>)
    requires forall i :: 0 <= i < |s| ==> s[i] != 0x2a && s[i] != 0xaa
    ensures Events(r, s) == [] || Events(r, s) == [Cancelled]
    decreases |s|
  {
    hide Body;
    hide IsPad;
    if s != [] {
      PadsAre(s[0]);
      HeadBounds(r, s);
      var l := Head(r, s);
      if l.Skip? {
        NoPadNoHeader(r, s[l.k..]);
      }
    }
  }
}
