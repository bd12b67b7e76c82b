/** What the line does not bring whole is refused: exactly when headers and subpackets are
    taken, exactly how a subpacket breaks off, and that the CRC-16 catches every damage
    within two adjacent bytes of a header or a subpacket. */
module Damage {
  import opened Crc
  import opened Proto
  import opened Unescape
  import opened Scan
  import opened Subpackets

  // ---- headers ----

  /** A hex header is taken exactly if its fourteen digits are those of a header and of its
      checksum. */
  lemma HexTakenExactly(digits: seq<byte>, h: Header)
    requires h.format == 0x42
    ensures DecodeHexDigits(digits) == Some(h) <==>
            |digits| == 14 && UnhexBytes(digits) == Some(h.Raw() + Bytes16(Crc16(h.Raw())))
  {
    hide Crc16;
    if |digits| == 14 && UnhexBytes(digits).Some? {
      var raw := UnhexBytes(digits).value;
      assert raw == raw[..5] + [raw[5], raw[6]];
      WordIs(Crc16(raw[..5]), raw[5], raw[6]);
      RawIs(raw, h);
    }
  }

  lemma RawIs(raw: seq<byte>, h: Header)
    requires |raw| >= 5
    ensures raw[..5] == h.Raw() <==> raw[0] == h.kind && raw[1] == h.p0 && raw[2] == h.p1 && raw[3] == h.p2 && raw[4] == h.p3
  {}

  lemma WordIs(sum: bv16, hi: byte, lo: byte)
    ensures sum == Word(hi, lo) <==> hi == High(sum) && lo == Low(sum)
  {
    WordOfParts(sum);
    PartsOfWord(hi, lo);
    hide Word;
    hide High;
    hide Low;
  }

  lemma PartsOfWord(hi: byte, lo: byte)
    ensures High(Word(hi, lo)) == hi && Low(Word(hi, lo)) == lo
  {}

  /** And a binary one exactly if the values read are a header and its checksum. */
  lemma BinTakenExactly(sum: Sum32, crc32: bool, vals: seq<byte>, h: Header)
    requires |vals| == if crc32 then 9 else 7
    requires h.format == if crc32 then 0x43 else 0x41
    ensures BinHeaderOf(sum, crc32, vals) == Some(h) <==> vals == h.Raw() + Trailer(sum, crc32, h.Raw())
  {
    hide Trailer;
    assert vals == vals[..5] + vals[5..];
    RawIs(vals, h);
    if vals == h.Raw() + Trailer(sum, crc32, h.Raw()) {
      assert vals[..5] == h.Raw() && vals[5..] == Trailer(sum, crc32, h.Raw());
    }
  }

  /** Seven values that differ from those of a good header within two adjacent places. */
  predicate Scratched(good: seq<byte>, vals: seq<byte>, i: nat) {
    && |vals| == |good| && i + 1 < |good| && vals != good
    && forall k :: 0 <= k < |good| && k != i && k != i + 1 ==> vals[k] == good[k]
  }

  /** A binary header so damaged is reported as damaged. */
  lemma DamagedBinHeaderRefused(r: Reader, h: Header, rest: seq<byte>, i: nat)
    requires var v := UnescapeN(rest, 0, 7, r.ctlIgnore);
             v.Got? && Scratched(h.Raw() + Bytes16(Crc16(h.Raw())), v.vals, i)
    ensures BinBody(r, false, rest) == Junk
  {
    hide Crc16;
    hide UnescapeN;
    UnescapedLength(rest, 0, 7, r.ctlIgnore);
    var good, vals := h.Raw() + Bytes16(Crc16(h.Raw())), UnescapeN(rest, 0, 7, r.ctlIgnore).vals;
    BurstDetected(good, vals, i);
    SelfCheck(h.Raw(), 0, 0);
    SelfCheck(vals[..5], vals[5], vals[6]);
    assert vals == vals[..5] + [vals[5], vals[6]];
    WordIs(Crc16(vals[..5]), vals[5], vals[6]);
  }

  // ---- the values of a subpacket ----

  /** Where the next values of a subpacket end, if they are these. */
  function ReadsTo(buf: seq<byte>, i: nat, vals: seq<byte>, ctlIgnore: bool): (e: Option<nat>)
    requires i <= |buf|
    ensures e.Some? ==> i <= e.value <= |buf|
    decreases |vals|
  {
    if vals == [] then Some(i)
    else
      SubItemBounds(buf, i, ctlIgnore);
      match SubItem(buf, i, ctlIgnore)
      case Data(v, at) => if v == vals[0] then ReadsTo(buf, at, vals[1..], ctlIgnore) else None
      case _ => None
  }

  lemma {:induction false} ValuesAre(buf: seq<byte>, i: nat, n: nat, ctlIgnore: bool, vals: seq<byte>, at: nat)
    requires i <= |buf|
    ensures SubValues(buf, i, n, ctlIgnore) == Got(vals, at) <==> |vals| == n && ReadsTo(buf, i, vals, ctlIgnore) == Some(at)
    decreases n
  {
    hide SubItem;
    SubValuesLength(buf, i, n, ctlIgnore);
    SubItemBounds(buf, i, ctlIgnore);
    if n > 0 && SubItem(buf, i, ctlIgnore).Data? && vals != [] {
      var item := SubItem(buf, i, ctlIgnore);
      ValuesAre(buf, item.at, n - 1, ctlIgnore, vals[1..], at);
      assert vals == [vals[0]] + vals[1..];
    }
  }

  /** What stands where `part` of the values has been read decides. */
  lemma {:induction false} ValuesBreakOff(buf: seq<byte>, i: nat, n: nat, ctlIgnore: bool, part: seq<byte>, e: nat)
    requires i <= |buf| && |part| < n && ReadsTo(buf, i, part, ctlIgnore) == Some(e)
    ensures match SubItem(buf, e, ctlIgnore)
            case More => SubValues(buf, i, n, ctlIgnore) == Need
            case Data(_, _) => true
            case Cancel(at) => SubValues(buf, i, n, ctlIgnore) == Stopped(at)
            case Bad(at) => SubValues(buf, i, n, ctlIgnore) == Broken(at, false)
            case End(_, at) => SubValues(buf, i, n, ctlIgnore) == Broken(at, true)
    decreases |part|
  {
    hide SubItem;
    if part != [] {
      SubItemBounds(buf, i, ctlIgnore);
      ValuesBreakOff(buf, SubItem(buf, i, ctlIgnore).at, n - 1, ctlIgnore, part[1..], e);
    }
  }

  // ---- subpackets ----

  lemma {:induction false} Forward(r: Reader, crc32: bool, max: nat, buf: seq<byte>, i: nat, pre: seq<byte>,
                                   data: seq<byte>, e: nat)
    requires i <= |buf| && |pre| + |data| <= max && ReadsTo(buf, i, data, r.ctlIgnore) == Some(e)
    ensures ReadSub(r, crc32, max, buf, i, pre) == ReadSub(r, crc32, max, buf, e, pre + data)
    decreases |data|
  {
    hide SubItem;
    hide CheckSub;
    if data == [] {
      assert pre + data == pre;
    } else {
      SubItemBounds(buf, i, r.ctlIgnore);
      assert pre + [data[0]] + data[1..] == pre + data;
      Forward(r, crc32, max, buf, SubItem(buf, i, r.ctlIgnore).at, pre + [data[0]], data[1..], e);
    }
  }

  /** What was read to a subpacket's end. */
  lemma {:induction false} Backward(r: Reader, crc32: bool, max: nat, buf: seq<byte>, i: nat, pre: seq<byte>)
    returns (e: nat)
    requires i <= |buf| && |pre| <= max && ReadSub(r, crc32, max, buf, i, pre).Sub?
    ensures var all := ReadSub(r, crc32, max, buf, i, pre).data;
            && pre <= all && |all| <= max
            && ReadsTo(buf, i, all[|pre|..], r.ctlIgnore) == Some(e)
            && SubItem(buf, e, r.ctlIgnore).End?
    decreases |buf| - i
  {
    hide SubItem;
    hide SubValues;
    hide Trailer;
    SubItemBounds(buf, i, r.ctlIgnore);
    var item := SubItem(buf, i, r.ctlIgnore);
    if item.Data? {
      e := Backward(r, crc32, max, buf, item.at, pre + [item.v]);
      var all := ReadSub(r, crc32, max, buf, i, pre).data;
      assert all[|pre|] == (pre + [item.v])[|pre|] && all[|pre|..][1..] == all[|pre| + 1..];
    } else {
      e := i;
    }
  }

  /** The subpacket that begins at `buf` has these data, frame end and checksum bytes, and
      ends at `at`. */
  predicate Holds(buf: seq<byte>, data: seq<byte>, end: byte, check: seq<byte>, at: nat, ctlIgnore: bool) {
    && var e := ReadsTo(buf, 0, data, ctlIgnore);
    && e.Some?
    && var item := SubItem(buf, e.value, ctlIgnore);
    && item.End? && item.e == end && item.at <= |buf|
    && ReadsTo(buf, item.at, check, ctlIgnore) == Some(at)
  }

  /** A subpacket is taken exactly if it is not too long and the checksum bytes after its
      frame end are those of its data and frame end. */
  lemma {:induction false} SubTakenExactly(r: Reader, crc32: bool, max: nat, buf: seq<byte>, data: seq<byte>,
                                           end: byte, at: nat)
    ensures ReadSub(r, crc32, max, buf, 0, []) == Sub(data, end, at) <==>
            |data| <= max && Holds(buf, data, end, Trailer(r.sum, crc32, data + [end]), at, r.ctlIgnore)
  {
    hide SubItem;
    hide SubValues;
    hide ReadsTo;
    hide Trailer;
    var check := Trailer(r.sum, crc32, data + [end]);
    CheckLength(r, crc32, data + [end]);
    if ReadSub(r, crc32, max, buf, 0, []) == Sub(data, end, at) {
      var e := Backward(r, crc32, max, buf, 0, []);
      assert data[0..] == data && [] + data == data;
      Forward(r, crc32, max, buf, 0, [], data, e);
      SubItemBounds(buf, e, r.ctlIgnore);
      ValuesAre(buf, SubItem(buf, e, r.ctlIgnore).at, TrailerLength(crc32), r.ctlIgnore, check, at);
    } else if |data| <= max && Holds(buf, data, end, check, at, r.ctlIgnore) {
      var e := ReadsTo(buf, 0, data, r.ctlIgnore).value;
      assert [] + data == data;
      Forward(r, crc32, max, buf, 0, [], data, e);
      ValuesAre(buf, SubItem(buf, e, r.ctlIgnore).at, TrailerLength(crc32), r.ctlIgnore, check, at);
    }
  }

  lemma CheckLength(r: Reader, crc32: bool, message: seq<byte>)
    ensures |Trailer(r.sum, crc32, message)| == TrailerLength(crc32) == if crc32 then 4 else 2
  {}

  /** How reading ends where data has been read and something else follows: a byte too
      many, five CAN, an impossible pair, or nothing yet. */
  lemma {:induction false} DataBreaksOff(r: Reader, crc32: bool, max: nat, buf: seq<byte>, data: seq<byte>, e: nat)
    requires |data| <= max && ReadsTo(buf, 0, data, r.ctlIgnore) == Some(e)
    ensures match SubItem(buf, e, r.ctlIgnore)
            case More => ReadSub(r, crc32, max, buf, 0, []) == Short
            case Data(_, at) => |data| == max ==> ReadSub(r, crc32, max, buf, 0, []) == Overflow(at)
            case Cancel(at) => ReadSub(r, crc32, max, buf, 0, []) == SubCancel(at)
            case Bad(at) => ReadSub(r, crc32, max, buf, 0, []) == BadCrc(at)
            case End(_, _) => true
  {
    hide SubItem;
    hide CheckSub;
    assert [] + data == data;
    Forward(r, crc32, max, buf, 0, [], data, e);
  }

  /** And where it is the checksum that breaks off, with a frame end, five CAN, an
      impossible pair, or the end of what has come; or is a wrong one. */
  lemma {:induction false} CheckBreaksOff(r: Reader, crc32: bool, max: nat, buf: seq<byte>, data: seq<byte>, end: byte,
                                          part: seq<byte>, f: nat)
    requires |data| <= max && Holds(buf, data, end, part, f, r.ctlIgnore)
    ensures var sub, n := ReadSub(r, crc32, max, buf, 0, []), if crc32 then 4 else 2;
            && (|part| < n ==>
                  match SubItem(buf, f, r.ctlIgnore)
                  case More => sub == Short
                  case Data(_, _) => true
                  case Cancel(at) => sub == SubCancel(at)
                  case Bad(at) => sub == BadCrc(at)
                  case End(_, at) => sub == StrayEnd(at))
            && (|part| == n && part != Trailer(r.sum, crc32, data + [end]) ==> sub == BadCrc(f))
  {
    hide SubItem;
    hide SubValues;
    hide ReadsTo;
    hide Trailer;
    var e := ReadsTo(buf, 0, data, r.ctlIgnore).value;
    var i := SubItem(buf, e, r.ctlIgnore).at;
    assert [] + data == data;
    Forward(r, crc32, max, buf, 0, [], data, e);
    if |part| < TrailerLength(crc32) {
      ValuesBreakOff(buf, i, TrailerLength(crc32), r.ctlIgnore, part, f);
    }
    ValuesAre(buf, i, TrailerLength(crc32), r.ctlIgnore, part, f);
  }

  /** Damage within two adjacent bytes of a subpacket, of its data, frame end or CRC-16, is
      always found. */
  lemma {:induction false} DamagedSubpacketRefused(r: Reader, max: nat, buf: seq<byte>, data: seq<byte>, end: byte,
                                                   data2: seq<byte>, end2: byte, check2: seq<byte>, at: nat, i: nat)
    requires |data2| == |data| <= max && |check2| == 2 && Holds(buf, data2, end2, check2, at, r.ctlIgnore)
    requires Scratched(data + [end] + Bytes16(Crc16(data + [end])), data2 + [end2] + check2, i)
    ensures ReadSub(r, false, max, buf, 0, []) == BadCrc(at)
  {
    hide Crc16;
    hide Holds;
    hide ReadSub;
    var good, m := data + [end], data2 + [end2];
    BurstDetected(good + Bytes16(Crc16(good)), m + check2, i);
    SelfCheck(good, 0, 0);
    SelfCheck(m, check2[0], check2[1]);
    assert check2 == [check2[0], check2[1]];
    WordIs(Crc16(m), check2[0], check2[1]);
    CheckBreaksOff(r, false, max, buf, data2, end2, check2, at);
  }

  // ---- pairs ----

  /** What ZDLE and one byte that is neither a CAN nor skipped stand for in a subpacket, of
      all 256. */
  lemma PairsExactly(c: byte, rest: seq<byte>, ctlIgnore: bool)
    requires c != 0x18 && !SubSkips(c, ctlIgnore)
    ensures SubItem([0x18, c] + rest, 0, ctlIgnore) ==
            if 0x68 <= c <= 0x6b then End(c, 2)
            else if c == 0x6c then Data(0x7f, 2)
            else if c == 0x6d then Data(0xff, 2)
            else if 0x40 <= c < 0x60 || 0xc0 <= c < 0xe0 then Data(c ^ 0x40, 2)
            else Bad(2)
  {
    var buf := [0x18, c] + rest;
    CanIsControl();
    EscapeesAre(c);
    EndsAre(c);
    hide Plain;
    hide SubSkips;
    hide Escapee;
    hide IsEnd;
    assert SubItem(buf, 0, ctlIgnore) == SubEscaped(buf, 1, 1, ctlIgnore) == SubPair(c, 2);
  }

  lemma CanIsControl()
    ensures !Plain(0x18)
  {}

  lemma EscapeesAre(c: byte)
    ensures Escapee(c) <==> 0x40 <= c < 0x60 || 0xc0 <= c < 0xe0
  {}

  lemma EndsAre(c: byte)
    ensures IsEnd(c) <==> 0x68 <= c <= 0x6b
  {}

  /** Two to four CAN and then anything but another are damage in a subpacket. */
  lemma FewCansAreDamage(n: nat, c: byte, rest: seq<byte>, ctlIgnore: bool)
    requires 2 <= n <= 4 && c != 0x18
    ensures SubItem(seq(n, _ => 0x18 as byte) + [c] + rest, 0, ctlIgnore) == Bad(n + 1)
  {
    var buf := seq(n, _ => 0x18 as byte) + [c] + rest;
    CanIsControl();
    hide Plain;
    hide SubSkips;
    hide SubPair;
    assert buf[0] == buf[1] == 0x18 && buf[n] == c;
    assert SubEscaped(buf, n, n, ctlIgnore) == Bad(n + 1);
    assert n > 3 ==> SubEscaped(buf, 3, 3, ctlIgnore) == SubEscaped(buf, n, n, ctlIgnore);
    assert n > 2 ==> SubEscaped(buf, 2, 2, ctlIgnore) == SubEscaped(buf, n, n, ctlIgnore);
    assert SubEscaped(buf, 1, 1, ctlIgnore) == SubEscaped(buf, n, n, ctlIgnore);
  }

  // ---- digits ----

  predicate UpperOf(c: byte, d: byte) {
    c == d || (0x61 <= d <= 0x66 && c == d - 0x20)
  }

  lemma UpperIsSame(c: byte, d: byte)
    requires UpperOf(c, d)
    ensures HexValue(c & 0x7f) == HexValue(d & 0x7f)
  {}

  lemma PairIsSame(a: byte, a2: byte, b: byte, b2: byte)
    requires UpperOf(a, b) && UpperOf(a2, b2)
    ensures HexPair(a, a2) == HexPair(b, b2)
  {
    UpperIsSame(a, b);
    UpperIsSame(a2, b2);
    hide HexValue;
  }

  lemma {:induction false} UpperBytes(a: seq<byte>, b: seq<byte>)
    requires |a| == |b| && |a| % 2 == 0 && forall i :: 0 <= i < |a| ==> UpperOf(a[i], b[i])
    ensures UnhexBytes(a) == UnhexBytes(b)
    decreases |a|
  {
    hide HexPair;
    hide UpperOf;
    if a != [] {
      PairIsSame(a[0], a[1], b[0], b[1]);
      UpperBytes(a[2..], b[2..]);
    }
  }

  /** Digits may be upper case, any of them. */
  lemma CaseDoesNotMatter(a: seq<byte>, b: seq<byte>)
    requires |a| == |b| && forall i :: 0 <= i < |a| ==> UpperOf(a[i], b[i])
    ensures DecodeHexDigits(a) == DecodeHexDigits(b)
  {
    hide UpperOf;
    hide UnhexBytes;
    hide HeaderOf;
    if |a| == 14 {
      UpperBytes(a, b);
    }
  }
}
