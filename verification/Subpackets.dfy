/** Reading a data subpacket out of a byte stream, and that reading undoes
    writing: for every payload, frame end, checksum and escaper state, whatever
    raw XON and XOFF bytes the line adds. */
module Subpackets {
  import opened Crc
  import opened Proto
  import opened Unescape
  import opened Scan

  datatype SubResult =
    | Short                                        // the stream ends inside the subpacket
    | Sub(data: seq<byte>, end: byte, at: nat)
    | Overflow(at: nat)
    | BadCrc(at: nat)
    | StrayEnd(at: nat)                            // a frame end among the checksum bytes
    | SubCancel(at: nat)

  function TrailerLength(crc32: bool): nat {
    if crc32 then 4 else 2
  }

  lemma SubValuesLength(buf: seq<byte>, i: nat, n: nat, ctlIgnore: bool)
    requires i <= |buf|
    ensures var v := SubValues(buf, i, n, ctlIgnore);
            && (v.Got? ==> |v.vals| == n && i <= v.at <= |buf|)
            && (v.Broken? || v.Stopped? ==> i < v.at <= |buf|)
    decreases n
  {
    if n > 0 {
      SubItemBounds(buf, i, ctlIgnore);
      var item := SubItem(buf, i, ctlIgnore);
      if item.Data? {
        SubValuesLength(buf, item.at, n - 1, ctlIgnore);
      }
    }
  }

  /** After the frame end `end`: the checksum decides. */
  function CheckSub(r: Reader, crc32: bool, buf: seq<byte>, i: nat, data: seq<byte>, end: byte): SubResult
    requires i <= |buf|
  {
    match SubValues(buf, i, TrailerLength(crc32), r.ctlIgnore)
    case Need => Short
    case Stopped(at) => SubCancel(at)
    case Broken(at, isEnd) => if isEnd then StrayEnd(at) else BadCrc(at)
    case Got(vals, at) => if vals == Trailer(r.sum, crc32, data + [end]) then Sub(data, end, at) else BadCrc(at)
  }

  /** With `data` read so far. */
  function ReadSub(r: Reader, crc32: bool, max: nat, buf: seq<byte>, i: nat, data: seq<byte>): SubResult
    requires i <= |buf|
    decreases |buf| - i
  {
    SubItemBounds(buf, i, r.ctlIgnore);
    match SubItem(buf, i, r.ctlIgnore)
    case More => Short
    case Data(v, at) => if |data| >= max then Overflow(at) else ReadSub(r, crc32, max, buf, at, data + [v])
    case Bad(at) => BadCrc(at)
    case Cancel(at) => SubCancel(at)
    case End(end, at) => CheckSub(r, crc32, buf, at, data, end)
  }

  lemma {:induction false} EndDecodes(buf: seq<byte>, i: nat, end: byte, rest: seq<byte>, ctlIgnore: bool)
    returns (at: nat)
    requires i <= |buf| && IsEnd(end)
    requires Unflow(buf[i..]) == [end] + rest
    ensures SubEscaped(buf, i, 1, ctlIgnore) == End(end, at)
    ensures i < at <= |buf| && Unflow(buf[at..]) == rest
    decreases |buf| - i
  {
    assert i < |buf|;
    UnflowStep(buf, i);
    if IsXonXoff(buf[i]) {
      FlowIsNotCan(buf[i]);
      NotPrintable(buf[i]);
      at := EndDecodes(buf, i + 1, end, rest, ctlIgnore);
    } else {
      SameHead(buf[i], Unflow(buf[i + 1..]), end, rest);
      at := i + 1;
    }
  }

  lemma {:induction false} FrameEndDecodes(buf: seq<byte>, i: nat, end: byte, rest: seq<byte>, ctlIgnore: bool)
    returns (at: nat)
    requires i <= |buf| && IsEnd(end)
    requires Unflow(buf[i..]) == [ZDLE, end] + rest
    ensures SubItem(buf, i, ctlIgnore) == End(end, at)
    ensures i < at <= |buf| && Unflow(buf[at..]) == rest
    decreases |buf| - i
  {
    hide SubEscaped;
    assert i < |buf|;
    UnflowStep(buf, i);
    if IsXonXoff(buf[i]) {
      FlowIsNotCan(buf[i]);
      at := FrameEndDecodes(buf, i + 1, end, rest, ctlIgnore);
    } else {
      assert [ZDLE, end] + rest == [ZDLE] + ([end] + rest);
      SameHead(buf[i], Unflow(buf[i + 1..]), ZDLE, [end] + rest);
      DleIsControl();
      at := EndDecodes(buf, i + 1, end, rest, ctlIgnore);
    }
  }

  lemma DleIsControl()
    ensures !Plain(ZDLE)
  {}

  lemma TrailerDecodes(r: Reader, crc32: bool, ctl: bool, buf: seq<byte>, i: nat, data: seq<byte>, end: byte,
                       rest: seq<byte>) returns (at: nat)
    requires i <= |buf|
    requires r.ctlIgnore ==> ctl
    requires Unflow(buf[i..]) == Escape(ctl, end, Trailer(r.sum, crc32, data + [end])) + rest
    ensures CheckSub(r, crc32, buf, i, data, end) == Sub(data, end, at)
    ensures i <= at <= |buf| && Unflow(buf[at..]) == rest
  {
    hide Escape;
    hide UnescapeN;
    var vals := Trailer(r.sum, crc32, data + [end]);
    at := ValuesDecode(buf, i, ctl, end, vals, rest, r.ctlIgnore);
    UnescapersAgree(buf, i, |vals|, r.ctlIgnore);
  }

  /** A frame end and its checksum, after the data `data`. */
  function Closing(r: Reader, crc32: bool, ctl: bool, data: seq<byte>, end: byte): seq<byte> {
    [ZDLE, end] + Escape(ctl, end, Trailer(r.sum, crc32, data + [end]))
  }

  lemma ClosingDecodes(r: Reader, crc32: bool, ctl: bool, max: nat, buf: seq<byte>, i: nat, data: seq<byte>, end: byte,
                       rest: seq<byte>) returns (at: nat)
    requires i <= |buf| && IsEnd(end)
    requires r.ctlIgnore ==> ctl
    requires Unflow(buf[i..]) == Closing(r, crc32, ctl, data, end) + rest
    ensures ReadSub(r, crc32, max, buf, i, data) == Sub(data, end, at)
    ensures i <= at <= |buf| && Unflow(buf[at..]) == rest
  {
    hide SubItem;
    hide CheckSub;
    hide Escape;
    SubItemBounds(buf, i, r.ctlIgnore);
    var check := Escape(ctl, end, Trailer(r.sum, crc32, data + [end]));
    assert Closing(r, crc32, ctl, data, end) + rest == [ZDLE, end] + (check + rest);
    var next := FrameEndDecodes(buf, i, end, check + rest, r.ctlIgnore);
    at := TrailerDecodes(r, crc32, ctl, buf, next, data, end, rest);
  }

  lemma DataDecodes(r: Reader, crc32: bool, ctl: bool, last: byte, max: nat, buf: seq<byte>, i: nat, data: seq<byte>,
                    b: byte, rest: seq<byte>) returns (at: nat)
    requires i <= |buf| && |data| < max
    requires r.ctlIgnore ==> ctl
    requires Unflow(buf[i..]) == EscapeByte(ctl, last, b) + rest
    ensures i < at <= |buf| && Unflow(buf[at..]) == rest
    ensures ReadSub(r, crc32, max, buf, i, data) == ReadSub(r, crc32, max, buf, at, data + [b])
  {
    hide SubItem;
    hide HdrItem;
    hide CheckSub;
    SubItemBounds(buf, i, r.ctlIgnore);
    at := ByteDecodes(buf, i, ctl, last, b, rest, r.ctlIgnore);
    ItemsAgree(buf, i, r.ctlIgnore);
  }

  /** The rest of a subpacket, once `data` has been read and `more` is to come. */
  lemma {:induction false} RestDecodes(r: Reader, crc32: bool, ctl: bool, last: byte, max: nat, buf: seq<byte>, i: nat,
                                       data: seq<byte>, more: seq<byte>, end: byte, rest: seq<byte>)
    returns (at: nat)
    requires i <= |buf| && IsEnd(end)
    requires r.ctlIgnore ==> ctl
    requires |data| + |more| <= max
    requires Unflow(buf[i..]) == Escape(ctl, last, more) + Closing(r, crc32, ctl, data + more, end) + rest
    ensures ReadSub(r, crc32, max, buf, i, data) == Sub(data + more, end, at)
    ensures i <= at <= |buf| && Unflow(buf[at..]) == rest
    decreases |more|
  {
    hide ReadSub;
    hide Unflow;
    hide EscapeByte;
    hide Closing;
    if more == [] {
      assert data + more == data;
      assert Escape(ctl, last, more) + Closing(r, crc32, ctl, data, end) + rest == Closing(r, crc32, ctl, data, end) + rest;
      at := ClosingDecodes(r, crc32, ctl, max, buf, i, data, end, rest);
    } else {
      var closing := Closing(r, crc32, ctl, data + more, end);
      var tail := Escape(ctl, more[0], more[1..]) + closing + rest;
      assert Escape(ctl, last, more) + closing + rest == EscapeByte(ctl, last, more[0]) + tail;
      var next := DataDecodes(r, crc32, ctl, last, max, buf, i, data, more[0], tail);
      assert data + [more[0]] + more[1..] == data + more;
      at := RestDecodes(r, crc32, ctl, more[0], max, buf, next, data + [more[0]], more[1..], end, rest);
    }
  }

  /** Round trip. `buf` is what arrives: the encoding, wherever the line put
      flow-control bytes in it, and then `rest`. A decoder may drop raw control
      bytes only when the encoder escaped them. */
  lemma SubpacketRoundTrip(r: Reader, crc32: bool, ctl: bool, last: byte, max: nat, data: seq<byte>, end: byte,
                           buf: seq<byte>, rest: seq<byte>) returns (at: nat)
    requires IsEnd(end) && |data| <= max
    requires r.ctlIgnore ==> ctl
    requires Unflow(buf) == Unflow(Subpacket(r.sum, crc32, ctl, last, data, end)) + rest
    ensures ReadSub(r, crc32, max, buf, 0, []) == Sub(data, end, at)
    ensures at <= |buf| && Unflow(buf[at..]) == rest
  {
    hide Unflow;
    hide Escape;
    hide ReadSub;
    var body := SubpacketBody(r.sum, crc32, ctl, last, data, end);
    UnflowConcat(body, AfterSubpacket(end));
    AfterIsFlow(end);
    BodyIsQuiet(r.sum, crc32, ctl, last, data, end);
    assert buf[0..] == buf;
    assert [] + data == data;
    assert body + rest == Escape(ctl, last, data) + Closing(r, crc32, ctl, data, end) + rest;
    assert Unflow(Subpacket(r.sum, crc32, ctl, last, data, end)) == body + [];
    at := RestDecodes(r, crc32, ctl, last, max, buf, 0, [], data, end, rest);
  }

  lemma AfterIsFlow(end: byte)
    ensures Unflow(AfterSubpacket(end)) == []
  {
    assert [XON][1..] == [];
  }

  lemma BodyIsQuiet(sum: Sum32, crc32: bool, ctl: bool, last: byte, data: seq<byte>, end: byte)
    requires IsEnd(end)
    ensures var body := SubpacketBody(sum, crc32, ctl, last, data, end);
            Unflow(body) == body
  {
    hide Escape;
    hide IsXonXoff;
    var check := Trailer(sum, crc32, data + [end]);
    EscapeIsQuiet(ctl, last, data);
    EscapeIsQuiet(ctl, end, check);
    FramingIsQuiet(end);
    QuietConcat(Escape(ctl, last, data), [ZDLE, end]);
    QuietConcat(Escape(ctl, last, data) + [ZDLE, end], Escape(ctl, end, check));
    UnflowQuiet(SubpacketBody(sum, crc32, ctl, last, data, end));
  }
}
