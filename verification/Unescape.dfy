/** The two unescapers: the one that reads the fixed number of values of a
    binary header out of a buffer, and the one that reads a data subpacket one
    value at a time. Both are proved to undo the escaper. */
module Unescape {
  import opened Crc
  import opened Proto

  /** One decoded value, or why there is none. `at` is the index after it. */
  datatype Item =
    | More
    | Data(v: byte, at: nat)
    | End(e: byte, at: nat)
    | Bad(at: nat)
    | Cancel(at: nat)

  /** Five CAN in a row, the ZDLE included, abort the session. */
  const CANCEL_RUN: nat := 5

  predicate Skipped(c: byte, ctlIgnore: bool) {
    IsXonXoff(c) || (ctlIgnore && !Plain(c))
  }

  // ---- values of a binary header ----

  function HdrItem(buf: seq<byte>, i: nat, ctlIgnore: bool): Item
    requires i <= |buf|
    decreases |buf| - i
  {
    if i == |buf| then More
    else if Plain(buf[i]) then Data(buf[i], i + 1)
    else if buf[i] == ZDLE then HdrEscaped(buf, i + 1, 1, ctlIgnore)
    else if IsXonXoff(buf[i]) || ctlIgnore then HdrItem(buf, i + 1, ctlIgnore)
    else Data(buf[i], i + 1)
  }

  /** After a ZDLE and `cans - 1` further CAN. A frame end in a header is an error. */
  function HdrEscaped(buf: seq<byte>, i: nat, cans: nat, ctlIgnore: bool): Item
    requires i <= |buf|
    decreases |buf| - i
  {
    if i == |buf| then More
    else if buf[i] == CAN then
      if cans + 1 >= CANCEL_RUN then Cancel(i + 1) else HdrEscaped(buf, i + 1, cans + 1, ctlIgnore)
    else if Skipped(buf[i], ctlIgnore) then HdrEscaped(buf, i + 1, cans, ctlIgnore)
    else if cans > 1 then Bad(i + 1)
    else HdrPair(buf[i], i + 1)
  }

  function HdrPair(c: byte, at: nat): Item {
    if c == ZRUB0 then Data(0x7f, at)
    else if c == ZRUB1 then Data(0xff, at)
    else if Escapee(c) then Data(Toggle(c), at)
    else Bad(at)
  }

  predicate Escapee(c: byte) {
    c & 0x60 == 0x40
  }

  /** Values read, or: input ran out, a value was malformed (or was the frame
      end `isEnd` says it was), or the peer cancelled. */
  datatype Values = Need | Got(vals: seq<byte>, at: nat) | Broken(at: nat, isEnd: bool) | Stopped(at: nat)

  function UnescapeN(buf: seq<byte>, i: nat, n: nat, ctlIgnore: bool): Values
    requires i <= |buf|
    decreases n
  {
    if n == 0 then Got([], i)
    else
      match HdrItem(buf, i, ctlIgnore)
      case More => Need
      case Data(v, at) => HdrItemBounds(buf, i, ctlIgnore); Before(v, UnescapeN(buf, at, n - 1, ctlIgnore))
      case Cancel(at) => Stopped(at)
      case Bad(at) => Broken(at, false)
      case End(_, at) => Broken(at, true)
  }

  function Before(v: byte, rest: Values): Values {
    match rest
    case Got(vals, at) => Got([v] + vals, at)
    case _ => rest
  }

  function After(vals: seq<byte>, rest: Values): Values {
    match rest
    case Got(more, at) => Got(vals + more, at)
    case _ => rest
  }

  lemma HdrItemBounds(buf: seq<byte>, i: nat, ctlIgnore: bool)
    requires i <= |buf|
    ensures var r := HdrItem(buf, i, ctlIgnore);
            !r.More? ==> i < r.at <= |buf|
    ensures !HdrItem(buf, i, ctlIgnore).End?
    decreases |buf| - i
  {
    if i < |buf| {
      if buf[i] == ZDLE {
        HdrEscapedBounds(buf, i + 1, 1, ctlIgnore);
      } else {
        HdrItemBounds(buf, i + 1, ctlIgnore);
      }
    }
  }

  lemma HdrEscapedBounds(buf: seq<byte>, i: nat, cans: nat, ctlIgnore: bool)
    requires i <= |buf|
    ensures var r := HdrEscaped(buf, i, cans, ctlIgnore);
            !r.More? ==> i < r.at <= |buf|
    ensures !HdrEscaped(buf, i, cans, ctlIgnore).End?
    decreases |buf| - i
  {
    if i < |buf| {
      HdrEscapedBounds(buf, i + 1, cans, ctlIgnore);
      HdrEscapedBounds(buf, i + 1, cans + 1, ctlIgnore);
    }
  }

  method ReadEscaped(buf: seq<byte>, start: nat, ctlIgnore: bool) returns (r: Item)
    requires start <= |buf|
    ensures r == HdrEscaped(buf, start, 1, ctlIgnore)
  {
    var i, cans := start, 1;
    while i < |buf|
      invariant start <= i <= |buf|
      invariant HdrEscaped(buf, start, 1, ctlIgnore) == HdrEscaped(buf, i, cans, ctlIgnore)
    {
      var c := buf[i];
      i := i + 1;
      if c == CAN {
        cans := cans + 1;
        if cans >= CANCEL_RUN {
          return Cancel(i);
        }
      } else if !Skipped(c, ctlIgnore) {
        if cans > 1 {
          return Bad(i);
        }
        return HdrPair(c, i);
      }
    }
    return More;
  }

  method UnescapeLoop(buf: seq<byte>, n: nat, ctlIgnore: bool) returns (r: Values)
    ensures r == UnescapeN(buf, 0, n, ctlIgnore)
  {
    hide HdrEscaped;
    var vals, i := [], 0;
    AfterNothing(UnescapeN(buf, 0, n, ctlIgnore));
    while |vals| < n
      invariant i <= |buf| && |vals| <= n
      invariant UnescapeN(buf, 0, n, ctlIgnore) == After(vals, UnescapeN(buf, i, n - |vals|, ctlIgnore))
      decreases |buf| - i
    {
      if i >= |buf| {
        return Need;
      }
      var c := buf[i];
      ghost var start := i;
      i := i + 1;
      if c == ZDLE {
        var e := ReadEscaped(buf, i, ctlIgnore);
        HdrEscapedBounds(buf, i, 1, ctlIgnore);
        match e
        case More => return Need;
        case Cancel(at) => return Stopped(at);
        case Bad(at) => return Broken(at, false);
        case Data(v, at) =>
          Regroup(vals, v, UnescapeN(buf, at, n - |vals| - 1, ctlIgnore));
          vals, i := vals + [v], at;
      } else if Plain(c) || !(IsXonXoff(c) || ctlIgnore) {
        Regroup(vals, c, UnescapeN(buf, i, n - |vals| - 1, ctlIgnore));
        vals := vals + [c];
      }
    }
    assert vals + [] == vals;
    return Got(vals, i);
  }

  lemma AfterNothing(rest: Values)
    ensures After([], rest) == rest
  {
    if rest.Got? {
      assert [] + rest.vals == rest.vals;
    }
  }

  lemma Regroup(vals: seq<byte>, v: byte, rest: Values)
    ensures After(vals, Before(v, rest)) == After(vals + [v], rest)
  {
    if rest.Got? {
      assert vals + ([v] + rest.vals) == vals + [v] + rest.vals;
    }
  }

  // ---- values of a data subpacket ----

  function SubItem(buf: seq<byte>, i: nat, ctlIgnore: bool): Item
    requires i <= |buf|
    decreases |buf| - i
  {
    if i == |buf| then More
    else if Plain(buf[i]) then Data(buf[i], i + 1)
    else if buf[i] == ZDLE then SubEscaped(buf, i + 1, 1, ctlIgnore)
    else if IsXonXoff(buf[i]) || ctlIgnore then SubItem(buf, i + 1, ctlIgnore)
    else Data(buf[i], i + 1)
  }

  function SubEscaped(buf: seq<byte>, i: nat, cans: nat, ctlIgnore: bool): Item
    requires i <= |buf|
    decreases |buf| - i
  {
    if i == |buf| then More
    else if buf[i] == CAN then
      if cans + 1 >= CANCEL_RUN then Cancel(i + 1) else SubEscaped(buf, i + 1, cans + 1, ctlIgnore)
    else if cans > 1 then Bad(i + 1)
    else if SubSkips(buf[i], ctlIgnore) then SubEscaped(buf, i + 1, cans, ctlIgnore)
    else SubPair(buf[i], i + 1)
  }

  /** Frame ends and rubouts are recognised before raw control bytes are dropped. */
  predicate SubSkips(c: byte, ctlIgnore: bool) {
    !IsEnd(c) && c != ZRUB0 && c != ZRUB1 && Skipped(c, ctlIgnore)
  }

  function SubPair(c: byte, at: nat): Item {
    if IsEnd(c) then End(c, at)
    else if c == ZRUB0 then Data(0x7f, at)
    else if c == ZRUB1 then Data(0xff, at)
    else if Escapee(c) then Data(Toggle(c), at)
    else Bad(at)
  }

  lemma SubItemBounds(buf: seq<byte>, i: nat, ctlIgnore: bool)
    requires i <= |buf|
    ensures var r := SubItem(buf, i, ctlIgnore);
            !r.More? ==> i < r.at <= |buf|
    decreases |buf| - i
  {
    if i < |buf| {
      if buf[i] == ZDLE {
        SubEscapedBounds(buf, i + 1, 1, ctlIgnore);
      } else {
        SubItemBounds(buf, i + 1, ctlIgnore);
      }
    }
  }

  lemma SubEscapedBounds(buf: seq<byte>, i: nat, cans: nat, ctlIgnore: bool)
    requires i <= |buf|
    ensures var r := SubEscaped(buf, i, cans, ctlIgnore);
            !r.More? ==> i < r.at <= |buf|
    decreases |buf| - i
  {
    if i < |buf| {
      SubEscapedBounds(buf, i + 1, cans, ctlIgnore);
      SubEscapedBounds(buf, i + 1, cans + 1, ctlIgnore);
    }
  }

  /** `n` values, none of them a frame end: how the checksum of a subpacket is read. */
  function SubValues(buf: seq<byte>, i: nat, n: nat, ctlIgnore: bool): Values
    requires i <= |buf|
    decreases n
  {
    if n == 0 then Got([], i)
    else
      match SubItem(buf, i, ctlIgnore)
      case More => Need
      case Data(v, at) => SubItemBounds(buf, i, ctlIgnore); Before(v, SubValues(buf, at, n - 1, ctlIgnore))
      case Cancel(at) => Stopped(at)
      case Bad(at) => Broken(at, false)
      case End(_, at) => Broken(at, true)
  }

  // ---- the two agree ----

  lemma {:induction false} EscapedAgree(buf: seq<byte>, i: nat, ctlIgnore: bool)
    requires i <= |buf|
    requires HdrEscaped(buf, i, 1, ctlIgnore).Data?
    ensures SubEscaped(buf, i, 1, ctlIgnore) == HdrEscaped(buf, i, 1, ctlIgnore)
    decreases |buf| - i
  {
    if buf[i] == CAN {
      ManyCans(buf, i + 1, 2, ctlIgnore);
    } else if Skipped(buf[i], ctlIgnore) {
      NotPrintable(buf[i]);
      EscapedAgree(buf, i + 1, ctlIgnore);
    } else {
      FrameEndsAreNotEscapees(buf[i]);
    }
  }

  /** More than one CAN never decodes to a value. */
  lemma {:induction false} ManyCans(buf: seq<byte>, i: nat, cans: nat, ctlIgnore: bool)
    requires i <= |buf| && cans > 1
    ensures !HdrEscaped(buf, i, cans, ctlIgnore).Data?
    decreases |buf| - i
  {
    if i < |buf| {
      ManyCans(buf, i + 1, cans, ctlIgnore);
      ManyCans(buf, i + 1, cans + 1, ctlIgnore);
    }
  }

  lemma FrameEndsAreNotEscapees(c: byte)
    ensures IsEnd(c) ==> !Escapee(c) && c != ZRUB0 && c != ZRUB1
  {}

  lemma NotPrintable(c: byte)
    ensures IsXonXoff(c) ==> !Plain(c)
    ensures !Plain(c) ==> !IsEnd(c) && c != ZRUB0 && c != ZRUB1
  {}

  lemma {:induction false} ItemsAgree(buf: seq<byte>, i: nat, ctlIgnore: bool)
    requires i <= |buf|
    requires HdrItem(buf, i, ctlIgnore).Data?
    ensures SubItem(buf, i, ctlIgnore) == HdrItem(buf, i, ctlIgnore)
    decreases |buf| - i
  {
    if Plain(buf[i]) {
    } else if buf[i] == ZDLE {
      EscapedAgree(buf, i + 1, ctlIgnore);
    } else if IsXonXoff(buf[i]) || ctlIgnore {
      ItemsAgree(buf, i + 1, ctlIgnore);
    }
  }

  /** Whenever the header unescaper succeeds, the subpacket reader, asked for
      as many values, returns the same ones and consumes the same bytes. */
  lemma {:induction false} UnescapersAgree(buf: seq<byte>, i: nat, n: nat, ctlIgnore: bool)
    requires i <= |buf|
    requires UnescapeN(buf, i, n, ctlIgnore).Got?
    ensures SubValues(buf, i, n, ctlIgnore) == UnescapeN(buf, i, n, ctlIgnore)
    decreases n
  {
    if n > 0 {
      ItemsAgree(buf, i, ctlIgnore);
      HdrItemBounds(buf, i, ctlIgnore);
      UnescapersAgree(buf, HdrItem(buf, i, ctlIgnore).at, n - 1, ctlIgnore);
    }
  }

  // ---- decoding undoes encoding, whatever XON and XOFF bytes the line adds ----

  /** `s` without raw flow-control bytes. */
  function Unflow(s: seq<byte>): seq<byte> {
    if s == [] then [] else (if IsXonXoff(s[0]) then [] else [s[0]]) + Unflow(s[1..])
  }

  lemma {:induction false} UnflowConcat(a: seq<byte>, b: seq<byte>)
    ensures Unflow(a + b) == Unflow(a) + Unflow(b)
  {
    if a == [] {
      assert a + b == b;
    } else {
      assert (a + b)[1..] == a[1..] + b;
      UnflowConcat(a[1..], b);
    }
  }

  /** Bytes among which there is no flow control. */
  ghost predicate Quiet(s: seq<byte>) {
    forall k :: 0 <= k < |s| ==> !IsXonXoff(s[k])
  }

  lemma {:induction false} UnflowQuiet(s: seq<byte>)
    requires Quiet(s)
    ensures Unflow(s) == s
  {
    if s != [] {
      QuietSuffix(s, 1);
      UnflowQuiet(s[1..]);
    }
  }

  lemma QuietSuffix(s: seq<byte>, k: nat)
    requires Quiet(s) && k <= |s|
    ensures Quiet(s[k..])
  {
    hide IsXonXoff;
  }

  lemma QuietConcat(a: seq<byte>, b: seq<byte>)
    requires Quiet(a) && Quiet(b)
    ensures Quiet(a + b)
  {
    hide IsXonXoff;
  }

  lemma EscapeByteIsQuiet(ctl: bool, last: byte, b: byte)
    ensures Quiet(EscapeByte(ctl, last, b))
  {
    hide Needs;
    NeedsEscaping(ctl, last, b);
    FramingIsQuiet(Toggle(b));
  }

  lemma FramingIsQuiet(c: byte)
    ensures Escapee(c) || IsEnd(c) || c == ZDLE ==> !IsXonXoff(c)
    ensures !IsXonXoff(ZDLE)
  {}

  lemma {:induction false} EscapeIsQuiet(ctl: bool, last: byte, data: seq<byte>)
    ensures Quiet(Escape(ctl, last, data))
    decreases |data|
  {
    hide Quiet;
    if data == [] {
      NothingIsQuiet();
    } else {
      EscapeByteIsQuiet(ctl, last, data[0]);
      EscapeIsQuiet(ctl, data[0], data[1..]);
      QuietConcat(EscapeByte(ctl, last, data[0]), Escape(ctl, data[0], data[1..]));
    }
  }

  lemma NothingIsQuiet()
    ensures Quiet([])
  {}

  lemma SameHead(x: byte, a: seq<byte>, y: byte, b: seq<byte>)
    requires [x] + a == [y] + b
    ensures x == y && a == b
  {
    assert a == ([x] + a)[1..] == ([y] + b)[1..] == b;
    assert x == ([x] + a)[0] == ([y] + b)[0] == y;
  }

  lemma UnflowStep(buf: seq<byte>, i: nat)
    requires i < |buf|
    ensures Unflow(buf[i..]) == (if IsXonXoff(buf[i]) then [] else [buf[i]]) + Unflow(buf[i + 1..])
  {
    assert buf[i..][1..] == buf[i + 1..];
  }

  lemma {:induction false} EscapedPairDecodes(buf: seq<byte>, i: nat, c: byte, rest: seq<byte>, ctlIgnore: bool)
    returns (at: nat)
    requires i <= |buf|
    requires Escapee(c)
    requires Unflow(buf[i..]) == [c] + rest
    ensures HdrEscaped(buf, i, 1, ctlIgnore) == Data(Toggle(c), at)
    ensures i < at <= |buf| && Unflow(buf[at..]) == rest
    decreases |buf| - i
  {
    assert i < |buf|;
    UnflowStep(buf, i);
    if IsXonXoff(buf[i]) {
      FlowIsNotCan(buf[i]);
      at := EscapedPairDecodes(buf, i + 1, c, rest, ctlIgnore);
    } else {
      SameHead(buf[i], Unflow(buf[i + 1..]), c, rest);
      EscapeeIsPlain(c);
      at := i + 1;
    }
  }

  lemma FlowIsNotCan(c: byte)
    ensures IsXonXoff(c) ==> c != CAN && !Plain(c)
  {}

  lemma EscapeeIsPlain(c: byte)
    requires Escapee(c)
    ensures Plain(c) && c != CAN && !IsXonXoff(c) && c != ZRUB0 && c != ZRUB1
  {}

  lemma NeedsEscaping(ctl: bool, last: byte, b: byte)
    ensures Needs(ctl, last, b) ==> Escapee(Toggle(b)) && Toggle(Toggle(b)) == b && !Plain(b)
    ensures !Needs(ctl, last, b) ==> b != ZDLE && !IsXonXoff(b) && (ctl ==> Plain(b))
  {}

  /** One escaped byte, with any flow-control bytes among it, decodes to itself. */
  lemma {:induction false} ByteDecodes(buf: seq<byte>, i: nat, ctl: bool, last: byte, b: byte, rest: seq<byte>,
                                       ctlIgnore: bool) returns (at: nat)
    requires i <= |buf|
    requires ctlIgnore ==> ctl
    requires Unflow(buf[i..]) == EscapeByte(ctl, last, b) + rest
    ensures HdrItem(buf, i, ctlIgnore) == Data(b, at)
    ensures i < at <= |buf| && Unflow(buf[at..]) == rest
    decreases |buf| - i
  {
    assert i < |buf|;
    UnflowStep(buf, i);
    NeedsEscaping(ctl, last, b);
    if IsXonXoff(buf[i]) {
      FlowIsNotCan(buf[i]);
      at := ByteDecodes(buf, i + 1, ctl, last, b, rest, ctlIgnore);
    } else if Needs(ctl, last, b) {
      assert [ZDLE, Toggle(b)] + rest == [ZDLE] + ([Toggle(b)] + rest);
      SameHead(buf[i], Unflow(buf[i + 1..]), ZDLE, [Toggle(b)] + rest);
      at := EscapedPairDecodes(buf, i + 1, Toggle(b), rest, ctlIgnore);
    } else {
      SameHead(buf[i], Unflow(buf[i + 1..]), b, rest);
      at := i + 1;
    }
  }

  /** `vals`, escaped, decode to `vals` and leave exactly what follows. */
  lemma {:induction false} ValuesDecode(buf: seq<byte>, i: nat, ctl: bool, last: byte, vals: seq<byte>, rest: seq<byte>,
                                        ctlIgnore: bool) returns (at: nat)
    requires i <= |buf|
    requires ctlIgnore ==> ctl
    requires Unflow(buf[i..]) == Escape(ctl, last, vals) + rest
    ensures UnescapeN(buf, i, |vals|, ctlIgnore) == Got(vals, at)
    ensures i <= at <= |buf| && Unflow(buf[at..]) == rest
    decreases |vals|
  {
    hide HdrItem;
    hide EscapeByte;
    if vals == [] {
      at := i;
      assert [] + rest == rest;
    } else {
      var tail := Escape(ctl, vals[0], vals[1..]) + rest;
      assert Escape(ctl, last, vals) + rest == EscapeByte(ctl, last, vals[0]) + tail;
      var next := ByteDecodes(buf, i, ctl, last, vals[0], tail, ctlIgnore);
      at := ValuesDecode(buf, next, ctl, vals[0], vals[1..], rest, ctlIgnore);
      assert [vals[0]] + vals[1..] == vals;
    }
  }
}
