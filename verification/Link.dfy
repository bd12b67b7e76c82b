/** The byte link under one session. However the line cuts the stream into
    reads, the link behaves as a queue of the stream's events: `Upcoming` is that
    queue, and every read takes its first element. */
module Link {
  import opened Crc
  import opened Proto
  import opened Unescape
  import opened Scan
  import opened Splits
  import opened Subpackets

  datatype ReadResult = Ready(h: Header) | BadHeader | PeerCancel | Timeout

  /** One value of a data subpacket, or why there is none. */
  datatype Value = Byte(v: byte) | FrameEnd(e: byte) | Malformed | Aborted | TooLate

  datatype SubRead = Packet(data: seq<byte>, end: byte) | TooLong | Damaged | UnexpectedEnd | PeerGone | Late

  /** The flow state after one raw byte. */
  function FlowStep(xoff: bool, c: byte): bool {
    if IsXonXoff(c) then Like(c, XOFF) else xoff
  }

  /** The flow state after the raw bytes `s`: the last XON or XOFF decides. */
  function FlowAfter(xoff: bool, s: seq<byte>): bool
    decreases |s|
  {
    if s == [] then xoff else FlowStep(FlowAfter(xoff, s[..|s| - 1]), s[|s| - 1])
  }

  lemma FlowAfterNext(xoff: bool, s: seq<byte>, i: nat)
    requires i < |s|
    ensures FlowAfter(xoff, s[..i + 1]) == FlowStep(FlowAfter(xoff, s[..i]), s[i])
  {
    assert s[..i + 1][..i] == s[..i];
  }

  lemma NothingFlows(xoff: bool)
    ensures Unflow([]) == [] && FlowAfter(xoff, []) == xoff
  {}

  lemma UnflowNext(s: seq<byte>, i: nat)
    requires i < |s|
    ensures Unflow(s[..i + 1]) == Unflow(s[..i]) + if IsXonXoff(s[i]) then [] else [s[i]]
  {
    assert s[..i + 1] == s[..i] + [s[i]];
    UnflowConcat(s[..i], [s[i]]);
    assert [s[i]][1..] == [];
  }

  /** Events without the damaged headers at their front. */
  function SkipBad(evs: seq<Event>): seq<Event> {
    if evs != [] && evs[0] == BadHdr then SkipBad(evs[1..]) else evs
  }

  lemma FlowStepIs(xoff: bool, c: byte)
    ensures FlowStep(xoff, c) == if c == 0x13 || c == 0x93 then true else if c == 0x11 || c == 0x91 then false else xoff
  {}

  /** The last XON or XOFF, with or without its high bit, decides whether output is held. */
  lemma {:induction false} LastFlowDecides(xoff: bool, s: seq<byte>, k: nat)
    requires k < |s| && s[k] in {0x11, 0x13, 0x91, 0x93} && forall i :: k < i < |s| ==> s[i] !in {0x11, 0x13, 0x91, 0x93}
    ensures FlowAfter(xoff, s) <==> s[k] == 0x13 || s[k] == 0x93
    decreases |s|
  {
    hide FlowStep;
    var n := |s| - 1;
    FlowStepIs(FlowAfter(xoff, s[..n]), s[n]);
    if k < n {
      LastFlowDecides(xoff, s[..n], k);
    }
  }

  lemma {:induction false} NoFlowKeeps(xoff: bool, s: seq<byte>)
    requires forall i :: 0 <= i < |s| ==> s[i] !in {0x11, 0x13, 0x91, 0x93}
    ensures FlowAfter(xoff, s) == xoff && Unflow(s) == s
  {
    hide FlowStep;
    hide IsXonXoff;
    if s != [] {
      var n := |s| - 1;
      NoFlowKeeps(xoff, s[..n]);
      FlowStepIs(xoff, s[n]);
      NotFlow(s[n]);
      UnflowNext(s, n);
      assert s[..n] + [s[n]] == s && s[..n + 1] == s;
    }
  }

  lemma NotFlow(c: byte)
    ensures IsXonXoff(c) <==> c in {0x11, 0x13, 0x91, 0x93}
  {}

  /** Passing over damaged headers passes over nothing else. */
  lemma {:induction false} SkipBadIs(evs: seq<Event>)
    ensures var r := SkipBad(evs);
            && |r| <= |evs| && r == evs[|evs| - |r|..] && (r != [] ==> r[0] != BadHdr)
            && forall i :: 0 <= i < |evs| - |r| ==> evs[i] == BadHdr
    decreases |evs|
  {
    if evs != [] && evs[0] == BadHdr {
      SkipBadIs(evs[1..]);
      var r := SkipBad(evs);
      assert evs[1..][|evs| - 1 - |r|..] == evs[|evs| - |r|..];
      forall i | 0 <= i < |evs| - |r|
        ensures evs[i] == BadHdr
      {
        if i > 0 {
          assert evs[i] == evs[1..][i - 1];
        }
      }
    }
  }

  class ZLink {
    const sum: Sum32
    var ctlIgnore: bool
    /** A sender takes raw XON and XOFF out of the stream as flow control. */
    var flow: bool
    var xoff: bool
    /** Set once the peer has given up; nothing more is written. */
    var gone: bool
    /** A header read ahead and put back. */
    var held: Option<Header>
    var pending: seq<byte>
    /** The reads still to come, in order. */
    var rx: seq<seq<byte>>
    /** Everything written. */
    var sent: seq<byte>

    constructor (sum: Sum32, rx: seq<seq<byte>>)
      ensures this.sum == sum && this.rx == rx
      ensures !ctlIgnore && !flow && !xoff && !gone && held.None? && pending == [] && sent == []
    {
      this.sum, this.rx := sum, rx;
      ctlIgnore, flow, xoff, gone, held, pending, sent := false, false, false, false, None, [], [];
    }

    function AsReader(): Reader
      reads this
    {
      Reader(sum, ctlIgnore)
    }

    function Cooked(s: seq<byte>): seq<byte>
      reads this`flow
    {
      if flow then Unflow(s) else s
    }

    /** The first `n` reads and what is pending. */
    function Arriving(n: nat): seq<byte>
      reads this`pending, this`rx, this`flow
      requires n <= |rx|
    {
      pending + Cooked(Flat(rx[..n]))
    }

    /** Every byte not yet consumed. */
    function Rest(): seq<byte>
      reads this
    {
      pending + Cooked(Flat(rx))
    }

    function Upcoming(): seq<Event>
      reads this
    {
      var coming := Events(AsReader(), Rest());
      if held.Some? then [Hdr(held.value)] + coming else coming
    }

    /** What reading never changes. */
    twostate predicate SameMode()
      reads this
    {
      ctlIgnore == old(ctlIgnore) && flow == old(flow) && sent == old(sent)
    }

    method Write(data: seq<byte>) returns (ok: bool)
      modifies this`sent
      ensures ok == !gone
      ensures sent == if gone then old(sent) else old(sent) + data
    {
      ok := !gone;
      if ok {
        sent := sent + data;
      }
    }

    method FlowControl(data: seq<byte>) returns (out: seq<byte>)
      modifies this`xoff
      ensures out == Unflow(data)
      ensures xoff == FlowAfter(old(xoff), data)
    {
      hide Like;
      hide IsXonXoff;
      hide Unflow;
      hide FlowAfter;
      NothingFlows(old(xoff));
      out := [];
      assert data[..0] == [];
      for i := 0 to |data|
        invariant out == Unflow(data[..i])
        invariant xoff == FlowAfter(old(xoff), data[..i])
      {
        UnflowNext(data, i);
        FlowAfterNext(old(xoff), data, i);
        var b := data[i];
        if IsXonXoff(b) {
          xoff := Like(b, XOFF);
        } else {
          out := out + [b];
        }
      }
      assert data[..|data|] == data;
    }

    /** One more read arrives. */
    method Take()
      requires rx != []
      modifies this`pending, this`rx, this`xoff
      ensures pending == old(pending) + Cooked(old(rx)[0])
      ensures rx == old(rx)[1..]
      ensures xoff == if flow then FlowAfter(old(xoff), old(rx)[0]) else old(xoff)
      ensures Rest() == old(Rest())
      ensures forall n :: 0 < n <= |old(rx)| ==> Arriving(n - 1) == old(Arriving(n))
    {
      hide Unflow;
      hide FlowAfter;
      var data := rx[0];
      rx := rx[1..];
      CookedJoin(old(rx));
      forall n | 0 < n <= |old(rx)|
        ensures Cooked(Flat(old(rx)[..n])) == Cooked(data) + Cooked(Flat(rx[..n - 1]))
      {
        CookedJoin(old(rx)[..n]);
        assert old(rx)[..n][1..] == rx[..n - 1];
      }
      if flow {
        data := FlowControl(data);
      }
      pending := pending + data;
    }

    lemma CookedJoin(chunks: seq<seq<byte>>)
      requires chunks != []
      ensures Cooked(Flat(chunks)) == Cooked(chunks[0]) + Cooked(Flat(chunks[1..]))
    {
      UnflowConcat(chunks[0], Flat(chunks[1..]));
    }

    /** Everything that has arrived is moved to pending; one scan of it. */
    method Scan() returns (f: Found)
      modifies this`pending
      ensures f == ScanHeader(AsReader(), old(pending))
      ensures pending == old(pending)[if f.NeedMore? then f.start else f.end..]
      ensures ScanTells(AsReader(), f, old(pending), Cooked(Flat(rx)))
      ensures f.NeedMore? ==> Events(AsReader(), pending) == []
    {
      hide ScanHeader;
      hide Events;
      hide Unflow;
      f := ScanLoop(AsReader(), pending);
      ScanPrefix(AsReader(), pending, Cooked(Flat(rx)));
      if f.NeedMore? {
        ScanPrefix(AsReader(), pending, []);
        ScanExhausts(AsReader(), pending);
        assert pending + [] == pending;
        pending := pending[f.start..];
        assert pending + [] == pending;
      } else {
        pending := pending[f.end..];
      }
    }

    /** A header among the first `arrived` reads, without waiting; damaged
        headers are passed over. */
    method PollHeader(arrived: nat) returns (h: Option<Header>, cancelled: bool)
      requires arrived <= |rx|
      modifies this
      ensures SameMode() && (h.Some? ==> !cancelled)
      ensures gone == (old(gone) || cancelled)
      ensures h.Some? ==> SkipBad(old(Upcoming())) == [Hdr(h.value)] + Upcoming()
      ensures cancelled ==> SkipBad(old(Upcoming())) == [Cancelled]
      ensures h.None? && !cancelled ==>
                SkipBad(old(Upcoming())) == SkipBad(Upcoming()) && Events(AsReader(), pending) == []
    {
      hide Events;
      hide ScanHeader;
      hide Unflow;
      hide FlowAfter;
      cancelled := false;
      if held.Some? {
        h := held;
        held := None;
        return;
      }
      ghost var all := Upcoming();
      GatherReads(arrived);
      while true
        invariant held.None? && gone == old(gone) && SameMode()
        invariant SkipBad(Upcoming()) == SkipBad(all)
        decreases |pending|
      {
        ghost var before := Upcoming();
        var f := Scan();
        match f
        case NeedMore(_) => return None, false;
        case Found(Hdr(found), _, _) => return Some(found), false;
        case Found(Cancelled, _, _) =>
          gone := true;
          return None, true;
        case Found(BadHdr, _, _) =>
          assert before[1..] == Upcoming();
      }
    }

    method GatherReads(arrived: nat)
      requires arrived <= |rx|
      modifies this`pending, this`rx, this`xoff
      ensures Rest() == old(Rest()) && pending == old(Arriving(arrived)) && rx == old(rx)[arrived..]
    {
      hide Unflow;
      hide Flat;
      hide FlowAfter;
      var n: nat := arrived;
      while n > 0
        invariant n <= arrived && n <= |rx|
        invariant rx == old(rx)[arrived - n..]
        invariant Rest() == old(Rest()) && Arriving(n) == old(Arriving(arrived))
      {
        Take();
        n := n - 1;
      }
      NothingCooks();
    }

    lemma NothingCooks()
      ensures Arriving(0) == pending
    {}

    /** The next header, if it arrives within the next `patience` reads. A
        damaged one is reported too. */
    method ReadHeader(patience: nat) returns (res: ReadResult)
      requires patience <= |rx|
      modifies this
      ensures SameMode()
      ensures gone == (old(gone) || res.PeerCancel?)
      ensures match res
              case Ready(h) => old(Upcoming()) == [Hdr(h)] + Upcoming()
              case BadHeader => old(Upcoming()) == [BadHdr] + Upcoming()
              case PeerCancel => old(Upcoming()) == [Cancelled]
              case Timeout => old(Upcoming()) == Upcoming() && Events(AsReader(), pending) == []
                              && |rx| == |old(rx)| - patience
    {
      hide Events;
      hide ScanHeader;
      hide Unflow;
      hide FlowAfter;
      if held.Some? {
        var h := held.value;
        held := None;
        return Ready(h);
      }
      var left: nat := patience;
      while true
        invariant left <= patience && left <= |rx| && |rx| - left == |old(rx)| - patience
        invariant held.None? && gone == old(gone) && SameMode()
        invariant Upcoming() == old(Upcoming())
        decreases left
      {
        var f := Scan();
        match f
        case Found(Hdr(h), _, _) => return Ready(h);
        case Found(Cancelled, _, _) =>
          gone := true;
          return PeerCancel;
        case Found(BadHdr, _, _) => return BadHeader;
        case NeedMore(_) =>
          if left == 0 {
            return Timeout;
          }
          Take();
          left := left - 1;
      }
    }

    /** Reads a byte is taken from: `avail` is all that can arrive in time, `i`
        of it is consumed and `left` reads of it are still to be taken; `later`
        is what will come too late. */
    ghost predicate At(avail: seq<byte>, i: nat, left: nat, later: seq<seq<byte>>)
      reads this`pending, this`rx, this`flow
    {
      left <= |rx| && i <= |avail| && avail[i..] == Arriving(left) && later == rx[left..]
    }

    method ReadByte(patience: nat, ghost avail: seq<byte>, ghost i: nat, ghost later: seq<seq<byte>>)
      returns (b: Option<byte>, left: nat)
      requires At(avail, i, patience, later)
      modifies this`pending, this`rx, this`xoff
      ensures left <= patience
      ensures b.None? ==> i == |avail| && At(avail, i, left, later)
      ensures b.Some? ==> i < |avail| && b.value == avail[i] && At(avail, i + 1, left, later)
    {
      hide Unflow;
      hide FlowAfter;
      hide Cooked;
      hide Flat;
      left := patience;
      while |pending| == 0
        invariant left <= patience && At(avail, i, left, later)
        decreases left
      {
        if left == 0 {
          NothingCooks();
          return None, 0;
        }
        Take();
        left := left - 1;
      }
      FirstOf(pending, Cooked(Flat(rx[..left])));
      assert avail[i..][0] == avail[i] && avail[i..][1..] == avail[i + 1..];
      b := Some(pending[0]);
      pending := pending[1..];
    }

    lemma FirstOf(a: seq<byte>, b: seq<byte>)
      requires a != []
      ensures (a + b)[0] == a[0] && (a + b)[1..] == a[1..] + b
    {}

    lemma AtBounds(avail: seq<byte>, i: nat, left: nat, later: seq<seq<byte>>)
      requires At(avail, i, left, later)
      ensures i <= |avail|
    {}

    /** How a value of a subpacket comes back from `item`. */
    static function ValueOf(item: Item): Value {
      match item
      case More => TooLate
      case Data(v, _) => Byte(v)
      case End(e, _) => FrameEnd(e)
      case Bad(_) => Malformed
      case Cancel(_) => Aborted
    }

    static function NextAfter(item: Item, n: nat): nat {
      if item.More? then n else item.at
    }

    method ReadEscaped(patience: nat, ghost avail: seq<byte>, ghost i: nat, ghost later: seq<seq<byte>>)
      returns (v: Value, left: nat)
      requires At(avail, i, patience, later)
      modifies this`pending, this`rx, this`xoff, this`gone
      ensures left <= patience && gone == (old(gone) || v.Aborted?)
      ensures var item := SubEscaped(avail, i, 1, ctlIgnore);
              v == ValueOf(item) && At(avail, NextAfter(item, |avail|), left, later)
    {
      hide Unflow;
      hide FlowAfter;
      hide SubSkips;
      hide SubPair;
      hide At;
      left := patience;
      var cans := 1;
      ghost var j: nat := i;
      AtBounds(avail, i, patience, later);
      while true
        invariant j <= |avail|
        invariant left <= patience && At(avail, j, left, later) && gone == old(gone)
        invariant SubEscaped(avail, i, 1, ctlIgnore) == SubEscaped(avail, j, cans, ctlIgnore)
        decreases |avail| - j
      {
        var b;
        b, left := ReadByte(left, avail, j, later);
        if b.None? {
          return TooLate, left;
        }
        j := j + 1;
        var c := b.value;
        if c == CAN {
          cans := cans + 1;
          if cans >= CANCEL_RUN {
            gone := true;
            return Aborted, left;
          }
        } else if cans > 1 {
          return Malformed, left;
        } else if !SubSkips(c, ctlIgnore) {
          PairBounds(c, j);
          return ValueOf(SubPair(c, 0)), left;
        }
      }
    }

    lemma PairBounds(c: byte, at: nat)
      ensures !SubPair(c, at).More? && !SubPair(c, at).Cancel? && SubPair(c, at).at == at
      ensures ValueOf(SubPair(c, at)) == ValueOf(SubPair(c, 0))
    {}

    method Zdlread(patience: nat, ghost avail: seq<byte>, ghost i: nat, ghost later: seq<seq<byte>>)
      returns (v: Value, left: nat)
      requires At(avail, i, patience, later)
      modifies this`pending, this`rx, this`xoff, this`gone
      ensures left <= patience && gone == (old(gone) || v.Aborted?)
      ensures var item := SubItem(avail, i, ctlIgnore);
              v == ValueOf(item) && At(avail, NextAfter(item, |avail|), left, later)
    {
      hide SubEscaped;
      hide Unflow;
      hide FlowAfter;
      hide Plain;
      hide IsXonXoff;
      hide At;
      left := patience;
      ghost var j: nat := i;
      AtBounds(avail, i, patience, later);
      while true
        invariant j <= |avail|
        invariant left <= patience && At(avail, j, left, later) && gone == old(gone)
        invariant SubItem(avail, i, ctlIgnore) == SubItem(avail, j, ctlIgnore)
        decreases |avail| - j
      {
        var b;
        b, left := ReadByte(left, avail, j, later);
        if b.None? {
          return TooLate, left;
        }
        j := j + 1;
        var c := b.value;
        if Plain(c) {
          return Byte(c), left;
        }
        if c == ZDLE {
          v, left := ReadEscaped(left, avail, j, later);
          return;
        }
        if !(IsXonXoff(c) || ctlIgnore) {
          return Byte(c), left;
        }
      }
    }

    static function SubReadOf(s: SubResult): SubRead {
      match s
      case Short => Late
      case Sub(data, end, _) => Packet(data, end)
      case Overflow(_) => TooLong
      case BadCrc(_) => Damaged
      case StrayEnd(_) => UnexpectedEnd
      case SubCancel(_) => PeerGone
    }

    static function SubNext(s: SubResult, n: nat): nat {
      if s.Short? then n else s.at
    }

    /** `n` values, none of them a frame end. */
    method ReadValues(n: nat, patience: nat, ghost avail: seq<byte>, ghost i: nat, ghost later: seq<seq<byte>>)
      returns (vals: seq<byte>, why: Value, left: nat)
      requires At(avail, i, patience, later)
      modifies this`pending, this`rx, this`xoff, this`gone
      ensures left <= patience && gone == (old(gone) || (|vals| < n && why.Aborted?))
      ensures match SubValues(avail, i, n, ctlIgnore)
              case Got(v, at) => vals == v && |vals| == n && At(avail, at, left, later)
              case Need => |vals| < n && why.TooLate? && At(avail, |avail|, left, later)
              case Stopped(at) => |vals| < n && why.Aborted? && At(avail, at, left, later)
              case Broken(at, isEnd) =>
                |vals| < n && (if isEnd then why.FrameEnd? else why.Malformed?) && At(avail, at, left, later)
    {
      hide SubItem;
      hide Unflow;
      hide FlowAfter;
      hide At;
      vals, left, why := [], patience, TooLate;
      ghost var j: nat := i;
      assert i <= |avail| by {
        AtBounds(avail, i, patience, later);
      }
      AfterNothing(SubValues(avail, i, n, ctlIgnore));
      while |vals| < n
        invariant |vals| <= n && left <= patience && j <= |avail| && At(avail, j, left, later) && gone == old(gone)
        invariant SubValues(avail, i, n, ctlIgnore) == After(vals, SubValues(avail, j, n - |vals|, ctlIgnore))
      {
        SubItemBounds(avail, j, ctlIgnore);
        why, left := Zdlread(left, avail, j, later);
        if !why.Byte? {
          return;
        }
        ghost var at := SubItem(avail, j, ctlIgnore).at;
        Regroup(vals, why.v, SubValues(avail, at, n - |vals| - 1, ctlIgnore));
        vals := vals + [why.v];
        j := at;
      }
      assert vals + [] == vals;
    }

    method ReadTrailer(crc32: bool, data: seq<byte>, end: byte, patience: nat, ghost avail: seq<byte>, ghost i: nat,
                       ghost later: seq<seq<byte>>) returns (res: SubRead, left: nat)
      requires At(avail, i, patience, later)
      modifies this`pending, this`rx, this`xoff, this`gone
      ensures gone == (old(gone) || res.PeerGone?)
      ensures var s := CheckSub(AsReader(), crc32, avail, i, data, end);
              res == SubReadOf(s) && At(avail, SubNext(s, |avail|), left, later)
    {
      hide SubValues;
      hide Unflow;
      hide FlowAfter;
      hide Trailer;
      var n := TrailerLength(crc32);
      SubValuesLength(avail, i, n, ctlIgnore);
      var vals, why;
      vals, why, left := ReadValues(n, patience, avail, i, later);
      if |vals| < n {
        res := match why
          case TooLate => Late
          case Aborted => PeerGone
          case FrameEnd(_) => UnexpectedEnd
          case _ => Damaged;
        return;
      }
      res := if vals == Trailer(sum, crc32, data + [end]) then Packet(data, end) else Damaged;
    }

    method ReadPacket(crc32: bool, max: nat, patience: nat, ghost avail: seq<byte>, ghost later: seq<seq<byte>>)
      returns (res: SubRead, left: nat)
      requires At(avail, 0, patience, later)
      modifies this`pending, this`rx, this`xoff, this`gone
      ensures gone == (old(gone) || res.PeerGone?)
      ensures var s := ReadSub(AsReader(), crc32, max, avail, 0, []);
              res == SubReadOf(s) && At(avail, SubNext(s, |avail|), left, later)
    {
      hide SubItem;
      hide CheckSub;
      hide Unflow;
      hide FlowAfter;
      hide At;
      var data: seq<byte> := [];
      left := patience;
      ghost var j: nat := 0;
      while true
        invariant j <= |avail| && At(avail, j, left, later) && gone == old(gone)
        invariant ReadSub(AsReader(), crc32, max, avail, 0, []) == ReadSub(AsReader(), crc32, max, avail, j, data)
        decreases |avail| - j
      {
        SubItemBounds(avail, j, ctlIgnore);
        var v;
        v, left := Zdlread(left, avail, j, later);
        match v
        case TooLate => return Late, left;
        case Aborted => return PeerGone, left;
        case Malformed => return Damaged, left;
        case FrameEnd(e) =>
          res, left := ReadTrailer(crc32, data, e, left, avail, SubItem(avail, j, ctlIgnore).at, later);
          return;
        case Byte(b) =>
          j := SubItem(avail, j, ctlIgnore).at;
          if |data| >= max {
            return TooLong, left;
          }
          data := data + [b];
      }
    }

    /** One subpacket of at most `max` bytes, out of what arrives within the next
        `patience` reads; it consumes exactly that subpacket. */
    method ReadSubpacket(crc32: bool, max: nat, patience: nat) returns (res: SubRead)
      requires patience <= |rx|
      modifies this`pending, this`rx, this`xoff, this`gone
      ensures gone == (old(gone) || res.PeerGone?)
      ensures var s := ReadSub(AsReader(), crc32, max, old(Arriving(patience)), 0, []);
              && res == SubReadOf(s)
              && SubNext(s, |old(Arriving(patience))|) <= |old(Arriving(patience))|
              && Rest() == old(Arriving(patience))[SubNext(s, |old(Arriving(patience))|)..]
                           + Cooked(Flat(old(rx)[patience..]))
    {
      hide ReadSub;
      hide Unflow;
      ghost var avail, later := Arriving(patience), rx[patience..];
      assert avail[0..] == avail;
      var left;
      res, left := ReadPacket(crc32, max, patience, avail, later);
      Unread(avail, SubNext(ReadSub(AsReader(), crc32, max, avail, 0, []), |avail|), left, later);
    }

    /** What is not consumed: the rest of `avail`, and then `later`. */
    lemma Unread(avail: seq<byte>, i: nat, left: nat, later: seq<seq<byte>>)
      requires At(avail, i, left, later)
      ensures i <= |avail| && Rest() == avail[i..] + Cooked(Flat(later))
    {
      hide Unflow;
      CookedSplit(rx, left);
    }

    lemma CookedSplit(chunks: seq<seq<byte>>, n: nat)
      requires n <= |chunks|
      ensures Cooked(Flat(chunks)) == Cooked(Flat(chunks[..n])) + Cooked(Flat(chunks[n..]))
    {
      hide Unflow;
      assert chunks == chunks[..n] + chunks[n..];
      FlatConcat(chunks[..n], chunks[n..]);
      UnflowConcat(Flat(chunks[..n]), Flat(chunks[n..]));
    }
  }

  lemma {:induction false} FlatConcat(a: seq<seq<byte>>, b: seq<seq<byte>>)
    ensures Flat(a + b) == Flat(a) + Flat(b)
  {
    if a == [] {
      assert a + b == b;
    } else {
      assert (a + b)[1..] == a[1..] + b;
      FlatConcat(a[1..], b);
    }
  }
}
