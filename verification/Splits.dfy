/** Reads may split a byte stream anywhere: the events do not change. */
module Splits {
  import opened Crc
  import opened Proto
  import opened Unescape
  import opened Scan

  // ---- what was decided stays decided when more bytes arrive ----

  lemma {:induction false} EscapedStable(buf: seq<byte>, more: seq<byte>, i: nat, cans: nat, ctlIgnore: bool)
    requires i <= |buf|
    requires !HdrEscaped(buf, i, cans, ctlIgnore).More?
    ensures HdrEscaped(buf + more, i, cans, ctlIgnore) == HdrEscaped(buf, i, cans, ctlIgnore)
    decreases |buf| - i
  {
    assert (buf + more)[i] == buf[i];
    if buf[i] == CAN {
      if cans + 1 < CANCEL_RUN {
        EscapedStable(buf, more, i + 1, cans + 1, ctlIgnore);
      }
    } else if Skipped(buf[i], ctlIgnore) {
      EscapedStable(buf, more, i + 1, cans, ctlIgnore);
    }
  }

  lemma {:induction false} ItemStable(buf: seq<byte>, more: seq<byte>, i: nat, ctlIgnore: bool)
    requires i <= |buf|
    requires !HdrItem(buf, i, ctlIgnore).More?
    ensures HdrItem(buf + more, i, ctlIgnore) == HdrItem(buf, i, ctlIgnore)
    decreases |buf| - i
  {
    assert (buf + more)[i] == buf[i];
    if !Plain(buf[i]) {
      if buf[i] == ZDLE {
        EscapedStable(buf, more, i + 1, 1, ctlIgnore);
      } else if IsXonXoff(buf[i]) || ctlIgnore {
        ItemStable(buf, more, i + 1, ctlIgnore);
      }
    }
  }

  lemma {:induction false} UnescapeStable(buf: seq<byte>, more: seq<byte>, i: nat, n: nat, ctlIgnore: bool)
    requires i <= |buf|
    requires !UnescapeN(buf, i, n, ctlIgnore).Need?
    ensures UnescapeN(buf + more, i, n, ctlIgnore) == UnescapeN(buf, i, n, ctlIgnore)
    decreases n
  {
    if n > 0 {
      ItemStable(buf, more, i, ctlIgnore);
      HdrItemBounds(buf, i, ctlIgnore);
      var item := HdrItem(buf, i, ctlIgnore);
      if item.Data? {
        UnescapeStable(buf, more, item.at, n - 1, ctlIgnore);
      }
    }
  }

  lemma {:induction false} CanRunStable(buf: seq<byte>, more: seq<byte>)
    ensures CanRun(buf) < |buf| ==> CanRun(buf + more) == CanRun(buf)
    ensures CanRun(buf + more) >= CanRun(buf)
  {
    if buf != [] && buf[0] == CAN {
      assert (buf + more)[1..] == buf[1..] + more;
      CanRunStable(buf[1..], more);
    }
  }

  lemma {:induction false} PadRunStable(buf: seq<byte>, more: seq<byte>)
    ensures PadRun(buf) < |buf| ==> PadRun(buf + more) == PadRun(buf)
  {
    if buf != [] && IsPad(buf[0]) {
      assert (buf + more)[1..] == buf[1..] + more;
      PadRunStable(buf[1..], more);
    }
  }

  /** A byte that starts nothing. */
  predicate Idle(c: byte) {
    c != CAN && !IsPad(c)
  }

  lemma LineEndIsIdle(c: byte)
    ensures Like(c, CR) || Like(c, LF) || IsXonXoff(c) ==> Idle(c)
  {}

  /** The decision `now`, taken on `n` bytes, and the decision `later`, taken
      with the bytes `more` after them: the same, except that a cancel sequence
      may have grown and that a hex header at the very end may have its line end. */
  ghost predicate Extends(now: Look, n: nat, later: Look, more: seq<byte>) {
    match now
    case Wait => true
    case Stop(_) => later.Stop?
    case Hit(h, e) =>
      && later.Hit? && later.h == h
      && (later.e == e || (e == n < later.e <= n + |more| && forall k :: 0 <= k < later.e - n ==> Idle(more[k])))
    case _ => later == now
  }

  lemma HexBodyStable(rest: seq<byte>, more: seq<byte>)
    ensures Extends(HexBody(rest), |rest|, HexBody(rest + more), more)
  {
    if |rest| >= 14 {
      assert (rest + more)[..14] == rest[..14];
      AfterHexStable(rest, more);
    }
  }

  lemma AfterHexStable(rest: seq<byte>, more: seq<byte>)
    requires |rest| >= 14
    ensures var e, e' := AfterHex(rest, 14), AfterHex(rest + more, 14);
            e' == e || (e == |rest| < e' <= |rest| + |more| && forall k :: 0 <= k < e' - e ==> Idle(more[k]))
  {
    if |more| > 0 {
      LineEndIsIdle(more[0]);
      if |more| > 1 {
        LineEndIsIdle(more[1]);
      }
    }
  }

  lemma BinBodyStable(r: Reader, crc32: bool, rest: seq<byte>, more: seq<byte>)
    ensures Extends(BinBody(r, crc32, rest), |rest|, BinBody(r, crc32, rest + more), more)
  {
    var n := if crc32 then 9 else 7;
    UnescapedLength(rest, 0, n, r.ctlIgnore);
    if !UnescapeN(rest, 0, n, r.ctlIgnore).Need? {
      UnescapeStable(rest, more, 0, n, r.ctlIgnore);
    }
  }

  lemma BodyStable(r: Reader, format: byte, rest: seq<byte>, more: seq<byte>)
    ensures Extends(Body(r, format, rest), |rest|, Body(r, format, rest + more), more)
  {
    hide HexBody;
    hide BinBody;
    HexBodyStable(rest, more);
    BinBodyStable(r, false, rest, more);
    BinBodyStable(r, true, rest, more);
  }

  lemma ShiftExtends(now: Look, n: nat, later: Look, more: seq<byte>, k: nat)
    requires Extends(now, n, later, more)
    ensures Extends(Deeper(now, k), n + k, Deeper(later, k), more)
  {}

  lemma HeadStable(r: Reader, buf: seq<byte>, more: seq<byte>)
    requires buf != []
    ensures Extends(Head(r, buf), |buf|, Head(r, buf + more), more)
  {
    hide Body;
    CanRunStable(buf, more);
    PadRunStable(buf, more);
    var j := PadRun(buf);
    if j + 1 < |buf| {
      assert (buf + more)[j + 2..] == buf[j + 2..] + more;
      BodyStable(r, buf[j + 1], buf[j + 2..], more);
      ShiftExtends(Body(r, buf[j + 1], buf[j + 2..]), |buf| - j - 2, Body(r, buf[j + 1], buf[j + 2..] + more), more, j + 2);
    }
  }

  // ---- events ----

  lemma IdleSkipped(r: Reader, buf: seq<byte>)
    requires buf != [] && Idle(buf[0])
    ensures Events(r, buf) == Events(r, buf[1..])
  {
    hide Body;
  }

  lemma {:induction false} IdlesSkipped(r: Reader, buf: seq<byte>, n: nat)
    requires n <= |buf|
    requires forall k :: 0 <= k < n ==> Idle(buf[k])
    ensures Events(r, buf) == Events(r, buf[n..])
  {
    hide Events;
    if n == 0 {
      assert buf[0..] == buf;
    } else {
      IdleSkipped(r, buf);
      IdlesSkipped(r, buf[1..], n - 1);
      assert buf[1..][n - 1..] == buf[n..];
    }
  }

  lemma EventsStep(r: Reader, buf: seq<byte>)
    requires buf != []
    ensures var l := Head(r, buf);
            && (l.Skip? ==> 0 < l.k <= |buf| && Events(r, buf) == Events(r, buf[l.k..]))
            && (l.Wait? ==> Events(r, buf) == [])
            && (l.Hit? ==> 0 < l.e <= |buf| && Events(r, buf) == [Hdr(l.h)] + Events(r, buf[l.e..]))
            && (l.Junk? ==> Events(r, buf) == [BadHdr] + Events(r, buf[1..]))
            && (l.Stop? ==> Events(r, buf) == [Cancelled])
  {
    hide Head;
    HeadBounds(r, buf);
  }

  /** What one scan of the bytes `buf` says about every stream that begins
      with them. */
  ghost predicate ScanTells(r: Reader, f: Found, buf: seq<byte>, more: seq<byte>)
    requires f.NeedMore? ==> f.start <= |buf|
    requires f.Found? ==> f.end <= |buf|
  {
    match f
    case NeedMore(start) => Events(r, buf + more) == Events(r, buf[start..] + more)
    case Found(Cancelled, _, _) => Events(r, buf + more) == [Cancelled]
    case Found(ev, _, end) => Events(r, buf + more) == [ev] + Events(r, buf[end..] + more)
  }

  /** A scan of what has arrived is right about the whole stream, whatever is
      still to come: it drops only bytes that belong to no header, and an event
      it reports is the next event of the stream. */
  lemma {:induction false} ScanPrefix(r: Reader, buf: seq<byte>, more: seq<byte>)
    ensures ScanTells(r, ScanHeader(r, buf), buf, more)
    decreases |buf|
  {
    hide Head;
    hide Events;
    if buf == [] {
      assert buf[0..] == buf;
    } else {
      HeadBounds(r, buf);
      HeadStable(r, buf, more);
      EventsStep(r, buf + more);
      match Head(r, buf)
      case Skip(k) =>
        assert (buf + more)[k..] == buf[k..] + more;
        ScanPrefix(r, buf[k..], more);
        TellsMoved(r, ScanHeader(r, buf[k..]), buf, k, more);
      case Wait =>
        assert buf[0..] == buf;
      case Hit(h, e) =>
        HitTells(r, buf, e, Head(r, buf + more).e, more);
      case Junk =>
        assert (buf + more)[1..] == buf[1..] + more;
      case Stop(_) =>
    }
  }

  lemma TellsMoved(r: Reader, f: Found, buf: seq<byte>, k: nat, more: seq<byte>)
    requires k <= |buf|
    requires f.NeedMore? ==> f.start <= |buf| - k
    requires f.Found? ==> f.end <= |buf| - k
    requires ScanTells(r, f, buf[k..], more)
    requires Events(r, buf + more) == Events(r, buf[k..] + more)
    ensures ScanTells(r, Moved(f, k), buf, more)
  {
    hide Events;
    if f.NeedMore? {
      assert buf[k..][f.start..] == buf[k + f.start..];
    } else {
      assert buf[k..][f.end..] == buf[k + f.end..];
    }
  }

  lemma HitTells(r: Reader, buf: seq<byte>, e: nat, later: nat, more: seq<byte>)
    requires e <= |buf|
    requires later == e ||
             (e == |buf| < later <= |buf| + |more| && forall k :: 0 <= k < later - e ==> Idle(more[k]))
    ensures Events(r, (buf + more)[later..]) == Events(r, buf[e..] + more)
  {
    hide Events;
    if later == e {
      assert (buf + more)[e..] == buf[e..] + more;
    } else {
      assert (buf + more)[later..] == more[later - e..];
      assert buf[e..] + more == more;
      IdlesSkipped(r, more, later - e);
    }
  }

  // ---- a stream handed over in reads ----

  function Flat(chunks: seq<seq<byte>>): seq<byte> {
    if chunks == [] then [] else chunks[0] + Flat(chunks[1..])
  }

  /** The events found by scanning whatever is pending after every read, until
      a cancel sequence turns up. */
  function Fed(r: Reader, pending: seq<byte>, chunks: seq<seq<byte>>): seq<Event>
    decreases |chunks|, |pending|
  {
    match ScanHeader(r, pending)
    case NeedMore(start) => if chunks == [] then [] else Fed(r, pending[start..] + chunks[0], chunks[1..])
    case Found(Cancelled, _, _) => [Cancelled]
    case Found(ev, _, end) => [ev] + Fed(r, pending[end..], chunks)
  }

  /** Split independence: every partition of a stream into reads yields the
      events of the stream. */
  lemma {:induction false} FedIsEvents(r: Reader, pending: seq<byte>, chunks: seq<seq<byte>>)
    ensures Fed(r, pending, chunks) == Events(r, pending + Flat(chunks))
    decreases |chunks|, |pending|
  {
    hide Events;
    hide ScanHeader;
    ScanPrefix(r, pending, Flat(chunks));
    match ScanHeader(r, pending)
    case NeedMore(start) =>
      if chunks == [] {
        ScanExhausts(r, pending);
        assert pending + [] == pending;
      } else {
        FedIsEvents(r, pending[start..] + chunks[0], chunks[1..]);
        assert pending[start..] + chunks[0] + Flat(chunks[1..]) == pending[start..] + Flat(chunks);
      }
    case Found(Cancelled, _, _) =>
    case Found(ev, _, end) =>
      FedIsEvents(r, pending[end..], chunks);
  }

  lemma {:induction false} ScanExhausts(r: Reader, buf: seq<byte>)
    requires ScanHeader(r, buf).NeedMore?
    ensures Events(r, buf) == []
    decreases |buf|
  {
    hide Head;
    if buf != [] {
      HeadBounds(r, buf);
      if Head(r, buf).Skip? {
        ScanExhausts(r, buf[Head(r, buf).k..]);
      }
    }
  }

  /** A sender strips raw XON and XOFF from every read; stripping the reads is
      stripping the stream, so the same holds there. */
  lemma {:induction false} StrippedReads(r: Reader, chunks: seq<seq<byte>>)
    ensures Fed(r, [], Stripped(chunks)) == Events(r, Unflow(Flat(chunks)))
  {
    FedIsEvents(r, [], Stripped(chunks));
    FlatStripped(chunks);
    assert [] + Flat(Stripped(chunks)) == Flat(Stripped(chunks));
  }

  function Stripped(chunks: seq<seq<byte>>): seq<seq<byte>> {
    if chunks == [] then [] else [Unflow(chunks[0])] + Stripped(chunks[1..])
  }

  lemma {:induction false} FlatStripped(chunks: seq<seq<byte>>)
    ensures Flat(Stripped(chunks)) == Unflow(Flat(chunks))
  {
    if chunks != [] {
      FlatStripped(chunks[1..]);
      UnflowConcat(chunks[0], Flat(chunks[1..]));
    }
  }
}
