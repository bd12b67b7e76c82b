/** Hunting for headers in a byte stream. `Look` is what the scanner decides
    at the first byte of what is pending; `Events` is everything a stream
    yields. The point of the file is `ScanPrefix`: however the stream is cut into
    reads, the events are the same. */
module Scan {
  import opened Crc
  import opened Proto
  import opened Unescape

  /** What both ends agree on: the CRC-32 library function, and whether raw
      control bytes are to be ignored because the peer was asked to escape them. */
  datatype Reader = Reader(sum: Sum32, ctlIgnore: bool)

  datatype Event = Hdr(h: Header) | BadHdr | Cancelled

  /** The decision at the first byte: go on `k` bytes further, wait for more
      bytes, a header (or a cancel sequence) that ends at `e`, or a damaged header. */
  datatype Look = Skip(k: nat) | Wait | Hit(h: Header, e: nat) | Junk | Stop(e: nat)

  function CanRun(buf: seq<byte>): (n: nat)
    ensures n <= |buf|
    ensures n < |buf| ==> buf[n] != CAN
  {
    if buf == [] || buf[0] != CAN then 0 else 1 + CanRun(buf[1..])
  }

  function PadRun(buf: seq<byte>): (n: nat)
    ensures n <= |buf|
    ensures n < |buf| ==> !IsPad(buf[n])
  {
    if buf == [] || !IsPad(buf[0]) then 0 else 1 + PadRun(buf[1..])
  }

  predicate Like(c: byte, d: byte) {
    c & 0x7f == d
  }

  /** Past the CR and LF that may follow a hex header. */
  function AfterHex(buf: seq<byte>, j: nat): (e: nat)
    requires j <= |buf|
    ensures j <= e <= |buf|
  {
    if j < |buf| && Like(buf[j], CR) then
      if j + 1 < |buf| && Like(buf[j + 1], LF) then j + 2 else j + 1
    else j
  }

  /** The decoded values of a binary header, checksum included. */
  function BinHeaderOf(sum: Sum32, crc32: bool, vals: seq<byte>): Option<Header>
    requires |vals| == if crc32 then 9 else 7
  {
    if Trailer(sum, crc32, vals[..5]) == vals[5..]
    then Some(Header(vals[0], vals[1], vals[2], vals[3], vals[4], if crc32 then ZBIN32 else ZBIN))
    else None
  }

  lemma UnescapedLength(buf: seq<byte>, i: nat, n: nat, ctlIgnore: bool)
    requires i <= |buf|
    ensures var r := UnescapeN(buf, i, n, ctlIgnore);
            (r.Got? ==> |r.vals| == n && i <= r.at <= |buf|) && (r.Stopped? ==> i < r.at <= |buf|)
    decreases n
  {
    if n > 0 {
      HdrItemBounds(buf, i, ctlIgnore);
      var r := HdrItem(buf, i, ctlIgnore);
      if r.Data? {
        UnescapedLength(buf, r.at, n - 1, ctlIgnore);
      }
    }
  }

  function BinBody(r: Reader, crc32: bool, rest: seq<byte>): Look {
    var n := if crc32 then 9 else 7;
    UnescapedLength(rest, 0, n, r.ctlIgnore);
    match UnescapeN(rest, 0, n, r.ctlIgnore)
    case Need => Wait
    case Stopped(at) => Stop(at)
    case Broken(_, _) => Junk
    case Got(vals, at) =>
      match BinHeaderOf(r.sum, crc32, vals)
      case None => Junk
      case Some(h) => Hit(h, at)
  }

  function HexBody(rest: seq<byte>): Look {
    if |rest| < 14 then Wait
    else
      match DecodeHexDigits(rest[..14])
      case None => Junk
      case Some(h) => Hit(h, AfterHex(rest, 14))
  }

  /** After the pads, the ZDLE and the format byte. */
  function Body(r: Reader, format: byte, rest: seq<byte>): Look {
    if Like(format, ZHEX) then HexBody(rest)
    else if Like(format, ZBIN) then BinBody(r, false, rest)
    else if Like(format, ZBIN32) then BinBody(r, true, rest)
    else Skip(1)
  }

  function Deeper(l: Look, k: nat): Look {
    match l
    case Hit(h, e) => Hit(h, e + k)
    case Stop(e) => Stop(e + k)
    case _ => l
  }

  function Head(r: Reader, buf: seq<byte>): Look
    requires buf != []
  {
    if buf[0] == CAN then
      var j := CanRun(buf);
      if j >= CANCEL_RUN then Stop(j) else if j == |buf| then Wait else Skip(j)
    else if !IsPad(buf[0]) then Skip(1)
    else
      var j := PadRun(buf);
      if j == |buf| then Wait
      else if buf[j] != ZDLE then Skip(j)
      else if j + 1 == |buf| then Wait
      else Deeper(Body(r, buf[j + 1], buf[j + 2..]), j + 2)
  }

  lemma HeadBounds(r: Reader, buf: seq<byte>)
    requires buf != []
    ensures match Head(r, buf)
            case Skip(k) => 0 < k <= |buf|
            case Hit(_, e) => 0 < e <= |buf|
            case Stop(e) => 0 < e <= |buf|
            case _ => true
  {
    hide UnescapeN;
    var j := PadRun(buf);
    if IsPad(buf[0]) && j + 1 < |buf| && buf[j] == ZDLE {
      UnescapedLength(buf[j + 2..], 0, 7, r.ctlIgnore);
      UnescapedLength(buf[j + 2..], 0, 9, r.ctlIgnore);
    }
    PadIsNotCan(buf[0]);
  }

  lemma PadIsNotCan(c: byte)
    ensures IsPad(c) ==> c != CAN
  {}

  /** Everything the stream `buf` yields, up to a cancel sequence. */
  function Events(r: Reader, buf: seq<byte>): seq<Event>
    decreases |buf|
  {
    if buf == [] then []
    else
      HeadBounds(r, buf);
      match Head(r, buf)
      case Skip(k) => Events(r, buf[k..])
      case Wait => []
      case Hit(h, e) => [Hdr(h)] + Events(r, buf[e..])
      case Junk => [BadHdr] + Events(r, buf[1..])
      case Stop(_) => [Cancelled]
  }

  /** The result of one scan: nothing yet (what is before `start` can never be
      part of a header), or an event and where scanning goes on. */
  datatype Found = NeedMore(start: nat) | Found(ev: Event, start: nat, end: nat)

  function ScanHeader(r: Reader, buf: seq<byte>): (f: Found)
    ensures f.NeedMore? ==> f.start <= |buf|
    ensures f.Found? ==> f.start < f.end <= |buf|
    decreases |buf|
  {
    if buf == [] then NeedMore(0)
    else
      HeadBounds(r, buf);
      match Head(r, buf)
      case Skip(k) => Moved(ScanHeader(r, buf[k..]), k)
      case Wait => NeedMore(0)
      case Hit(h, e) => Found(Hdr(h), 0, e)
      case Junk => Found(BadHdr, 0, 1)
      case Stop(e) => Found(Cancelled, 0, e)
  }

  function Moved(f: Found, k: nat): Found {
    match f
    case NeedMore(start) => NeedMore(start + k)
    case Found(ev, start, end) => Found(ev, start + k, end + k)
  }

  // ---- the scanning loop ----

  lemma RunIs(buf: seq<byte>, i: nat, j: nat)
    requires i <= j <= |buf|
    requires j < |buf| ==> buf[j] != CAN
    requires forall k :: i <= k < j ==> buf[k] == CAN
    ensures CanRun(buf[i..]) == j - i
    decreases j - i
  {
    if i < j {
      assert buf[i..][1..] == buf[i + 1..];
      RunIs(buf, i + 1, j);
    }
  }

  lemma PadsAre(buf: seq<byte>, i: nat, j: nat)
    requires i <= j <= |buf|
    requires j < |buf| ==> !IsPad(buf[j])
    requires forall k :: i <= k < j ==> IsPad(buf[k])
    ensures PadRun(buf[i..]) == j - i
    decreases j - i
  {
    if i < j {
      assert buf[i..][1..] == buf[i + 1..];
      PadsAre(buf, i + 1, j);
    }
  }

  method CanLoop(buf: seq<byte>, i: nat) returns (j: nat)
    requires i <= |buf|
    ensures i <= j <= |buf| && j - i == CanRun(buf[i..])
  {
    j := i;
    while j < |buf| && buf[j] == CAN
      invariant i <= j <= |buf|
      invariant forall k :: i <= k < j ==> buf[k] == CAN
    {
      j := j + 1;
    }
    RunIs(buf, i, j);
  }

  method PadLoop(buf: seq<byte>, i: nat) returns (j: nat)
    requires i <= |buf|
    ensures i <= j <= |buf| && j - i == PadRun(buf[i..])
  {
    j := i;
    while j < |buf| && IsPad(buf[j])
      invariant i <= j <= |buf|
      invariant forall k :: i <= k < j ==> IsPad(buf[k])
    {
      j := j + 1;
    }
    PadsAre(buf, i, j);
  }

  method BinBodyOf(r: Reader, crc32: bool, rest: seq<byte>) returns (l: Look)
    ensures l == BinBody(r, crc32, rest)
  {
    var n := if crc32 then 9 else 7;
    UnescapedLength(rest, 0, n, r.ctlIgnore);
    var v := UnescapeLoop(rest, n, r.ctlIgnore);
    match v
    case Need => return Wait;
    case Stopped(at) => return Stop(at);
    case Broken(_, _) => return Junk;
    case Got(vals, at) =>
      var h := BinHeaderOf(r.sum, crc32, vals);
      return if h.None? then Junk else Hit(h.value, at);
  }

  method HexBodyOf(rest: seq<byte>) returns (l: Look)
    ensures l == HexBody(rest)
  {
    if |rest| < 14 {
      return Wait;
    }
    var h := DecodeHexHeaderDigits(rest[..14]);
    if h.None? {
      return Junk;
    }
    var j := 14;
    if j < |rest| && Like(rest[j], CR) {
      j := j + 1;
      if j < |rest| && Like(rest[j], LF) {
        j := j + 1;
      }
    }
    return Hit(h.value, j);
  }

  method BodyOf(r: Reader, format: byte, rest: seq<byte>) returns (l: Look)
    ensures l == Body(r, format, rest)
  {
    if Like(format, ZHEX) {
      l := HexBodyOf(rest);
    } else if Like(format, ZBIN) {
      l := BinBodyOf(r, false, rest);
    } else if Like(format, ZBIN32) {
      l := BinBodyOf(r, true, rest);
    } else {
      l := Skip(1);
    }
  }

  method LookAt(r: Reader, buf: seq<byte>, i: nat) returns (l: Look)
    requires i < |buf|
    ensures l == Head(r, buf[i..])
  {
    ghost var rest := buf[i..];
    if buf[i] == CAN {
      var j := CanLoop(buf, i);
      if j - i >= CANCEL_RUN {
        return Stop(j - i);
      }
      return if j == |buf| then Wait else Skip(j - i);
    }
    if !IsPad(buf[i]) {
      return Skip(1);
    }
    var j := PadLoop(buf, i);
    if j == |buf| {
      return Wait;
    }
    if buf[j] != ZDLE {
      return Skip(j - i);
    }
    if j + 1 == |buf| {
      return Wait;
    }
    assert rest[j - i + 1] == buf[j + 1] && rest[j - i + 2..] == buf[j + 2..];
    var b := BodyOf(r, buf[j + 1], buf[j + 2..]);
    return Deeper(b, j - i + 2);
  }

  lemma MovedTwice(f: Found, i: nat, k: nat)
    ensures Moved(Moved(f, k), i) == Moved(f, i + k)
  {}

  lemma ScanSkips(r: Reader, buf: seq<byte>, i: nat, k: nat)
    requires i < |buf| && Head(r, buf[i..]) == Skip(k)
    ensures i < i + k <= |buf|
    ensures ScanHeader(r, buf[i..]) == Moved(ScanHeader(r, buf[i + k..]), k)
  {
    HeadBounds(r, buf[i..]);
    assert buf[i..][k..] == buf[i + k..];
  }

  /** The result of a scan that starts with a decision other than skipping. */
  function Verdict(l: Look): Found {
    match l
    case Hit(h, e) => Found(Hdr(h), 0, e)
    case Junk => Found(BadHdr, 0, 1)
    case Stop(e) => Found(Cancelled, 0, e)
    case _ => NeedMore(0)
  }

  lemma ScanStops(r: Reader, buf: seq<byte>)
    requires buf != [] && !Head(r, buf).Skip?
    ensures ScanHeader(r, buf) == Verdict(Head(r, buf))
  {}

  /** One turn of the scanning loop: how far to move on, or the verdict here. */
  method ScanTurn(r: Reader, buf: seq<byte>, i: nat) returns (done: bool, k: nat, f: Found)
    requires i < |buf|
    ensures !done ==> 0 < k <= |buf| - i && ScanHeader(r, buf[i..]) == Moved(ScanHeader(r, buf[i + k..]), k)
    ensures done ==> ScanHeader(r, buf[i..]) == f
  {
    hide Head;
    var l := LookAt(r, buf, i);
    done, k, f := !l.Skip?, 1, Verdict(l);
    if done {
      ScanStops(r, buf[i..]);
    } else {
      k := l.k;
      ScanSkips(r, buf, i, k);
    }
  }

  method ScanLoop(r: Reader, buf: seq<byte>) returns (f: Found)
    ensures f == ScanHeader(r, buf)
  {
    hide Head;
    var i := 0;
    assert buf[0..] == buf;
    while i < |buf|
      invariant i <= |buf|
      invariant ScanHeader(r, buf) == Moved(ScanHeader(r, buf[i..]), i)
    {
      var done, k, g := ScanTurn(r, buf, i);
      if done {
        return Moved(g, i);
      }
      MovedTwice(ScanHeader(r, buf[i + k..]), i, k);
      i := i + k;
    }
    assert buf[|buf|..] == [];
    return NeedMore(|buf|);
  }
}
