/** Resynchronisation: cut a stream of frames anywhere, and scanning the rest
    finds exactly the headers that still have a leading pad. No escaped byte pair
    looks like the start of a header, and no two CAN are ever adjacent, so data
    never fakes a header, a damaged header or a cancel sequence. If the peer
    escapes all control characters (`ctl`), this needs that no pad goes out right before
    0x01 to 0x03, with or without high bit: they then read as the three header formats. */
module Resync {
  import opened Crc
  import opened Proto
  import opened Unescape
  import opened Scan
  import opened Splits

  /** What a sender puts on the line. `last` is what the escaper remembers when
      the subpacket starts. */
  datatype Frame =
    | Hex(h: Header)
    | Bin(h: Header, crc32: bool)
    | Sub(data: seq<byte>, end: byte, crc32: bool, last: byte)

  predicate Sendable(f: Frame) {
    f.Sub? ==> IsEnd(f.end)
  }

  /** A header without its pads. */
  function Core(sum: Sum32, ctl: bool, f: Frame): seq<byte>
    requires !f.Sub?
  {
    match f
    case Hex(h) => HexHeader(h)[2..]
    case Bin(h, crc32) => BinHeader(sum, crc32, ctl, h)[1..]
  }

  function Pads(f: Frame): nat {
    match f
    case Hex(_) => 2
    case Bin(_, _) => 1
    case Sub(_, _, _, _) => 0
  }

  function Encoding(sum: Sum32, ctl: bool, f: Frame): (code: seq<byte>)
    ensures Pads(f) <= |code|
  {
    match f
    case Hex(h) => HexHeader(h)
    case Bin(h, crc32) => BinHeader(sum, crc32, ctl, h)
    case Sub(data, end, crc32, last) => Subpacket(sum, crc32, ctl, last, data, end)
  }

  function Stream(sum: Sum32, ctl: bool, fs: seq<Frame>): seq<byte> {
    if fs == [] then [] else Encoding(sum, ctl, fs[0]) + Stream(sum, ctl, fs[1..])
  }

  /** The header as the scanner reports it. */
  function Reported(f: Frame): Header
    requires !f.Sub?
  {
    match f
    case Hex(h) => h.(format := ZHEX)
    case Bin(h, crc32) => h.(format := if crc32 then ZBIN32 else ZBIN)
  }

  function Headers(fs: seq<Frame>): seq<Event> {
    if fs == [] then [] else (if fs[0].Sub? then [] else [Hdr(Reported(fs[0]))]) + Headers(fs[1..])
  }

  /** The headers whose first byte, or second pad, comes after the first `cut` bytes. */
  function Surviving(sum: Sum32, ctl: bool, fs: seq<Frame>, cut: nat): seq<Event> {
    if fs == [] then []
    else
      var n := |Encoding(sum, ctl, fs[0])|;
      if cut >= n then Surviving(sum, ctl, fs[1..], cut - n)
      else if cut < Pads(fs[0]) then Headers(fs)
      else Headers(fs[1..])
  }

  // ---- noise: bytes that yield no event ----

  /** After a pad and a ZDLE this byte makes a header. */
  predicate Opener(c: byte) {
    Like(c, ZHEX) || Like(c, ZBIN) || Like(c, ZBIN32)
  }

  /** Every CAN stands alone, and after a pad it makes no header. */
  ghost predicate Noise(x: seq<byte>) {
    forall k :: 0 <= k < |x| && x[k] == CAN ==>
      k + 1 < |x| && x[k + 1] != CAN && (k > 0 && IsPad(x[k - 1]) ==> !Opener(x[k + 1]))
  }

  /** No header is made where `x` and `y` meet. */
  predicate Joins(x: seq<byte>, y: seq<byte>) {
    x != [] && IsPad(x[|x| - 1]) && |y| > 1 && y[0] == CAN ==> !Opener(y[1])
  }

  /** Escaped, 0x01 to 0x03 read as the header formats. */
  predicate Opening(b: byte) {
    1 <= b & 0x7f <= 3
  }

  /** No pad goes out right before such a byte, if those are escaped at all. */
  predicate Mild(ctl: bool, data: seq<byte>) {
    ctl ==> forall k :: 0 <= k < |data| - 1 && IsPad(data[k]) ==> !Opening(data[k + 1])
  }

  lemma EscapedPair(ctl: bool, last: byte, b: byte)
    ensures Needs(ctl, last, b) ==> Toggle(b) != CAN && !IsPad(Toggle(b)) && (Opener(Toggle(b)) ==> ctl && Opening(b))
    ensures ctl && Opening(b) ==> Needs(ctl, last, b) && Opener(Toggle(b))
    ensures !Needs(ctl, last, b) ==> b != CAN
    ensures IsPad(b) ==> !Needs(ctl, last, b)
  {}

  lemma FrameEndsOpenNothing(e: byte)
    ensures IsEnd(e) ==> e != CAN && !Opener(e) && !IsPad(e)
    ensures XON != CAN && !IsPad(XON) && ZPAD != CAN
  {}

  lemma NoiseConcat(x: seq<byte>, y: seq<byte>)
    requires Noise(x) && Noise(y) && Joins(x, y)
    ensures Noise(x + y)
  {
    hide Opener;
    hide IsPad;
    var z := x + y;
    forall k | 0 <= k < |z| && z[k] == CAN
      ensures k + 1 < |z| && z[k + 1] != CAN && (k > 0 && IsPad(z[k - 1]) ==> !Opener(z[k + 1]))
    {
      if k < |x| {
        assert x[k] == CAN;
        assert z[k + 1] == x[k + 1];
      } else {
        assert y[k - |x|] == CAN;
        assert z[k + 1] == y[k - |x| + 1];
      }
    }
  }

  /** What an escaping begins with. */
  lemma EscapeFirst(ctl: bool, last: byte, data: seq<byte>)
    requires data != []
    ensures var e := Escape(ctl, last, data);
            if Needs(ctl, last, data[0]) then |e| > 1 && e[0] == ZDLE && e[1] == Toggle(data[0]) else e != [] && e[0] == data[0]
  {
    hide Needs;
    hide Toggle;
  }

  lemma {:induction false} EscapeIsNoise(ctl: bool, last: byte, data: seq<byte>)
    requires Mild(ctl, data)
    ensures Noise(Escape(ctl, last, data))
    decreases |data|
  {
    hide Needs;
    hide Toggle;
    hide Opener;
    hide IsPad;
    hide Opening;
    if data != [] {
      var first, rest := EscapeByte(ctl, last, data[0]), Escape(ctl, data[0], data[1..]);
      EscapedPair(ctl, last, data[0]);
      EscapeIsNoise(ctl, data[0], data[1..]);
      assert Noise(first);
      if |data| > 1 {
        EscapedPair(ctl, data[0], data[1]);
        EscapeFirst(ctl, data[0], data[1..]);
      }
      NoiseConcat(first, rest);
    }
  }

  // ---- streams in which nothing fakes a header ----

  predicate MildFrame(sum: Sum32, ctl: bool, f: Frame) {
    match f
    case Hex(_) => true
    case Bin(h, crc32) => Mild(ctl, h.Raw() + Trailer(sum, crc32, h.Raw()))
    case Sub(data, end, crc32, _) => Mild(ctl, data) && Mild(ctl, Trailer(sum, crc32, data + [end]))
  }

  /** In no frame does a pad go out right before 0x01 to 0x03, nor from one to the next. */
  predicate Safe(sum: Sum32, ctl: bool, fs: seq<Frame>) {
    fs == [] ||
    (MildFrame(sum, ctl, fs[0]) && (|fs| > 1 ==> Joins(Encoding(sum, ctl, fs[0]), Encoding(sum, ctl, fs[1])))
     && Safe(sum, ctl, fs[1..]))
  }

  /** A stream for a reader: one that ignores raw control characters has asked for them
      to be escaped. */
  predicate Ready(r: Reader, ctl: bool, fs: seq<Frame>) {
    (r.ctlIgnore ==> ctl) && (forall f :: f in fs ==> Sendable(f)) && Safe(r.sum, ctl, fs)
  }

  lemma EncodingIsSome(sum: Sum32, ctl: bool, f: Frame)
    ensures |Encoding(sum, ctl, f)| > 2 && (!f.Sub? ==> Encoding(sum, ctl, f)[0] == ZPAD != CAN)
  {
    hide Escape;
    hide HexBytes;
    if f.Sub? {
      EscapeFirst(ctl, f.end, Trailer(sum, f.crc32, f.data + [f.end]));
    }
  }

  lemma JoinsEasily(x: seq<byte>, y: seq<byte>)
    requires x == [] || !IsPad(x[|x| - 1]) || |y| < 2 || y[0] != CAN || !Opener(y[1])
    ensures Joins(x, y)
  {}

  lemma EndIsNoise(end: byte)
    requires IsEnd(end)
    ensures Noise([ZDLE, end]) && Noise(AfterSubpacket(end))
  {
    FrameEndsOpenNothing(end);
  }

  lemma SubIsNoise(sum: Sum32, ctl: bool, f: Frame)
    requires f.Sub? && Sendable(f) && MildFrame(sum, ctl, f)
    ensures Noise(Encoding(sum, ctl, f))
  {
    hide Opener;
    hide IsPad;
    hide Escape;
    hide Mild;
    hide Noise;
    hide Joins;
    hide IsEnd;
    FrameEndsOpenNothing(f.end);
    EndIsNoise(f.end);
    var trailer := Trailer(sum, f.crc32, f.data + [f.end]);
    var data, check, after := Escape(ctl, f.last, f.data), Escape(ctl, f.end, trailer), AfterSubpacket(f.end);
    EscapeIsNoise(ctl, f.last, f.data);
    EscapeIsNoise(ctl, f.end, trailer);
    JoinsEasily(data, [ZDLE, f.end]);
    NoiseConcat(data, [ZDLE, f.end]);
    JoinsEasily(data + [ZDLE, f.end], check);
    NoiseConcat(data + [ZDLE, f.end], check);
    JoinsEasily(data + [ZDLE, f.end] + check, after);
    NoiseConcat(data + [ZDLE, f.end] + check, after);
  }

  /** `rest` is empty or begins with a whole header. */
  ghost predicate Fresh(r: Reader, rest: seq<byte>) {
    rest == [] || (IsPad(rest[0]) && Head(r, rest).Hit?)
  }

  lemma {:induction false} PadRunConcat(pads: seq<byte>, rest: seq<byte>)
    requires forall k :: 0 <= k < |pads| ==> IsPad(pads[k])
    ensures PadRun(pads + rest) == |pads| + PadRun(rest)
  {
    if pads == [] {
      assert pads + rest == rest;
    } else {
      assert (pads + rest)[1..] == pads[1..] + rest;
      PadRunConcat(pads[1..], rest);
    }
  }

  lemma DeeperTwice(l: Look, j: nat, k: nat)
    ensures Deeper(Deeper(l, j), k) == Deeper(l, j + k)
  {}

  /** Pads before a header belong to it. */
  lemma PadsJoin(r: Reader, pads: seq<byte>, rest: seq<byte>)
    requires forall k :: 0 <= k < |pads| ==> IsPad(pads[k])
    requires rest != [] && IsPad(rest[0]) && Head(r, rest).Hit?
    ensures pads + rest != [] && Head(r, pads + rest) == Deeper(Head(r, rest), |pads|)
  {
    hide Body;
    PadRunConcat(pads, rest);
    PadIsNotCan(rest[0]);
    if pads != [] {
      PadIsNotCan(pads[0]);
      assert IsPad((pads + rest)[0]);
    } else {
      assert pads + rest == rest;
    }
    var j := PadRun(rest);
    assert (pads + rest)[|pads| + j] == rest[j];
    assert (pads + rest)[|pads| + j + 1] == rest[j + 1];
    assert (pads + rest)[|pads| + j + 2..] == rest[j + 2..];
    DeeperTwice(Body(r, rest[j + 1], rest[j + 2..]), j + 2, |pads|);
  }

  /** A run of pads that ends in something else than a ZDLE, or in a ZDLE that makes no
      header, is passed over. */
  lemma PadsPassed(r: Reader, buf: seq<byte>)
    requires buf != [] && IsPad(buf[0])
    requires PadRun(buf) < |buf|
    requires var j := PadRun(buf);
             buf[j] == ZDLE ==> j + 1 < |buf| && !Opener(buf[j + 1])
    ensures var l := Head(r, buf);
            l.Skip? && 0 < l.k <= PadRun(buf)
  {
    hide HexBody;
    hide BinBody;
    PadIsNotCan(buf[0]);
  }

  lemma {:induction false} PadRunWithin(x: seq<byte>, rest: seq<byte>)
    ensures PadRun(x) < |x| ==> PadRun(x + rest) == PadRun(x)
    ensures PadRun(x) == |x| ==> forall k :: 0 <= k < |x| ==> IsPad(x[k])
  {
    PadRunStable(x, rest);
    PadRunAll(x);
  }

  lemma {:induction false} PadRunAll(x: seq<byte>)
    ensures forall k :: 0 <= k < PadRun(x) ==> IsPad(x[k])
  {
    if x != [] && IsPad(x[0]) {
      PadRunAll(x[1..]);
      forall k | 0 < k < PadRun(x)
        ensures IsPad(x[k])
      {
        assert x[1..][k - 1] == x[k];
      }
    }
  }

  lemma NoiseSuffix(x: seq<byte>, k: nat)
    requires Noise(x) && k <= |x|
    ensures Noise(x[k..])
  {
    hide Opener;
  }

  lemma LoneCan(r: Reader, buf: seq<byte>)
    requires |buf| > 1 && buf[0] == CAN && buf[1] != CAN
    ensures Head(r, buf) == Skip(1)
  {
    assert CanRun(buf[1..]) == 0;
  }

  lemma {:induction false} NoiseIsSilent(r: Reader, x: seq<byte>, rest: seq<byte>)
    requires Noise(x) && Fresh(r, rest)
    ensures Events(r, x + rest) == Events(r, rest)
    decreases |x|
  {
    hide Head;
    hide Events;
    hide Opener;
    if x == [] {
      assert x + rest == rest;
    } else {
      var buf := x + rest;
      EventsStep(r, buf);
      NoiseHead(r, x, rest);
      var l := Head(r, buf);
      if l.Skip? && l.k <= |x| {
        assert buf[l.k..] == x[l.k..] + rest;
        NoiseSuffix(x, l.k);
        NoiseIsSilent(r, x[l.k..], rest);
      } else if l.Hit? {
        EventsStep(r, rest);
        assert buf[l.e..] == rest[l.e - |x|..];
      } else {
        EventsOfNothing(r);
      }
    }
  }

  lemma EventsOfNothing(r: Reader)
    ensures Events(r, []) == []
  {}

  /** What the scanner decides at noise: skip some of it, or, if all of it is
      pads, whatever it decides about the header it runs into. */
  lemma NoiseHead(r: Reader, x: seq<byte>, rest: seq<byte>)
    requires Noise(x) && Fresh(r, rest) && x != []
    ensures var l := Head(r, x + rest);
            || (l.Skip? && 0 < l.k <= |x|)
            || (rest == [] && l.Wait?)
            || (rest != [] && Head(r, rest).Hit? && l == Deeper(Head(r, rest), |x|))
  {
    hide Body;
    hide Opener;
    var buf := x + rest;
    assert buf[0] == x[0];
    if x[0] == CAN {
      assert x[1] == buf[1];
      LoneCan(r, buf);
    } else if !IsPad(x[0]) {
    } else {
      PadRunWithin(x, rest);
      var j := PadRun(x);
      if j < |x| {
        assert buf[j] == x[j];
        PadRunAll(x);
        assert j > 0 && IsPad(x[j - 1]);
        if x[j] == CAN {
          assert buf[j + 1] == x[j + 1] && !Opener(x[j + 1]);
        }
        PadsPassed(r, buf);
      } else if rest == [] {
        assert buf == x;
      } else {
        PadsJoin(r, x, rest);
      }
    }
  }

  // ---- headers are found ----

  /** Escaped values decode to themselves and end where their encoding ends. */
  lemma EscapedValuesDecode(ctl: bool, ctlIgnore: bool, vals: seq<byte>, rest: seq<byte>)
    requires ctlIgnore ==> ctl
    ensures UnescapeN(Escape(ctl, 0, vals) + rest, 0, |vals|, ctlIgnore) == Got(vals, |Escape(ctl, 0, vals)|)
  {
    hide UnescapeN;
    hide Escape;
    hide Unflow;
    var e := Escape(ctl, 0, vals);
    EscapeIsQuiet(ctl, 0, vals);
    UnflowQuiet(e);
    assert e[0..] == e == e + [];
    var at := ValuesDecode(e, 0, ctl, 0, vals, [], ctlIgnore);
    QuietSuffix(e, at);
    UnflowQuiet(e[at..]);
    assert e[at..] == [];
    UnescapeStable(e, rest, 0, |vals|, ctlIgnore);
  }

  lemma BinBodyFound(r: Reader, ctl: bool, h: Header, crc32: bool, rest: seq<byte>)
    requires r.ctlIgnore ==> ctl
    ensures var vals := h.Raw() + Trailer(r.sum, crc32, h.Raw());
            BinBody(r, crc32, Escape(ctl, 0, vals) + rest) ==
            Hit(h.(format := if crc32 then ZBIN32 else ZBIN), |Escape(ctl, 0, vals)|)
  {
    hide UnescapeN;
    hide Escape;
    var vals := h.Raw() + Trailer(r.sum, crc32, h.Raw());
    EscapedValuesDecode(ctl, r.ctlIgnore, vals, rest);
    assert vals[..5] == h.Raw() && vals[5..] == Trailer(r.sum, crc32, h.Raw());
  }

  lemma HexBodyFound(h: Header, rest: seq<byte>)
    ensures HexBody(HexHeader(h)[4..] + rest) == Hit(h.(format := ZHEX), 16)
  {
    HexHeaderRoundTrip(h);
    var body := HexHeader(h)[4..] + rest;
    assert body[..14] == HexHeader(h)[4..18];
    assert body[14] == CR && body[15] == 0x8a;
    LineEndBytes();
  }

  lemma LineEndBytes()
    ensures Like(CR, CR) && Like(0x8a, LF)
    ensures IsPad(ZPAD)
    ensures Like(ZHEX, ZHEX) && Like(ZBIN, ZBIN) && Like(ZBIN32, ZBIN32)
    ensures !Like(ZBIN, ZHEX) && !Like(ZBIN32, ZHEX) && !Like(ZBIN32, ZBIN)
    ensures !IsPad(ZDLE)
    ensures Idle(XON)
  {}

  /** Where the scan goes on after a header: past its checksum and line end,
      before the XON that a hex header may end with. */
  function HeaderEnd(sum: Sum32, ctl: bool, f: Frame): nat
    requires !f.Sub?
  {
    match f
    case Hex(_) => 18
    case Bin(_, _) => |Core(sum, ctl, f)|
  }

  /** The scanner finds `h` at the pads that `buf` begins with, and goes on at `e`. */
  ghost predicate FoundAt(r: Reader, buf: seq<byte>, h: Header, e: nat) {
    buf != [] && IsPad(buf[0]) && Head(r, buf) == Hit(h, e)
  }

  lemma HeaderFound(r: Reader, ctl: bool, f: Frame, pads: nat, rest: seq<byte>)
    requires (r.ctlIgnore ==> ctl) && !f.Sub? && 0 < pads <= Pads(f)
    ensures FoundAt(r, Encoding(r.sum, ctl, f)[Pads(f) - pads..] + rest, Reported(f), pads + HeaderEnd(r.sum, ctl, f))
  {
    hide FoundAt;
    hide HexHeader;
    hide BinHeader;
    match f
    case Hex(h) => HexFound(r, h, pads, rest);
    case Bin(h, crc32) =>
      BinFound(r, ctl, h, crc32, rest);
      assert Encoding(r.sum, ctl, f)[0..] == Encoding(r.sum, ctl, f);
  }

  /** Pads, a ZDLE and a format byte: the decision is about what follows them. */
  lemma AfterPads(r: Reader, buf: seq<byte>, pads: nat)
    requires 0 < pads && pads + 1 < |buf|
    requires forall k :: 0 <= k < pads ==> buf[k] == ZPAD
    requires buf[pads] == ZDLE
    ensures IsPad(buf[0]) && Head(r, buf) == Deeper(Body(r, buf[pads + 1], buf[pads + 2..]), pads + 2)
  {
    hide Body;
    LineEndBytes();
    PadIsNotCan(ZPAD);
    PadsAre(buf, 0, pads);
    assert buf[0..] == buf;
  }

  lemma HexFound(r: Reader, h: Header, pads: nat, rest: seq<byte>)
    requires 0 < pads <= 2
    ensures |HexHeader(h)| >= 18
    ensures FoundAt(r, HexHeader(h)[2 - pads..] + rest, h.(format := ZHEX), pads + 18)
  {
    hide HexBody;
    hide HexBytes;
    hide Head;
    HexHeaderRoundTrip(h);
    var buf := HexHeader(h)[2 - pads..] + rest;
    AfterPads(r, buf, pads);
    assert buf[pads + 2..] == HexHeader(h)[4..] + rest;
    HexBodyFound(h, rest);
    LineEndBytes();
  }

  lemma BinFound(r: Reader, ctl: bool, h: Header, crc32: bool, rest: seq<byte>)
    requires (r.ctlIgnore ==> ctl)
    ensures var code := BinHeader(r.sum, crc32, ctl, h);
            code != [] && FoundAt(r, code + rest, h.(format := if crc32 then ZBIN32 else ZBIN), |code|)
  {
    hide BinBody;
    hide Escape;
    hide Head;
    var vals := h.Raw() + Trailer(r.sum, crc32, h.Raw());
    var buf := BinHeader(r.sum, crc32, ctl, h) + rest;
    assert buf[0] == ZPAD && buf[1] == ZDLE;
    AfterPads(r, buf, 1);
    assert buf[3..] == Escape(ctl, 0, vals) + rest;
    BinBodyFound(r, ctl, h, crc32, rest);
    LineEndBytes();
  }

  /** What of a header the scan leaves behind: nothing, or one XON. */
  lemma HeaderLeftover(r: Reader, ctl: bool, f: Frame)
    requires !f.Sub?
    ensures var code := Encoding(r.sum, ctl, f);
            var e := Pads(f) + HeaderEnd(r.sum, ctl, f);
            e <= |code| && (code[e..] == [] || code[e..] == [XON])
  {
    hide Escape;
    hide HexBytes;
    if f.Hex? {
      HexHeaderRoundTrip(f.h);
    }
  }

  // ---- whole streams ----

  /** Noise, then a stream: the events are the stream's headers. */
  lemma {:induction false} StreamEvents(r: Reader, ctl: bool, x: seq<byte>, fs: seq<Frame>)
    requires Ready(r, ctl, fs) && Noise(x) && (fs != [] ==> Joins(x, Encoding(r.sum, ctl, fs[0])))
    ensures Events(r, x + Stream(r.sum, ctl, fs)) == Headers(fs)
    decreases |fs|, 0
  {
    hide Events;
    hide Encoding;
    hide Opener;
    hide Head;
    if fs == [] {
      NoiseIsSilent(r, x, []);
      EventsOfNothing(r);
    } else {
      var f, rest := fs[0], Stream(r.sum, ctl, fs[1..]);
      if f.Sub? {
        SubIsNoise(r.sum, ctl, f);
        EncodingIsSome(r.sum, ctl, f);
        NoiseConcat(x, Encoding(r.sum, ctl, f));
        assert x + Stream(r.sum, ctl, fs) == x + Encoding(r.sum, ctl, f) + rest;
        StreamEvents(r, ctl, x + Encoding(r.sum, ctl, f), fs[1..]);
        assert Headers(fs) == [] + Headers(fs[1..]) == Headers(fs[1..]);
      } else {
        PaddedHeader(r, ctl, f, Pads(f), fs[1..]);
        HeaderFound(r, ctl, f, Pads(f), rest);
        assert Encoding(r.sum, ctl, f)[0..] == Encoding(r.sum, ctl, f);
        NoiseIsSilent(r, x, Encoding(r.sum, ctl, f) + rest);
      }
    }
  }

  /** A header with some of its pads left, then a stream. */
  lemma {:induction false} PaddedHeader(r: Reader, ctl: bool, f: Frame, pads: nat, fs: seq<Frame>)
    requires Ready(r, ctl, fs) && !f.Sub? && 0 < pads <= Pads(f)
    ensures Events(r, Encoding(r.sum, ctl, f)[Pads(f) - pads..] + Stream(r.sum, ctl, fs)) == [Hdr(Reported(f))] + Headers(fs)
    decreases |fs|, 1
  {
    hide Events;
    hide Encoding;
    hide Opener;
    hide Head;
    hide HeaderEnd;
    hide Noise;
    hide Joins;
    hide IsPad;
    hide Safe;
    var code, rest := Encoding(r.sum, ctl, f), Stream(r.sum, ctl, fs);
    HeaderFound(r, ctl, f, pads, rest);
    HeaderLeftover(r, ctl, f);
    var e := pads + HeaderEnd(r.sum, ctl, f);
    var buf := code[Pads(f) - pads..] + rest;
    EventsStep(r, buf);
    var left := code[Pads(f) + HeaderEnd(r.sum, ctl, f)..];
    assert buf[e..] == left + rest;
    XonIsNoise();
    if fs != [] {
      JoinsEasily(left, Encoding(r.sum, ctl, fs[0]));
    }
    StreamEvents(r, ctl, left, fs);
  }

  lemma XonIsNoise()
    ensures Noise([XON]) && Noise([]) && !IsPad(XON)
  {}

  lemma ReadyStep(r: Reader, ctl: bool, fs: seq<Frame>)
    requires Ready(r, ctl, fs) && fs != []
    ensures Ready(r, ctl, fs[1..]) && Sendable(fs[0]) && MildFrame(r.sum, ctl, fs[0])
    ensures |fs| > 1 ==> Joins(Encoding(r.sum, ctl, fs[0]), Encoding(r.sum, ctl, fs[1]))
  {
    hide MildFrame;
    hide Joins;
    hide Encoding;
  }

  lemma JoinsTail(x: seq<byte>, cut: nat, y: seq<byte>)
    requires Joins(x, y) && cut < |x|
    ensures Joins(x[cut..], y)
  {}

  /** What is left of a frame cut after its pads yields nothing. */
  lemma {:induction false} CutFrame(r: Reader, ctl: bool, fs: seq<Frame>, cut: nat)
    requires Ready(r, ctl, fs) && fs != []
    requires Pads(fs[0]) <= cut < |Encoding(r.sum, ctl, fs[0])|
    ensures Events(r, Encoding(r.sum, ctl, fs[0])[cut..] + Stream(r.sum, ctl, fs[1..])) == Headers(fs[1..])
  {
    hide Encoding;
    hide Noise;
    hide Joins;
    hide MildFrame;
    hide Ready;
    hide Events;
    hide Headers;
    hide Core;
    var f, code := fs[0], Encoding(r.sum, ctl, fs[0]);
    ReadyStep(r, ctl, fs);
    if |fs| > 1 {
      JoinsTail(code, cut, Encoding(r.sum, ctl, fs[1]));
    }
    if f.Sub? {
      SubIsNoise(r.sum, ctl, f);
      NoiseSuffix(code, cut);
      StreamEvents(r, ctl, code[cut..], fs[1..]);
    } else {
      CoreIsNoise(r.sum, ctl, f);
      var core := Core(r.sum, ctl, f);
      if cut == Pads(f) {
        CutAtZdle(r, ctl, core, fs[1..]);
      } else {
        NoiseSuffix(core[1..], cut - Pads(f) - 1);
        assert code[cut..] == core[1..][cut - Pads(f) - 1..];
        StreamEvents(r, ctl, code[cut..], fs[1..]);
      }
    }
  }

  lemma CutAtZdle(r: Reader, ctl: bool, core: seq<byte>, fs: seq<Frame>)
    requires Ready(r, ctl, fs) && (fs != [] ==> Joins(core, Encoding(r.sum, ctl, fs[0])))
    requires |core| > 1 && core[0] == CAN && core[1] != CAN && Noise(core[1..])
    ensures Events(r, core + Stream(r.sum, ctl, fs)) == Headers(fs)
  {
    hide Events;
    hide Head;
    hide Opener;
    hide Stream;
    hide Encoding;
    hide Ready;
    hide IsPad;
    assert core[1..][|core| - 2] == core[|core| - 1];
    var buf := core + Stream(r.sum, ctl, fs);
    LoneCan(r, buf);
    EventsStep(r, buf);
    assert buf[1..] == core[1..] + Stream(r.sum, ctl, fs);
    StreamEvents(r, ctl, core[1..], fs);
  }

  lemma CoreIsNoise(sum: Sum32, ctl: bool, f: Frame)
    requires !f.Sub? && MildFrame(sum, ctl, f)
    ensures var core := Core(sum, ctl, f);
            |core| > 1 && core[0] == CAN && core[1] != CAN && Noise(core[1..])
            && Encoding(sum, ctl, f)[Pads(f)..] == core
  {
    hide HexHeader;
    hide BinHeader;
    hide Noise;
    hide Mild;
    match f
    case Hex(h) =>
      HexIsNoise(h);
      assert HexHeader(h)[2..][1..] == HexHeader(h)[3..];
    case Bin(h, crc32) =>
      BinIsNoise(sum, ctl, h, crc32);
      assert BinHeader(sum, crc32, ctl, h)[1..][1..] == BinHeader(sum, crc32, ctl, h)[2..];
  }

  lemma BinIsNoise(sum: Sum32, ctl: bool, h: Header, crc32: bool)
    requires Mild(ctl, h.Raw() + Trailer(sum, crc32, h.Raw()))
    ensures var code := BinHeader(sum, crc32, ctl, h);
            |code| > 2 && code[1] == CAN && code[2] != CAN && Noise(code[2..])
  {
    hide Escape;
    hide Noise;
    hide Joins;
    hide IsPad;
    hide Opener;
    hide Mild;
    var vals := h.Raw() + Trailer(sum, crc32, h.Raw());
    EscapeIsNoise(ctl, 0, vals);
    var format := if crc32 then ZBIN32 else ZBIN;
    FormatIsNoise();
    JoinsEasily([format], Escape(ctl, 0, vals));
    NoiseConcat([format], Escape(ctl, 0, vals));
    assert BinHeader(sum, crc32, ctl, h)[2..] == [format] + Escape(ctl, 0, vals);
  }

  lemma FormatIsNoise()
    ensures !IsPad(ZBIN32) && !IsPad(ZBIN) && Noise([ZBIN32]) && Noise([ZBIN]) && ZBIN != CAN && ZBIN32 != CAN
  {}

  lemma HexIsNoise(h: Header)
    ensures |HexHeader(h)| > 3 && HexHeader(h)[2] == CAN && HexHeader(h)[3] != CAN
    ensures Noise(HexHeader(h)[3..])
  {
    hide HexBytes;
    hide Opener;
    var digits := HexBytes(h.Raw() + Bytes16(Crc16(h.Raw())));
    HexBytesAreDigits(h.Raw() + Bytes16(Crc16(h.Raw())));
    forall k | 3 <= k < |HexHeader(h)|
      ensures HexHeader(h)[k] != CAN
    {
      if 4 <= k < 4 + |digits| {
        assert HexHeader(h)[k] == digits[k - 4];
      }
    }
  }

  lemma {:induction false} HexBytesAreDigits(s: seq<byte>)
    ensures forall k :: 0 <= k < |HexBytes(s)| ==> HexBytes(s)[k] != CAN
  {
    if s != [] {
      NibblesSmall(s[0]);
      DigitIsNotCan(s[0] >> 4);
      DigitIsNotCan(s[0] & 0x0f);
      HexBytesAreDigits(s[1..]);
    }
  }

  lemma DigitIsNotCan(n: byte)
    requires n < 16
    ensures Digit(n) != CAN
  {}

  /** Unambiguous resynchronisation, in a stream in which nothing fakes a header: always
      if not all control characters are escaped (Fakes.PlainIsSafe), and exactly where
      Fakes.FakedExactly says if they are. */
  lemma {:induction false} ResyncAnywhere(r: Reader, ctl: bool, fs: seq<Frame>, cut: nat)
    requires Ready(r, ctl, fs)
    requires cut <= |Stream(r.sum, ctl, fs)|
    ensures Events(r, Stream(r.sum, ctl, fs)[cut..]) == Surviving(r.sum, ctl, fs, cut)
    decreases |fs|
  {
    hide Events;
    hide Encoding;
    hide Ready;
    if fs == [] {
      EventsOfNothing(r);
    } else {
      ReadyStep(r, ctl, fs);
      var code, rest := Encoding(r.sum, ctl, fs[0]), Stream(r.sum, ctl, fs[1..]);
      if cut >= |code| {
        assert Stream(r.sum, ctl, fs)[cut..] == rest[cut - |code|..];
        ResyncAnywhere(r, ctl, fs[1..], cut - |code|);
      } else {
        assert Stream(r.sum, ctl, fs)[cut..] == code[cut..] + rest;
        if cut < Pads(fs[0]) {
          PaddedHeader(r, ctl, fs[0], Pads(fs[0]) - cut, fs[1..]);
        } else {
          CutFrame(r, ctl, fs, cut);
        }
      }
    }
  }
}
