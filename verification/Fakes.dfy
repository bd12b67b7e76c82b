/** Exactly when data can pass for a header. */
module Fakes {
  import opened Crc
  import opened Proto
  import opened Unescape
  import opened Scan
  import opened Resync

  /** Here a scanner takes what follows for a header. */
  predicate Opens(buf: seq<byte>) {
    |buf| > 2 && IsPad(buf[0]) && buf[1] == ZDLE && Opener(buf[2])
  }

  /** It does not pass over it: it waits, or judges it. */
  lemma OpensIsTaken(r: Reader, buf: seq<byte>)
    requires Opens(buf)
    ensures Head(r, buf) == Deeper(Body(r, buf[2], buf[3..]), 3) && !Head(r, buf).Skip?
  {
    hide Body;
    LineEndBytes();
    PadIsNotCan(buf[0]);
    PadsAre(buf, 0, 1);
    assert buf[0..] == buf;
    assert PadRun(buf) == 1;
    BodyIsTaken(r, buf[2], buf[3..]);
  }

  lemma BodyIsTaken(r: Reader, format: byte, rest: seq<byte>)
    requires Opener(format)
    ensures !Body(r, format, rest).Skip?
  {
    hide UnescapeN;
    hide DecodeHexDigits;
    UnescapedLength(rest, 0, 7, r.ctlIgnore);
    UnescapedLength(rest, 0, 9, r.ctlIgnore);
  }

  /** Somewhere after the pads of a frame something opens that is no header of the stream. */
  ghost predicate Faked(sum: Sum32, ctl: bool, fs: seq<Frame>) {
    fs != [] &&
    ((exists cut :: Pads(fs[0]) <= cut < |Encoding(sum, ctl, fs[0])|
                    && Opens(Encoding(sum, ctl, fs[0])[cut..] + Stream(sum, ctl, fs[1..])))
     || Faked(sum, ctl, fs[1..]))
  }

  // ---- where nothing is faked ----

  lemma NoiseOpensNothing(x: seq<byte>, cut: nat, rest: seq<byte>)
    requires Noise(x) && cut + 1 < |x|
    ensures !Opens(x[cut..] + rest)
  {
    hide Opener;
    hide IsPad;
    var buf := x[cut..] + rest;
    assert buf[0] == x[cut] && buf[1] == x[cut + 1];
    if x[cut + 1] == CAN {
      assert buf[2] == x[cut + 2];
    }
  }

  lemma LastOpensNothing(x: seq<byte>, y: seq<byte>, rest: seq<byte>)
    requires x != [] && |y| > 1 && Joins(x, y)
    ensures !Opens(x[|x| - 1..] + (y + rest))
  {
    hide Opener;
    hide IsPad;
    var buf := x[|x| - 1..] + (y + rest);
    assert buf[0] == x[|x| - 1] && buf[1] == y[0] && buf[2] == y[1];
  }

  lemma FrameNoise(sum: Sum32, ctl: bool, f: Frame)
    requires Sendable(f) && MildFrame(sum, ctl, f)
    ensures Pads(f) < |Encoding(sum, ctl, f)|
    ensures if f.Sub? then Noise(Encoding(sum, ctl, f)) else
            Encoding(sum, ctl, f)[Pads(f)] == CAN && Noise(Encoding(sum, ctl, f)[Pads(f) + 1..])
  {
    hide Noise;
    hide MildFrame;
    hide Encoding;
    EncodingIsSome(sum, ctl, f);
    if f.Sub? {
      SubIsNoise(sum, ctl, f);
    } else {
      CoreIsNoise(sum, ctl, f);
      assert Core(sum, ctl, f)[1..] == Encoding(sum, ctl, f)[Pads(f) + 1..];
      assert Encoding(sum, ctl, f)[Pads(f)] == Core(sum, ctl, f)[0];
    }
  }

  lemma FrameOpensNothing(sum: Sum32, ctl: bool, fs: seq<Frame>, cut: nat)
    requires fs != [] && Safe(sum, ctl, fs) && forall f :: f in fs ==> Sendable(f)
    requires Pads(fs[0]) <= cut < |Encoding(sum, ctl, fs[0])|
    ensures !Opens(Encoding(sum, ctl, fs[0])[cut..] + Stream(sum, ctl, fs[1..]))
  {
    hide Noise;
    hide Joins;
    hide MildFrame;
    hide Encoding;
    hide Opens;
    var f, code, rest := fs[0], Encoding(sum, ctl, fs[0]), Stream(sum, ctl, fs[1..]);
    FrameNoise(sum, ctl, f);
    if cut + 1 == |code| {
      if |fs| > 1 {
        EncodingIsSome(sum, ctl, fs[1]);
        LastOpensNothing(code, Encoding(sum, ctl, fs[1]), Stream(sum, ctl, fs[2..]));
        assert fs[1..][1..] == fs[2..];
      } else {
        ShortOpensNothing(code[cut..] + rest);
      }
    } else if f.Sub? {
      NoiseOpensNothing(code, cut, rest);
    } else if cut == Pads(f) {
      CanOpensNothing(code[cut..] + rest);
    } else {
      var core := code[Pads(f) + 1..];
      NoiseOpensNothing(core, cut - Pads(f) - 1, rest);
      assert core[cut - Pads(f) - 1..] == code[cut..];
    }
  }

  lemma ShortOpensNothing(buf: seq<byte>)
    requires |buf| < 3
    ensures !Opens(buf)
  {}

  lemma CanOpensNothing(buf: seq<byte>)
    requires buf != [] && buf[0] == CAN
    ensures !Opens(buf)
  {
    PadIsNotCan(buf[0]);
  }

  // ---- where something is ----

  /** A pad right before such a byte opens, escaped, where the pad is. */
  lemma {:induction false} LowOpens(last: byte, data: seq<byte>, k: nat) returns (j: nat)
    requires k + 1 < |data| && IsPad(data[k]) && Opening(data[k + 1])
    ensures j + 2 < |Escape(true, last, data)| && Opens(Escape(true, last, data)[j..])
  {
    hide Escape;
    hide Needs;
    hide Toggle;
    hide Opening;
    hide IsPad;
    hide Opener;
    var before, pair, after := data[..k], data[k..k + 2], data[k + 2..];
    assert data == before + (pair + after);
    var mid := LastOf(last, before);
    EscapeConcat(true, last, before, pair + after);
    EscapeConcat(true, mid, pair, after);
    PairOpens(mid, data[k], data[k + 1]);
    assert pair == [data[k], data[k + 1]];
    j := |Escape(true, last, before)|;
    var tail := Escape(true, mid, pair) + Escape(true, LastOf(mid, pair), after);
    assert Escape(true, last, data) == Escape(true, last, before) + tail;
    assert Escape(true, last, data)[j..] == tail;
  }

  lemma PairOpens(last: byte, a: byte, b: byte)
    requires IsPad(a) && Opening(b)
    ensures Escape(true, last, [a, b]) == [a, ZDLE, Toggle(b)] && Opener(Toggle(b))
  {
    hide Toggle;
    hide Opening;
    hide IsPad;
    hide Opener;
    hide Needs;
    EscapedPair(true, last, a);
    EscapedPair(true, a, b);
    assert [a, b][1..] == [b] && [b][1..] == [];
    assert Escape(true, last, [a, b]) == EscapeByte(true, last, a) + Escape(true, a, [b]);
    assert Escape(true, a, [b]) == EscapeByte(true, a, b) + Escape(true, b, []);
  }

  lemma OpensInside(a: seq<byte>, e: seq<byte>, b: seq<byte>, rest: seq<byte>, j: nat)
    requires j + 2 < |e| && Opens(e[j..])
    ensures |a| + j < |a + e + b| && Opens((a + e + b)[|a| + j..] + rest)
  {
    hide Opener;
    hide IsPad;
    var buf := (a + e + b)[|a| + j..] + rest;
    assert buf[0] == e[j] == e[j..][0] && buf[1] == e[j + 1] == e[j..][1] && buf[2] == e[j + 2] == e[j..][2];
  }

  lemma WildOpens(ctl: bool, last: byte, data: seq<byte>) returns (j: nat)
    requires !Mild(ctl, data)
    ensures j + 2 < |Escape(ctl, last, data)| && Opens(Escape(ctl, last, data)[j..])
  {
    hide Opening;
    hide IsPad;
    var k :| 0 <= k < |data| - 1 && IsPad(data[k]) && Opening(data[k + 1]);
    j := LowOpens(last, data, k);
  }

  lemma FrameOpens(sum: Sum32, ctl: bool, f: Frame, rest: seq<byte>) returns (cut: nat)
    requires !MildFrame(sum, ctl, f)
    ensures Pads(f) <= cut < |Encoding(sum, ctl, f)| && Opens(Encoding(sum, ctl, f)[cut..] + rest)
  {
    hide Escape;
    hide Mild;
    hide Opens;
    hide Trailer;
    match f
    case Bin(h, crc32) =>
      var vals := h.Raw() + Trailer(sum, crc32, h.Raw());
      var j := WildOpens(ctl, 0, vals);
      var start := [ZPAD, ZDLE, if crc32 then ZBIN32 else ZBIN];
      OpensInside(start, Escape(ctl, 0, vals), [], rest, j);
      assert start + Escape(ctl, 0, vals) + [] == Encoding(sum, ctl, f);
      cut := 3 + j;
    case Sub(data, end, crc32, last) => cut := SubOpens(sum, ctl, f, rest);
  }

  lemma SubOpens(sum: Sum32, ctl: bool, f: Frame, rest: seq<byte>) returns (cut: nat)
    requires f.Sub? && !MildFrame(sum, ctl, f)
    ensures cut < |Encoding(sum, ctl, f)| && Opens(Encoding(sum, ctl, f)[cut..] + rest)
  {
    hide Escape;
    hide Mild;
    hide Opens;
    hide Trailer;
    hide AfterSubpacket;
    var trailer := Trailer(sum, f.crc32, f.data + [f.end]);
    var d, check, after := Escape(ctl, f.last, f.data), Escape(ctl, f.end, trailer), AfterSubpacket(f.end);
    if !Mild(ctl, f.data) {
      cut := WildOpens(ctl, f.last, f.data);
      OpensInside([], d, [ZDLE, f.end] + check + after, rest, cut);
      assert [] + d + ([ZDLE, f.end] + check + after) == Encoding(sum, ctl, f);
    } else {
      var j := WildOpens(ctl, f.end, trailer);
      OpensInside(d + [ZDLE, f.end], check, after, rest, j);
      cut := |d| + 2 + j;
    }
  }

  lemma MeetingOpens(x: seq<byte>, y: seq<byte>, rest: seq<byte>)
    requires !Joins(x, y)
    ensures Opens(x[|x| - 1..] + (y + rest))
  {
    hide Opener;
    hide IsPad;
    var buf := x[|x| - 1..] + (y + rest);
    assert buf[0] == x[|x| - 1] && buf[1] == y[0] && buf[2] == y[1];
  }

  /** Exactly: something in a stream passes for a header if and only if a pad goes out
      right before an escaped 0x01 to 0x03. */
  lemma {:induction false} FakedExactly(sum: Sum32, ctl: bool, fs: seq<Frame>)
    requires forall f :: f in fs ==> Sendable(f)
    ensures Faked(sum, ctl, fs) <==> !Safe(sum, ctl, fs)
    decreases |fs|
  {
    hide MildFrame;
    hide Joins;
    hide Encoding;
    hide Opens;
    if fs != [] {
      FakedExactly(sum, ctl, fs[1..]);
      if Safe(sum, ctl, fs) {
        forall cut | Pads(fs[0]) <= cut < |Encoding(sum, ctl, fs[0])|
          ensures !Opens(Encoding(sum, ctl, fs[0])[cut..] + Stream(sum, ctl, fs[1..]))
        {
          FrameOpensNothing(sum, ctl, fs, cut);
        }
      } else if !MildFrame(sum, ctl, fs[0]) {
        var cut := FrameOpens(sum, ctl, fs[0], Stream(sum, ctl, fs[1..]));
      } else if |fs| > 1 && !Joins(Encoding(sum, ctl, fs[0]), Encoding(sum, ctl, fs[1])) {
        EncodingIsSome(sum, ctl, fs[0]);
        MeetingOpens(Encoding(sum, ctl, fs[0]), Encoding(sum, ctl, fs[1]), Stream(sum, ctl, fs[2..]));
        assert fs[1..][1..] == fs[2..];
      }
    }
  }

  /** While not all control characters are escaped nothing ever does. */
  lemma {:induction false} PlainIsSafe(sum: Sum32, fs: seq<Frame>)
    requires forall f :: f in fs ==> Sendable(f)
    ensures Safe(sum, false, fs)
    decreases |fs|
  {
    hide Joins;
    hide Encoding;
    if fs != [] {
      PlainIsSafe(sum, fs[1..]);
      if |fs| > 1 {
        StartOpensNothing(sum, fs[1]);
        JoinsEasily(Encoding(sum, false, fs[0]), Encoding(sum, false, fs[1]));
      }
    }
  }

  lemma StartOpensNothing(sum: Sum32, f: Frame)
    requires Sendable(f)
    ensures var e := Encoding(sum, false, f); |e| > 1 && (e[0] == CAN ==> !Opener(e[1]))
  {
    hide Escape;
    hide Needs;
    hide Toggle;
    hide Opener;
    EncodingIsSome(sum, false, f);
    if f.Sub? {
      FrameEndsOpenNothing(f.end);
      if f.data != [] {
        EscapeFirst(false, f.last, f.data);
        EscapedPair(false, f.last, f.data[0]);
      } else {
        assert Escape(false, f.last, f.data) == [] by {
          NothingEscaped(f.last);
        }
      }
    }
  }

  lemma NothingEscaped(last: byte)
    ensures Escape(false, last, []) == []
  {}

  /** And then it can be taken for a good one: with every control character escaped a pad
      followed by the data byte 0x02 goes out as pad, ZDLE, 'B', and fourteen digits after it are a
      header to any scanner, although only data was sent. */
  lemma EscapedControlFakesAHeader(r: Reader, h: Header)
    ensures var fake := HexHeader(h)[4..18];
            var line := Escape(true, 0, [ZPAD, 0x02] + fake);
            line != [] && Head(r, line) == Hit(h.(format := ZHEX), 17)
  {
    hide HexBytes;
    hide Escape;
    hide Head;
    var fake := HexHeader(h)[4..18];
    HexHeaderRoundTrip(h);
    var raw := h.Raw() + Bytes16(Crc16(h.Raw()));
    assert fake == HexBytes(raw);
    PlainEscapes(raw);
    LineEndBytes();
    var buf := [ZPAD, ZDLE, ZHEX] + fake;
    AfterPads(r, buf, 1);
    assert buf[3..] == fake && fake[..14] == fake;
  }

  lemma PlainEscapes(raw: seq<byte>)
    ensures var s := HexBytes(raw);
            Escape(true, 0, [ZPAD, 0x02] + s) == [ZPAD, ZDLE, ZHEX] + s
  {
    hide HexBytes;
    hide EscapeByte;
    var s := HexBytes(raw);
    var all := [ZPAD, 0x02] + s;
    assert all[1..] == [0x02] + s;
    assert all[1..][1..] == s;
    FakePair();
    DigitsArePlain(raw);
    PlainUnescaped(0x02, s);
  }

  lemma FakePair()
    ensures EscapeByte(true, 0, ZPAD) == [ZPAD]
    ensures EscapeByte(true, ZPAD, 0x02) == [ZDLE, ZHEX]
  {}

  lemma {:induction false} PlainUnescaped(last: byte, s: seq<byte>)
    requires forall k :: 0 <= k < |s| ==> Plain(s[k])
    ensures Escape(true, last, s) == s
    decreases |s|
  {
    if s != [] {
      NeedsEscaping(true, last, s[0]);
      forall k | 0 <= k < |s[1..]|
        ensures Plain(s[1..][k])
      {
        assert s[1..][k] == s[k + 1];
      }
      PlainUnescaped(s[0], s[1..]);
    }
  }

  lemma {:induction false} DigitsArePlain(s: seq<byte>)
    ensures forall k :: 0 <= k < |HexBytes(s)| ==> Plain(HexBytes(s)[k])
  {
    if s != [] {
      NibblesSmall(s[0]);
      DigitIsPlain(s[0] >> 4);
      DigitIsPlain(s[0] & 0x0f);
      DigitsArePlain(s[1..]);
    }
  }

  lemma DigitIsPlain(n: byte)
    requires n < 16
    ensures Plain(Digit(n))
  {}
}
