/** Giving up: five CAN in a row end the session wherever the scanner meets them, and
    fewer do not. */
module Cancels {
  import opened Crc
  import opened Proto
  import opened Unescape
  import opened Scan

  const FIVE: seq<byte> := [0x18, 0x18, 0x18, 0x18, 0x18]

  function Cans(n: nat): (s: seq<byte>)
    ensures |s| == n && forall i :: 0 <= i < n ==> s[i] == 0x18
  {
    if n == 0 then [] else [0x18] + Cans(n - 1)
  }

  /** Neither a pad nor a CAN. */
  predicate Noise(s: seq<byte>) {
    forall i :: 0 <= i < |s| ==> s[i] !in {0x2a, 0xaa, 0x18}
  }

  lemma NoiseIsNoPad(b: byte)
    ensures b !in {0x2a, 0xaa, 0x18} ==> !IsPad(b) && b != CAN
    ensures IsPad(0x2a) && !IsPad(0x18) && IsPad(0xaa)
  {}

  /** Noise is passed over. */
  lemma {:induction false} NoiseIsNothing(r: Reader, s: seq<byte>, more: seq<byte>)
    requires Noise(s)
    ensures Events(r, s + more) == Events(r, more)
    decreases |s|
  {
    hide Body;
    hide IsPad;
    if s == [] {
      assert s + more == more;
    } else {
      NoiseIsNoPad(s[0]);
      assert (s + more)[1..] == s[1..] + more;
      NoiseIsNothing(r, s[1..], more);
    }
  }

  lemma {:induction false} CanRunIs(n: nat, s: seq<byte>)
    requires s != [] ==> s[0] != 0x18
    ensures CanRun(Cans(n) + s) == n
    decreases n
  {
    if n == 0 {
      assert Cans(n) + s == s;
    } else {
      assert (Cans(n) + s)[1..] == Cans(n - 1) + s;
      CanRunIs(n - 1, s);
    }
  }

  lemma {:induction false} FiveRun(n: nat, s: seq<byte>)
    ensures CanRun(Cans(n) + s) >= n
    decreases n
  {
    if n > 0 {
      assert (Cans(n) + s)[1..] == Cans(n - 1) + s;
      FiveRun(n - 1, s);
    }
  }

  /** After noise, five CAN end the session, whatever follows. */
  lemma {:induction false} FiveCancel(r: Reader, noise: seq<byte>, rest: seq<byte>)
    requires Noise(noise)
    ensures Events(r, noise + (FIVE + rest)) == [Cancelled]
  {
    hide Body;
    hide IsPad;
    NoiseIsNothing(r, noise, FIVE + rest);
    assert FIVE == Cans(5);
    FiveRun(5, rest);
    var buf := FIVE + rest;
    assert buf != [] && buf[0] == CAN;
    assert Head(r, buf).Stop?;
  }

  /** Fewer are noise too, once another byte has come. */
  lemma {:induction false} FewDoNot(r: Reader, n: nat, rest: seq<byte>)
    requires n < 5 && rest != [] && rest[0] != 0x18
    ensures Events(r, Cans(n) + rest) == Events(r, rest)
  {
    hide Body;
    hide IsPad;
    if n == 0 {
      assert Cans(n) + rest == rest;
    } else {
      CanRunIs(n, rest);
      assert (Cans(n) + rest)[n..] == rest;
    }
  }

  // ---- inside a binary header ----

  lemma FiveIsCancel(buf: seq<byte>, i: nat, ctlIgnore: bool)
    requires i + 5 <= |buf| && buf[i] == buf[i + 1] == buf[i + 2] == buf[i + 3] == buf[i + 4] == 0x18
    ensures HdrItem(buf, i, ctlIgnore) == Cancel(i + 5)
  {
    CanIsControl();
    hide Plain;
    assert HdrEscaped(buf, i + 4, 4, ctlIgnore) == Cancel(i + 5);
    assert HdrEscaped(buf, i + 3, 3, ctlIgnore) == HdrEscaped(buf, i + 4, 4, ctlIgnore);
    assert HdrEscaped(buf, i + 2, 2, ctlIgnore) == HdrEscaped(buf, i + 3, 3, ctlIgnore);
    assert HdrEscaped(buf, i + 1, 1, ctlIgnore) == HdrEscaped(buf, i + 2, 2, ctlIgnore);
  }

  lemma CanIsControl()
    ensures !Plain(0x18)
  {}

  lemma {:induction false} UnescapeStops(buf: seq<byte>, i: nat, k: nat, n: nat, ctlIgnore: bool)
    requires k < n && i + k + 5 <= |buf|
    requires forall j :: i <= j < i + k ==> Plain(buf[j])
    requires forall j :: i + k <= j < i + k + 5 ==> buf[j] == 0x18
    ensures UnescapeN(buf, i, n, ctlIgnore) == Stopped(i + k + 5)
    decreases k
  {
    hide Plain;
    hide HdrEscaped;
    if k == 0 {
      FiveIsCancel(buf, i, ctlIgnore);
    } else {
      UnescapeStops(buf, i + 1, k - 1, n - 1, ctlIgnore);
    }
  }

  /** A binary header that breaks off in five CAN is no damaged header: the session ends
      there and then. */
  lemma {:induction false} FiveInHeader(r: Reader, crc32: bool, part: seq<byte>, rest: seq<byte>)
    requires |part| < (if crc32 then 9 else 7) && forall i :: 0 <= i < |part| ==> Plain(part[i])
    ensures Events(r, [0x2a, 0x18, if crc32 then 0x43 else 0x41] + (part + FIVE + rest)) == [Cancelled]
  {
    hide UnescapeN;
    hide Plain;
    var body := part + FIVE + rest;
    var format: byte := if crc32 then 0x43 else 0x41;
    var buf := [0x2a, 0x18, format] + body;
    UnescapeStops(body, 0, |part|, if crc32 then 9 else 7, r.ctlIgnore);
    assert BinBody(r, crc32, body) == Stop(|part| + 5);
    FormatIs(format, crc32);
    NoiseIsNoPad(0);
    assert buf[1..][0] == 0x18 && PadRun(buf[1..]) == 0 && PadRun(buf) == 1;
    assert buf[3..] == body;
    assert Head(r, buf).Stop?;
  }

  lemma FormatIs(format: byte, crc32: bool)
    requires format == if crc32 then 0x43 else 0x41
    ensures !Like(format, ZHEX) && (Like(format, ZBIN) <==> !crc32) && (Like(format, ZBIN32) <==> crc32)
  {}

  // ---- damage in a binary header ----

  /** A byte that may not follow ZDLE in a header: a frame end, or one that is no control
      character moved. */
  predicate NoPair(c: byte, ctlIgnore: bool) {
    && c != 0x18 && !Skipped(c, ctlIgnore) && c != 0x6c && c != 0x6d
    && !(0x40 <= c < 0x60 || 0xc0 <= c < 0xe0)
  }

  lemma NoPairIsBad(buf: seq<byte>, i: nat, ctlIgnore: bool)
    requires i + 2 <= |buf| && buf[i] == 0x18 && NoPair(buf[i + 1], ctlIgnore)
    ensures HdrItem(buf, i, ctlIgnore) == Bad(i + 2)
  {
    CanIsControl();
    EscapeesAre(buf[i + 1]);
    hide Plain;
    hide Skipped;
    hide Escapee;
    assert HdrEscaped(buf, i + 1, 1, ctlIgnore) == Bad(i + 2);
  }

  lemma EscapeesAre(c: byte)
    ensures Escapee(c) <==> 0x40 <= c < 0x60 || 0xc0 <= c < 0xe0
  {}

  lemma {:induction false} UnescapeBreaks(buf: seq<byte>, i: nat, k: nat, n: nat, ctlIgnore: bool)
    requires k < n && i + k + 2 <= |buf|
    requires forall j :: i <= j < i + k ==> Plain(buf[j])
    requires buf[i + k] == 0x18 && NoPair(buf[i + k + 1], ctlIgnore)
    ensures UnescapeN(buf, i, n, ctlIgnore).Broken?
    decreases k
  {
    hide Plain;
    hide HdrEscaped;
    hide NoPair;
    if k == 0 {
      NoPairIsBad(buf, i, ctlIgnore);
    } else {
      UnescapeBreaks(buf, i + 1, k - 1, n - 1, ctlIgnore);
    }
  }

  /** A binary header with such a pair, or a frame end, in it is damaged. */
  lemma {:induction false} BadPairInHeader(r: Reader, crc32: bool, part: seq<byte>, c: byte, rest: seq<byte>)
    requires |part| < (if crc32 then 9 else 7) && forall i :: 0 <= i < |part| ==> Plain(part[i])
    requires NoPair(c, r.ctlIgnore)
    ensures var s := [0x2a, 0x18, if crc32 then 0x43 else 0x41] + (part + [0x18, c] + rest);
            Events(r, s) == [BadHdr] + Events(r, s[1..])
  {
    hide UnescapeN;
    hide Plain;
    hide NoPair;
    var body := part + [0x18, c] + rest;
    var format: byte := if crc32 then 0x43 else 0x41;
    var buf := [0x2a, 0x18, format] + body;
    UnescapeBreaks(body, 0, |part|, if crc32 then 9 else 7, r.ctlIgnore);
    FormatIs(format, crc32);
    NoiseIsNoPad(0);
    assert buf[1..][0] == 0x18 && PadRun(buf[1..]) == 0 && PadRun(buf) == 1;
    assert buf[3..] == body;
    assert Head(r, buf).Junk?;
  }
}
