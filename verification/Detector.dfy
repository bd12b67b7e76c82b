/** Finding the start of a transfer in what a device prints: a hex ZRQINIT or ZRINIT
    with a good checksum. Bytes that may still become one are held back. */
module Detector {
  import opened Crc
  import opened Proto

  const RZ: seq<byte> := [0x72, 0x7a, 0x0d]

  datatype Verdict = Hold | Pass | Found(kind: byte)

  function Pads(cand: seq<byte>): nat {
    if |cand| > 1 && cand[1] == ZPAD then 2 else 1
  }

  /** A byte that may stand `k` places into a header with `pads` ZPADs. */
  predicate Fits(b: byte, k: nat, pads: nat) {
    if k == pads then b == ZDLE
    else if k == pads + 1 then b == ZHEX
    else HexValue(b).Some?
  }

  predicate CouldBe(cand: seq<byte>, pads: nat) {
    forall k :: pads <= k < |cand| ==> Fits(cand[k], k, pads)
  }

  predicate Starts(kind: byte) {
    kind == ZRQINIT || kind == ZRINIT
  }

  /** What to do about the ZPAD that `cand` begins with. */
  function Judge(cand: seq<byte>): Verdict {
    var j := Pads(cand);
    if |cand| < j + 16 then (if CouldBe(cand, j) then Hold else Pass)
    else if cand[j] != ZDLE || cand[j + 1] != ZHEX then Pass
    else
      match DecodeHexDigits(cand[j + 2..j + 16])
      case None => Pass
      case Some(h) => if Starts(h.kind) then Found(h.kind) else Pass
  }

  /** The device's command name before the header is not shown. */
  function Trim(s: seq<byte>): seq<byte> {
    if |s| >= 3 && s[|s| - 3..] == RZ then s[..|s| - 3] else s
  }

  datatype Fed = Fed(show: seq<byte>, kind: Option<byte>, hold: seq<byte>)

  function Detect(buf: seq<byte>, i: nat): Fed
    requires i <= |buf|
    decreases |buf| - i
  {
    if i == |buf| then Fed(buf, None, [])
    else if buf[i] != ZPAD then Detect(buf, i + 1)
    else
      match Judge(buf[i..])
      case Hold => Fed(buf[..i], None, buf[i..])
      case Pass => Detect(buf, i + 1)
      case Found(kind) => Fed(Trim(buf[..i]), Some(kind), [])
  }

  class ZDetector {
    var hold: seq<byte>

    constructor ()
      ensures hold == []
    {
      hold := [];
    }

    method CouldBeHexHeader(cand: seq<byte>, pads: nat) returns (ok: bool)
      ensures ok == CouldBe(cand, pads)
    {
      var k := pads;
      while k < |cand|
        invariant forall m :: pads <= m < k && m < |cand| ==> Fits(cand[m], m, pads)
      {
        if k == pads && cand[k] != ZDLE {
          return false;
        }
        if k == pads + 1 && cand[k] != ZHEX {
          return false;
        }
        if k > pads + 1 && HexValue(cand[k]).None? {
          return false;
        }
        k := k + 1;
      }
      ok := true;
    }

    method JudgeAt(cand: seq<byte>) returns (v: Verdict)
      ensures v == Judge(cand)
    {
      var j: nat := 1;
      if |cand| > 1 && cand[1] == ZPAD {
        j := 2;
      }
      if |cand| < j + 16 {
        var maybe := CouldBeHexHeader(cand, j);
        return if maybe then Hold else Pass;
      }
      if cand[j] != ZDLE || cand[j + 1] != ZHEX {
        return Pass;
      }
      var h := DecodeHexHeaderDigits(cand[j + 2..j + 16]);
      if h.None? || !Starts(h.value.kind) {
        return Pass;
      }
      v := Found(h.value.kind);
    }

    /** Take what the device printed; give what to show of it, and the header's type
        once one is complete. */
    method Feed(data: seq<byte>) returns (show: seq<byte>, kind: Option<byte>)
      modifies this
      ensures Fed(show, kind, hold) == Detect(old(hold) + data, 0)
    {
      var buf := hold + data;
      hold := [];
      var i := 0;
      while i < |buf|
        invariant 0 <= i <= |buf| && hold == []
        invariant Detect(buf, i) == Detect(buf, 0)
      {
        if buf[i] == ZPAD {
          var v := JudgeAt(buf[i..]);
          match v {
            case Hold =>
              hold := buf[i..];
              return buf[..i], None;
            case Found(k) =>
              return Trim(buf[..i]), Some(k);
            case Pass =>
          }
        }
        i := i + 1;
      }
      show, kind := buf, None;
    }

    /** The output went idle: what was held is shown after all. */
    method Flush() returns (out: seq<byte>)
      modifies this
      ensures out == old(hold) && hold == []
    {
      out := hold;
      hold := [];
    }
  }

  // ---- nothing is lost or made up ----

  lemma {:induction false} DetectKeeps(buf: seq<byte>, i: nat)
    requires i <= |buf|
    ensures var d := Detect(buf, i);
            && (d.kind.None? ==> d.show + d.hold == buf && |d.show| >= i)
            && (d.hold != [] ==> d.kind.None? && Judge(d.hold).Hold? && d.hold[0] == ZPAD)
    decreases |buf| - i
  {
    hide Judge;
    if i < |buf| && (buf[i] != ZPAD || Judge(buf[i..]).Pass?) {
      DetectKeeps(buf, i + 1);
    }
  }

  /** What happens to the detector: output comes, or stays away for a while. */
  datatype Input = Output(data: seq<byte>) | Idle

  /** All that was shown, until a header is found, and what is held. */
  function After(ins: seq<Input>): (d: Fed)
    decreases |ins|
  {
    if ins == [] then Fed([], None, [])
    else
      var d := After(ins[..|ins| - 1]);
      if d.kind.Some? then d
      else
        match ins[|ins| - 1]
        case Output(data) =>
          var r := Detect(d.hold + data, 0);
          Fed(d.show + r.show, r.kind, r.hold)
        case Idle => Fed(d.show + d.hold, None, [])
  }

  function Printed(ins: seq<Input>): seq<byte>
    decreases |ins|
  {
    if ins == [] then []
    else Printed(ins[..|ins| - 1]) + if ins[|ins| - 1].Output? then ins[|ins| - 1].data else []
  }

  /** While nothing is found, what is shown and what is held back are together
      exactly what was printed, in order, however it was split and flushed. */
  lemma {:induction false} Conserved(ins: seq<Input>)
    requires After(ins).kind.None?
    ensures After(ins).show + After(ins).hold == Printed(ins)
    decreases |ins|
  {
    hide Detect;
    if ins != [] {
      var n := |ins| - 1;
      var d := After(ins[..n]);
      Conserved(ins[..n]);
      if ins[n].Output? {
        DetectKeeps(d.hold + ins[n].data, 0);
        var r := Detect(d.hold + ins[n].data, 0);
        assert d.show + r.show + r.hold == d.show + (d.hold + ins[n].data) == d.show + d.hold + ins[n].data;
      }
    }
  }

  // ---- what is held back ----

  predicate IsDigit(b: byte) {
    0x30 <= b <= 0x39 || 0x61 <= b <= 0x66 || 0x41 <= b <= 0x46
  }

  /** All of `s` may be the first part of a header: one or two pads, ZDLE, `B`, and digits
      that are not all there yet. */
  predicate MayBegin(s: seq<byte>) {
    && s != [] && s[0] == 0x2a
    && var p := if |s| > 1 && s[1] == 0x2a then 2 else 1;
       && |s| < p + 16
       && (p < |s| ==> s[p] == 0x18)
       && (p + 1 < |s| ==> s[p + 1] == 0x42)
       && forall k :: p + 2 <= k < |s| ==> IsDigit(s[k])
  }

  lemma HoldsExactly(cand: seq<byte>)
    requires cand != [] && cand[0] == ZPAD
    ensures Judge(cand).Hold? <==> MayBegin(cand)
  {
    var j := Pads(cand);
    DigitsOnly();
    assert CouldBe(cand, j) <==> forall k :: j <= k < |cand| ==> Fits(cand[k], k, j);
    if |cand| < j + 16 && MayBegin(cand) {
      assert forall k :: j <= k < |cand| ==> Fits(cand[k], k, j);
    }
  }

  lemma DigitsOnly()
    ensures forall b: byte :: HexValue(b).Some? <==> IsDigit(b)
  {}

  lemma {:induction false} DetectHolds(buf: seq<byte>, i: nat)
    requires i <= |buf| && Detect(buf, i).kind.None?
    ensures var n := |buf| - |Detect(buf, i).hold|;
            && i <= n && Detect(buf, i).hold == buf[n..]
            && (n < |buf| ==> MayBegin(buf[n..]))
            && forall k :: i <= k < n ==> !MayBegin(buf[k..])
    decreases |buf| - i
  {
    hide Judge;
    hide MayBegin;
    if i < |buf| && buf[i] != ZPAD {
      BeginsWithPad(buf[i..]);
      DetectHolds(buf, i + 1);
    } else if i < |buf| {
      HoldsExactly(buf[i..]);
      if Judge(buf[i..]).Pass? {
        DetectHolds(buf, i + 1);
      }
    }
  }

  lemma BeginsWithPad(s: seq<byte>)
    ensures MayBegin(s) ==> s[0] == ZPAD
  {}

  /** Of `pending` just what is from `n` on is held back, since it may begin a header, and
      nothing before it may. */
  predicate HeldFrom(pending: seq<byte>, held: seq<byte>, n: nat) {
    && n <= |pending| && held == pending[n..]
    && (held != [] ==> MayBegin(held))
    && forall k :: 0 <= k < n ==> !MayBegin(pending[k..])
  }

  /** Output waits only while it may still become a header, from the first place where
      it may, and then all of it. */
  lemma {:induction false} HeldExactly(ins: seq<Input>, data: seq<byte>)
    requires After(ins + [Output(data)]).kind.None?
    ensures exists n :: HeldFrom(After(ins).hold + data, After(ins + [Output(data)]).hold, n)
  {
    hide Detect;
    hide MayBegin;
    var all := ins + [Output(data)];
    assert all[..|all| - 1] == ins && all[|all| - 1] == Output(data);
    var pending, held := After(ins).hold + data, After(all).hold;
    DetectHolds(pending, 0);
    assert HeldFrom(pending, held, |pending| - |held|);
  }

  // ---- what is found is there ----

  /** A ZRQINIT or ZRINIT on the line: one or two pads, and fourteen digits, of either
      case and with or without high bits, that carry their own checksum. */
  predicate Header(e: seq<byte>, kind: byte) {
    && 17 <= |e| <= 18 && (kind == 0x00 || kind == 0x01)
    && (forall k :: 0 <= k < |e| - 16 ==> e[k] == 0x2a)
    && e[|e| - 16] == 0x18 && e[|e| - 15] == 0x42
    && DecodeHexDigits(e[|e| - 14..]).Some? && DecodeHexDigits(e[|e| - 14..]).value.kind == kind
  }

  lemma JudgedIsHeader(cand: seq<byte>, kind: byte)
    requires cand != [] && cand[0] == ZPAD && Judge(cand) == Found(kind)
    ensures Pads(cand) + 16 <= |cand| && Header(cand[..Pads(cand) + 16], kind)
  {
    hide HexValue;
    hide DecodeHexDigits;
    var e := cand[..Pads(cand) + 16];
    assert e[|e| - 14..] == cand[Pads(cand) + 2..Pads(cand) + 16];
  }

  /** A header with a good checksum begins at `p`. */
  predicate HeaderAt(s: seq<byte>, p: nat, kind: byte) {
    p < |s| && s[p] == ZPAD && Judge(s[p..]) == Found(kind)
  }

  lemma {:induction false} DetectFinds(buf: seq<byte>, i: nat) returns (p: nat)
    requires i <= |buf| && Detect(buf, i).kind.Some?
    ensures HeaderAt(buf, p, Detect(buf, i).kind.value) && Detect(buf, i).show == Trim(buf[..p])
    decreases |buf| - i
  {
    hide Judge;
    if buf[i] == ZPAD && Judge(buf[i..]).Found? {
      p := i;
    } else {
      p := DetectFinds(buf, i + 1);
    }
  }

  lemma JudgeLonger(cand: seq<byte>, more: seq<byte>)
    requires Judge(cand).Found?
    ensures Judge(cand + more) == Judge(cand)
  {
    var j := Pads(cand);
    assert (cand + more)[j + 2..j + 16] == cand[j + 2..j + 16];
  }

  /** A header of this type stands at `p`, and `show` is what comes before it, but for
      a command name just before it. */
  ghost predicate FoundAt(s: seq<byte>, show: seq<byte>, kind: byte, p: nat) {
    HeaderAt(s, p, kind) && (show == s[..p] || show + RZ == s[..p])
  }

  lemma FoundStays(s: seq<byte>, show: seq<byte>, kind: byte, p: nat, more: seq<byte>)
    requires FoundAt(s, show, kind, p)
    ensures FoundAt(s + more, show, kind, p)
  {
    hide Judge;
    assert (s + more)[p..] == s[p..] + more;
    JudgeLonger(s[p..], more);
    assert (s + more)[..p] == s[..p];
  }

  lemma FoundNow(shown: seq<byte>, buf: seq<byte>, q: nat, kind: byte)
    requires HeaderAt(buf, q, kind)
    ensures FoundAt(shown + buf, shown + Trim(buf[..q]), kind, |shown| + q)
  {
    hide Judge;
    hide Trim;
    var s, p := shown + buf, |shown| + q;
    assert s[p..] == buf[q..] && s[..p] == shown + buf[..q];
    TrimIs(shown, buf[..q]);
  }

  lemma {:induction false} FoundSomewhere(ins: seq<Input>)
    requires After(ins).kind.Some?
    ensures exists p: nat :: FoundAt(Printed(ins), After(ins).show, After(ins).kind.value, p)
    decreases |ins|
  {
    hide Detect;
    hide FoundAt;
    hide HeaderAt;
    if ins != [] {
      var n := |ins| - 1;
      var d := After(ins[..n]);
      if d.kind.Some? {
        FoundSomewhere(ins[..n]);
        var p: nat :| FoundAt(Printed(ins[..n]), d.show, d.kind.value, p);
        var more := if ins[n].Output? then ins[n].data else [];
        FoundStays(Printed(ins[..n]), d.show, d.kind.value, p, more);
        assert Printed(ins) == Printed(ins[..n]) + more;
        assert FoundAt(Printed(ins), After(ins).show, After(ins).kind.value, p);
      } else {
        Conserved(ins[..n]);
        var buf := d.hold + ins[n].data;
        var q := DetectFinds(buf, 0);
        FoundNow(d.show, buf, q, After(ins).kind.value);
        assert Printed(ins) == d.show + buf;
        assert FoundAt(Printed(ins), After(ins).show, After(ins).kind.value, |d.show| + q);
      }
    }
  }

  lemma PartOf(s: seq<byte>, p: nat, q: nat)
    requires p <= q <= |s|
    ensures s[p..q] == s[p..][..q - p]
  {}

  /** A header of this type stands from `p` to `q`, and `show` is what comes before it, but
      for the command name `rz` just before it. */
  ghost predicate Stands(s: seq<byte>, show: seq<byte>, kind: byte, p: nat, q: nat) {
    p <= q <= |s| && Header(s[p..q], kind) && (show == s[..p] || show + [0x72, 0x7a, 0x0d] == s[..p])
  }

  /** The type reported is that of a header which was printed, and all that was
      printed before it has been shown, but for a command name just before it. */
  lemma {:induction false} FoundIsThere(ins: seq<Input>)
    requires After(ins).kind.Some?
    ensures exists p: nat, q: nat :: Stands(Printed(ins), After(ins).show, After(ins).kind.value, p, q)
  {
    hide After;
    hide Header;
    hide Judge;
    FoundSomewhere(ins);
    var s, kind := Printed(ins), After(ins).kind.value;
    var p: nat :| FoundAt(s, After(ins).show, kind, p);
    JudgedIsHeader(s[p..], kind);
    var q := p + Pads(s[p..]) + 16;
    PartOf(s, p, q);
    assert Stands(s, After(ins).show, kind, p, q);
  }

  lemma TrimIs(a: seq<byte>, s: seq<byte>)
    ensures a + Trim(s) == a + s || a + Trim(s) + RZ == a + s
  {
    if |s| >= 3 && s[|s| - 3..] == RZ {
      assert s == s[..|s| - 3] + RZ;
      assert a + Trim(s) + RZ == a + s;
    }
  }

  // ---- a header is found in every split, or in none but some ----

  /** No digit but the last has its high bit set. */
  predicate PlainDigits(e: seq<byte>)
    requires |e| >= 17
  {
    forall k :: |e| - 14 <= k < |e| - 1 ==> HexValue(e[k]).Some?
  }

  lemma {:induction false} UnhexDigits(d: seq<byte>, k: nat)
    requires |d| % 2 == 0 && UnhexBytes(d).Some? && k < |d|
    ensures HexValue(d[k] & 0x7f).Some?
    decreases |d|
  {
    hide HexValue;
    if k >= 2 {
      UnhexDigits(d[2..], k - 2);
    }
  }

  lemma HexIsNoPad(b: byte)
    requires HexValue(b & 0x7f).Some?
    ensures b != ZPAD
  {}

  lemma DigitsAreNoPads(e: seq<byte>, kind: byte, k: nat)
    requires Header(e, kind) && |e| - 16 <= k < |e|
    ensures e[k] != ZPAD
  {
    hide HexValue;
    if k >= |e| - 14 {
      UnhexDigits(e[|e| - 14..], k - (|e| - 14));
      HexIsNoPad(e[k]);
    }
  }

  /** The first part of `cand` is the first part of `e`. */
  predicate Agrees(cand: seq<byte>, e: seq<byte>) {
    forall k :: 0 <= k < |cand| && k < |e| ==> cand[k] == e[k]
  }

  lemma PadsOf(cand: seq<byte>, e: seq<byte>, kind: byte)
    requires |cand| > 1 && Agrees(cand, e) && Header(e, kind)
    ensures Pads(cand) == |e| - 16
  {
    assert cand[1] == e[1];
  }

  lemma JudgeWhole(cand: seq<byte>, e: seq<byte>, kind: byte)
    requires Agrees(cand, e) && Header(e, kind) && |cand| >= |e|
    ensures Judge(cand) == Found(kind)
  {
    hide HexValue;
    PadsOf(cand, e, kind);
    assert cand[|e| - 14..|e|] == e[|e| - 14..];
    assert cand[|e| - 16] == e[|e| - 16] && cand[|e| - 15] == e[|e| - 15];
  }

  lemma JudgePart(cand: seq<byte>, e: seq<byte>, kind: byte)
    requires cand != [] && Agrees(cand, e) && Header(e, kind) && PlainDigits(e) && |cand| < |e|
    ensures Judge(cand).Hold?
  {
    hide HexValue;
    hide DecodeHexDigits;
    if |cand| > 1 {
      PadsOf(cand, e, kind);
    }
    var j := Pads(cand);
    forall k | j <= k < |cand|
      ensures Fits(cand[k], k, j)
    {
      assert cand[k] == e[k];
    }
  }

  lemma HoldIsShort(cand: seq<byte>)
    requires Judge(cand).Hold?
    ensures |cand| < 18
  {}

  /** The scan never goes past the start of such a header, and finds one that is
      complete. */
  lemma {:induction false} DetectStops(buf: seq<byte>, i: nat, q: nat, e: seq<byte>, kind: byte)
    requires i <= q < |buf| && Agrees(buf[q..], e) && Header(e, kind) && PlainDigits(e)
    ensures var d := Detect(buf, i);
            d.kind.Some? || (|d.show| <= q && |buf| - q < |e|)
    decreases |buf| - i
  {
    hide Judge;
    hide Agrees;
    if i == q {
      FirstIsPad(buf[q..], e, kind);
      if |buf| - q >= |e| {
        JudgeWhole(buf[q..], e, kind);
      } else {
        JudgePart(buf[q..], e, kind);
      }
    } else if buf[i] != ZPAD || Judge(buf[i..]).Pass? {
      DetectStops(buf, i + 1, q, e, kind);
    } else if Judge(buf[i..]).Hold? {
      HoldIsShort(buf[i..]);
    }
  }

  lemma FirstIsPad(cand: seq<byte>, e: seq<byte>, kind: byte)
    requires cand != [] && Agrees(cand, e) && Header(e, kind)
    ensures cand[0] == ZPAD
  {}

  predicate NoIdle(ins: seq<Input>) {
    forall k :: 0 <= k < |ins| ==> ins[k].Output?
  }

  lemma AgreesPrefix(a: seq<byte>, b: seq<byte>, e: seq<byte>)
    requires Agrees(a + b, e)
    ensures Agrees(a, e)
  {
    forall k | 0 <= k < |a| && k < |e|
      ensures a[k] == e[k]
    {
      assert (a + b)[k] == a[k];
    }
  }

  /** Nothing of such a header is shown before it is found. */
  lemma {:induction false} NeverPassed(ins: seq<Input>, p: nat, e: seq<byte>, kind: byte)
    requires NoIdle(ins) && Header(e, kind) && PlainDigits(e)
    requires p < |Printed(ins)| && Agrees(Printed(ins)[p..], e)
    ensures After(ins).kind.Some? || (|After(ins).show| <= p && |Printed(ins)| < p + |e|)
    decreases |ins|
  {
    hide Detect;
    hide Agrees;
    hide Header;
    hide PlainDigits;
    var n := |ins| - 1;
    var before, data := Printed(ins[..n]), ins[n].data;
    var d := After(ins[..n]);
    assert Printed(ins) == before + data;
    if d.kind.None? {
      Conserved(ins[..n]);
      if p < |before| {
        assert Printed(ins)[p..] == before[p..] + data;
        AgreesPrefix(before[p..], data, e);
        NeverPassed(ins[..n], p, e, kind);
      }
      var buf := d.hold + data;
      assert |d.show| <= p;
      assert d.show + buf == Printed(ins);
      assert buf[p - |d.show|..] == Printed(ins)[p..];
      DetectStops(buf, 0, p - |d.show|, e, kind);
    }
  }

  /** With no flush in between, a stream in which a ZRQINIT or ZRINIT is complete has had
      its start reported, however it was split: that header, or one before it. The header has
      one pad or two, digits of either case, and no high bit on any digit but the last. */
  lemma {:induction false} HeaderIsFound(ins: seq<Input>, p: nat, e: seq<byte>, kind: byte)
    requires NoIdle(ins) && Header(e, kind) && PlainDigits(e)
    requires p + |e| <= |Printed(ins)| && Printed(ins)[p..p + |e|] == e
    ensures After(ins).kind.Some?
  {
    hide After;
    hide Header;
    hide PlainDigits;
    assert |e| > 0 by {
      LongEnough(e, kind);
    }
    assert Agrees(Printed(ins)[p..], e) by {
      forall k | 0 <= k < |e|
        ensures Printed(ins)[p..][k] == e[k]
      {
        assert Printed(ins)[p..][k] == Printed(ins)[p..p + |e|][k];
      }
    }
    NeverPassed(ins, p, e, kind);
  }

  lemma LongEnough(e: seq<byte>, kind: byte)
    requires Header(e, kind)
    ensures |e| >= 17
  {}

  // ---- what the printer writes ----

  /** The eighteen bytes of an encoded header. */
  function Encoded(h: Proto.Header): (e: seq<byte>)
    ensures |e| == 18
  {
    HexHeader(h)[..18]
  }

  lemma {:induction false} DigitsArePlain(s: seq<byte>, k: nat)
    requires k < |HexBytes(s)|
    ensures HexValue(HexBytes(s)[k]).Some?
    decreases |s|
  {
    if k < 2 {
      NibblesSmall(s[0]);
      DigitValue(s[0] >> 4);
      DigitValue(s[0] & 0x0f);
    } else {
      DigitsArePlain(s[1..], k - 2);
    }
  }

  lemma EncodedIsHeader(h: Proto.Header)
    requires h.kind == 0x00 || h.kind == 0x01
    ensures Header(Encoded(h), h.kind) && PlainDigits(Encoded(h))
  {
    hide HexValue;
    hide DecodeHexDigits;
    var raw := h.Raw();
    var all := raw + Bytes16(Crc16(raw));
    HexHeaderRoundTrip(h);
    var e := Encoded(h);
    assert e[4..] == HexHeader(h)[4..18];
    forall k | 4 <= k < 18
      ensures HexValue(e[k]).Some?
    {
      assert e[k] == HexBytes(all)[k - 4];
      DigitsArePlain(all, k - 4);
    }
  }

  /** So every header as the printer writes it is found. */
  lemma {:induction false} EncodedIsFound(ins: seq<Input>, p: nat, h: Proto.Header)
    requires NoIdle(ins) && (h.kind == 0x00 || h.kind == 0x01)
    requires p + 18 <= |Printed(ins)| && Printed(ins)[p..p + 18] == Encoded(h)
    ensures After(ins).kind.Some?
  {
    hide After;
    hide Encoded;
    hide Header;
    EncodedIsHeader(h);
    HeaderIsFound(ins, p, Encoded(h), h.kind);
  }

  // ---- digits with a high bit ----

  lemma {:induction false} NoPads(buf: seq<byte>, i: nat)
    requires i <= |buf| && forall k :: i <= k < |buf| ==> buf[k] != ZPAD
    ensures Detect(buf, i) == Fed(buf, None, [])
    decreases |buf| - i
  {
    if i < |buf| {
      NoPads(buf, i + 1);
    }
  }

  /** A first part that ends in a digit with its high bit set is not held. */
  lemma PartPasses(e: seq<byte>, kind: byte, q: nat)
    requires Header(e, kind) && |e| - 14 <= q < |e| - 1 && HexValue(e[q]).None?
    ensures Judge(e[..q + 1]).Pass?
    ensures |e| == 18 ==> Judge(e[1..q + 1]).Pass?
  {
    hide HexValue;
    hide DecodeHexDigits;
    var cand := e[..q + 1];
    PadsOf(cand, e, kind);
    assert !Fits(cand[q], q, |e| - 16);
    if |e| == 18 {
      var tail := e[1..q + 1];
      assert tail[1] == e[2] == ZDLE;
      assert tail[q - 1] == e[q] && !Fits(tail[q - 1], q - 1, 1);
    }
  }

  lemma PartMissed(e: seq<byte>, kind: byte, q: nat)
    requires Header(e, kind) && |e| - 14 <= q < |e| - 1 && HexValue(e[q]).None?
    ensures Detect(e[..q + 1], 0) == Fed(e[..q + 1], None, [])
  {
    hide HexValue;
    hide Judge;
    var a := e[..q + 1];
    PartPasses(e, kind, q);
    assert a[0..] == a && a[1..] == e[1..q + 1];
    forall k | |e| - 16 <= k < |a|
      ensures a[k] != ZPAD
    {
      DigitsAreNoPads(e, kind, k);
    }
    NoPads(a, |e| - 16);
    assert Detect(a, 0) == Detect(a, 1);
    if |e| == 18 {
      assert Detect(a, 1) == Detect(a, 2);
    }
  }

  /** The checksum ignores the high bits of digits, the test for what may become a header
      does not: with one before the last digit the same bytes are a header in one piece and
      none in two. */
  lemma HighBitDependsOnSplit(e: seq<byte>, kind: byte, q: nat)
    requires Header(e, kind) && |e| - 14 <= q < |e| - 1 && HexValue(e[q]).None?
    ensures After([Output(e)]).kind == Some(kind)
    ensures After([Output(e[..q + 1]), Output(e[q + 1..])]).kind == None
  {
    hide Detect;
    hide HexValue;
    var one, a, b := Output(e), Output(e[..q + 1]), Output(e[q + 1..]);
    assert [one][..0] == [] && [a, b][..1] == [a] && [a][..0] == [];
    assert [] + e == e && [] + e[..q + 1] == e[..q + 1] && [] + e[q + 1..] == e[q + 1..];
    WholeFound(e, kind);
    PartMissed(e, kind, q);
    RestMissed(e, kind, q);
    assert After([a]) == Fed(e[..q + 1], None, []);
  }

  lemma WholeFound(e: seq<byte>, kind: byte)
    requires Header(e, kind)
    ensures Detect(e, 0).kind == Some(kind)
  {
    hide Judge;
    JudgeWhole(e, e, kind);
    assert e[0..] == e;
  }

  lemma RestMissed(e: seq<byte>, kind: byte, q: nat)
    requires Header(e, kind) && |e| - 14 <= q < |e| - 1
    ensures Detect(e[q + 1..], 0) == Fed(e[q + 1..], None, [])
  {
    var rest := e[q + 1..];
    forall k | 0 <= k < |rest|
      ensures rest[k] != ZPAD
    {
      DigitsAreNoPads(e, kind, q + 1 + k);
    }
    NoPads(rest, 0);
  }

  /** However `e` comes in pieces, something is found by its last byte. */
  ghost predicate AlwaysFound(e: seq<byte>) {
    forall ins :: NoIdle(ins) && Printed(ins) == e ==> After(ins).kind.Some?
  }

  lemma {:induction false} PlainIsFound(e: seq<byte>, kind: byte)
    requires Header(e, kind) && PlainDigits(e)
    ensures AlwaysFound(e)
  {
    hide After;
    hide Header;
    hide PlainDigits;
    hide Printed;
    forall ins | NoIdle(ins) && Printed(ins) == e
      ensures After(ins).kind.Some?
    {
      assert Printed(ins)[0..0 + |e|] == e;
      HeaderIsFound(ins, 0, e, kind);
    }
  }

  lemma {:induction false} RaisedIsMissed(e: seq<byte>, kind: byte, q: nat)
    requires Header(e, kind) && |e| - 14 <= q < |e| - 1 && HexValue(e[q]).None?
    ensures !AlwaysFound(e)
  {
    hide After;
    hide HexValue;
    hide Printed;
    var ins := [Output(e[..q + 1]), Output(e[q + 1..])];
    HighBitDependsOnSplit(e, kind, q);
    PrintedTwo(e[..q + 1], e[q + 1..]);
    assert e[..q + 1] + e[q + 1..] == e;
    assert NoIdle(ins) && Printed(ins) == e && After(ins).kind.None?;
  }

  /** Exactly: a header is found in every split if and only if no digit but the last has
      its high bit set. */
  lemma {:induction false} FoundInEverySplit(e: seq<byte>, kind: byte)
    requires Header(e, kind)
    ensures AlwaysFound(e) <==> PlainDigits(e)
  {
    hide AlwaysFound;
    hide HexValue;
    if PlainDigits(e) {
      PlainIsFound(e, kind);
    } else {
      var q: nat :| |e| - 14 <= q < |e| - 1 && HexValue(e[q]).None?;
      RaisedIsMissed(e, kind, q);
    }
  }

  lemma {:induction false} NoPadBefore(buf: seq<byte>, i: nat, p: nat)
    requires i <= p <= |buf| && forall k :: i <= k < p ==> buf[k] != ZPAD
    ensures Detect(buf, i) == Detect(buf, p)
    decreases p - i
  {
    hide Judge;
    if i < p {
      NoPadBefore(buf, i + 1, p);
    }
  }

  /** What comes before a header in one piece is shown, but for the command name. */
  lemma CommandIsHidden(before: seq<byte>, e: seq<byte>, kind: byte)
    requires Header(e, kind) && forall k :: 0 <= k < |before| ==> before[k] != 0x2a
    ensures Detect(before + e, 0) ==
            Fed(if |before| >= 3 && before[|before| - 3..] == [0x72, 0x7a, 0x0d] then before[..|before| - 3] else before,
                Some(kind), [])
  {
    hide Judge;
    var buf := before + e;
    NoPadBefore(buf, 0, |before|);
    assert buf[|before|..] == e && buf[..|before|] == before;
    JudgeWhole(e, e, kind);
    FirstIsPad(e, e, kind);
  }

  lemma PrintedTwo(a: seq<byte>, b: seq<byte>)
    ensures Printed([Output(a), Output(b)]) == a + b
  {
    assert [Output(a), Output(b)][..1] == [Output(a)] && [Output(a)][..0] == [];
    assert [] + a == a;
    assert Printed([Output(a)]) == a;
  }
}
