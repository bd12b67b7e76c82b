/** Theorems about whole runs of the sender. */
module SenderRuns {
  import opened Crc
  import opened Sender
  import opened SenderSafety

  // ---- the window ----

  /** In every reachable state: positions are inside the file, so every block
      read stays inside the file and the buffer; in full duplex the sender is never
      more than a window and a block ahead. That the acknowledged offset is at most the
      position is not claimed: see AckedCanPassPos. */
  lemma {:induction false} WindowRespected(c: Conf, es: seq<Event>)
    requires c.Valid()
    ensures var s := Run(c, Start(c), es).core;
            && s.pos <= |c.src| && c.start <= s.acked <= |c.src|
            && MIN_SUBPACKET <= s.minBlock <= s.block <= c.maxBlock <= MAX_SUBPACKET
            && (c.fullDuplex ==> s.pos - s.acked <= c.window - 1 + c.maxBlock)
  {
    hide Run;
    hide FramesOf;
    RunKeeps(c, es);
  }

  lemma NextAcked(c: Conf, m: State, e: Event)
    requires c.Valid() && Inv(c, m)
    ensures Next(c, m, e).core.acked >= m.core.acked
  {
    hide FramesOf;
    if !Ended(m.mode) {
      match e
      case Hdr(h, early) => HandleAcked(Limit(c, m.mode), m.core, h, early);
      case Quiet(n, readable) => QuietAcked(c, m, n, readable);
      case _ =>
    }
  }

  lemma CloseShape(s: Core)
    ensures var r := CloseFrame(s);
            r.acked == s.acked && r.sent == if s.frameOpen then s.sent + [TSub([], E)] else s.sent
  {}

  lemma RewindShape(s: Core, p: nat)
    ensures var r := Rewind(s, p);
            r.acked == s.acked && r.sent == if s.frameOpen then s.sent + [TSub([], E)] else s.sent
  {
    hide CloseFrame;
    CloseShape(s);
    CloseShape(Shrink(s));
    assert Shrink(s).acked == s.acked && Shrink(s).sent == s.sent && Shrink(s).frameOpen == s.frameOpen;
  }

  lemma RposShape(s: Core, p: nat, early: bool)
    ensures var r := HandleRpos(s, p, early).core;
            r.acked >= s.acked && (r.sent == s.sent || r.sent == s.sent + [TSub([], E)])
  {
    hide Rewind;
    var s1 := s.(lastRpos := p, sameRpos := if p == s.lastRpos then s.sameRpos + 1 else 0);
    RewindShape(s1, p);
  }

  lemma HandleAcked(size: nat, s: Core, h: Reverse, early: bool)
    ensures Handle(size, s, h, early).core.acked >= s.acked
  {
    hide HandleRpos;
    if h.Rpos? {
      RposShape(s, Min(h.p, size), early);
    }
  }

  lemma QuietAcked(c: Conf, m: State, n: nat, readable: bool)
    requires c.Valid() && Inv(c, m) && !Ended(m.mode)
    ensures OnQuiet(c, m, n, readable).core.acked == m.core.acked
  {
    hide FramesOf;
    hide CoreOk;
    hide Act;
    hide AckTimeout;
    hide EofAgain;
    match m.mode
    case Poll => ActKeeps(c, m.core, n, readable);
    case AckWait(_, _, _) => AckTimeoutKeeps(c, m.core, m.mode);
    case EofWait(_, _, _) => EofAgainKeeps(c, m.core, m.mode);
    case _ =>
  }

  /** What counts as acknowledged never shrinks. */
  lemma {:induction false} AckedNeverShrinks(c: Conf, es: seq<Event>, more: seq<Event>)
    requires c.Valid()
    ensures Run(c, Start(c), es + more).core.acked >= Run(c, Start(c), es).core.acked
    decreases |more|
  {
    hide Next;
    hide Inv;
    if more == [] {
      assert es + more == es;
    } else {
      var n := |more| - 1;
      AckedNeverShrinks(c, es, more[..n]);
      assert (es + more)[..|es + more| - 1] == es + more[..n];
      RunKeeps(c, es + more[..n]);
      NextAcked(c, Run(c, Start(c), es + more[..n]), more[n]);
    }
  }

  // ---- when the acknowledged offset stays behind the position ----

  predicate Behind(s: Core) {
    s.acked <= s.pos
  }

  /** A ZRPOS that is neither one too many nor taken for an echo. */
  predicate Restarts(s: Core, p: nat, early: bool) {
    Counted(s, p).sameRpos <= MAX_RETRIES && !IsEcho(Counted(s, p), p, early)
  }

  /** Silence in the wait for an acknowledgement brings a pending echo back. */
  predicate EchoDue(m: State, e: Event) {
    e.Quiet? && m.mode.AckWait? && m.core.frameOpen && m.core.echoed
  }

  /** A restart at an offset outside what is between acknowledged and sent, or an echo
      that goes back before something acknowledged. */
  predicate Oversteps(c: Conf, m: State, e: Event) {
    var s := m.core;
    !Ended(m.mode) &&
    (|| (e.Hdr? && e.h.Rpos? &&
           var p := Min(e.h.p, Limit(c, m.mode)); Restarts(s, p, e.early) && !(s.acked <= p <= s.pos))
     || (EchoDue(m, e) && s.frameAt < s.acked))
  }

  lemma RewindPos(s: Core, p: nat)
    ensures Rewind(s, p).pos == Min(s.pos, p)
  {
    hide CloseFrame;
    ClosePos(s);
    ClosePos(Shrink(s));
  }

  lemma ClosePos(s: Core)
    ensures CloseFrame(s).pos == s.pos
  {}

  lemma RestartBehind(s: Core, p: nat)
    requires Behind(s)
    ensures Behind(Restart(s, p)) <==> s.acked <= p <= s.pos
  {
    hide Rewind;
    RewindPos(s, p);
    RestartAcked(s, p);
  }

  lemma RposBehind(s: Core, p: nat, early: bool)
    requires Behind(s)
    ensures Behind(HandleRpos(s, p, early).core) <==> !Restarts(s, p, early) || s.acked <= p <= s.pos
  {
    hide Restart;
    RestartBehind(Counted(s, p), p);
  }

  lemma HandleBehind(size: nat, s: Core, h: Reverse, early: bool)
    requires Behind(s)
    ensures Behind(Handle(size, s, h, early).core) <==>
            !(h.Rpos? && Restarts(s, Min(h.p, size), early) && !(s.acked <= Min(h.p, size) <= s.pos))
  {
    hide HandleRpos;
    hide Restarts;
    if h.Rpos? {
      RposBehind(s, Min(h.p, size), early);
    }
  }

  lemma BlockForward(c: Conf, s: Core, k: nat)
    requires s.pos + k <= |c.src|
    ensures SendBlock(c, s, k).core.pos == s.pos + k && SendBlock(c, s, k).core.acked == s.acked
  {
    hide EndFor;
    hide PutBlock;
    PutForward(c, s, k, EndFor(c, s.pos + k, s.sinceChk + k));
  }

  lemma PutForward(c: Conf, s: Core, k: nat, end: End)
    requires s.pos + k <= |c.src|
    ensures PutBlock(c, s, k, end).pos == s.pos + k && PutBlock(c, s, k, end).acked == s.acked
  {
    hide Grows;
  }

  lemma ActBehind(c: Conf, s: Core, n: nat, readable: bool)
    requires Behind(s)
    ensures Behind(Act(c, s, n, readable).core)
  {
    hide OpenFrame;
    hide SendBlock;
    hide CutFile;
    if !s.done && !s.xoff && s.pos < |c.src| && !Blocked(c, s) {
      OpenStill(s);
      if readable {
        BlockForward(c, OpenFrame(s), BlockSize(n, Min(s.block, |c.src| - s.pos)));
      } else {
        CutStill(OpenFrame(s));
      }
    }
  }

  lemma OpenStill(s: Core)
    ensures OpenFrame(s).pos == s.pos && OpenFrame(s).acked == s.acked
  {}

  lemma CutStill(s: Core)
    ensures CutFile(s).core.pos == s.pos && CutFile(s).core.acked == s.acked
  {}

  lemma TimeoutBehind(s: Core, w: Mode)
    requires Behind(s) && w.AckWait? && (s.frameOpen ==> s.frameAt <= s.pos)
    ensures Behind(AckTimeout(s, w).core) <==> !(s.frameOpen && s.echoed && s.frameAt < s.acked)
  {
    hide Rewind;
    RewindPos(s, s.frameAt);
    RewindShape(s, s.frameAt);
  }

  /** From a state in which it is behind, the acknowledged offset stays behind in exactly
      the exchanges that do not overstep. */
  lemma BehindExactly(c: Conf, m: State, e: Event)
    requires c.Valid() && Inv(c, m) && Behind(m.core)
    ensures Behind(Next(c, m, e).core) <==> !Oversteps(c, m, e)
  {
    hide FramesOf;
    hide CoreOk;
    hide ModeOk;
    hide Handle;
    hide Act;
    hide AckTimeout;
    hide Restarts;
    if !Ended(m.mode) {
      match e
      case Hdr(h, early) => HandleBehind(Limit(c, m.mode), m.core, h, early);
      case Quiet(n, readable) =>
        ActBehind(c, m.core, n, readable);
        if m.mode.AckWait? {
          Ranges(c, m.core, true);
          TimeoutBehind(m.core, m.mode);
        }
      case _ =>
    }
  }

  ghost predicate AlwaysBehind(c: Conf, es: seq<Event>) {
    forall i :: 0 <= i <= |es| ==> Behind(Run(c, Start(c), es[..i]).core)
  }

  ghost predicate NeverOversteps(c: Conf, es: seq<Event>) {
    forall i :: 0 <= i < |es| ==> !Oversteps(c, Run(c, Start(c), es[..i]), es[i])
  }

  /** And over whole runs: it is behind in every state if and only if no exchange
      oversteps. */
  lemma {:induction false} AlwaysBehindExactly(c: Conf, es: seq<Event>)
    requires c.Valid()
    ensures AlwaysBehind(c, es) <==> NeverOversteps(c, es)
    decreases |es|
  {
    hide Next;
    hide Inv;
    hide Behind;
    hide Oversteps;
    if es == [] {
      assert Behind(Start(c).core) by {
        StartBehind(c);
      }
      assert es[..0] == [];
    } else {
      var n := |es| - 1;
      AlwaysBehindExactly(c, es[..n]);
      assert es[..n + 1] == es;
      assert forall i :: 0 <= i <= n ==> es[..n][..i] == es[..i];
      assert AlwaysBehind(c, es) <==> AlwaysBehind(c, es[..n]) && Behind(Run(c, Start(c), es).core);
      assert NeverOversteps(c, es) <==> NeverOversteps(c, es[..n]) && !Oversteps(c, Run(c, Start(c), es[..n]), es[n]);
      if AlwaysBehind(c, es[..n]) {
        assert Behind(Run(c, Start(c), es[..n]).core) by {
          assert es[..n][..n] == es[..n];
        }
        RunKeeps(c, es[..n]);
        BehindExactly(c, Run(c, Start(c), es[..n]), es[n]);
      }
    }
  }

  lemma StartBehind(c: Conf)
    ensures Behind(Start(c).core)
  {}

  lemma RunOne(c: Conf, m: State, e: Event)
    ensures Run(c, m, [e]) == Next(c, m, e)
  {
    hide Next;
    assert [e][..0] == [];
  }

  /** All three ways of overstepping occur. A ZRPOS beyond the position moves only the
      acknowledged offset. */
  lemma AckedCanPassPos(c: Conf)
    requires c.Valid() && c.start < |c.src|
    ensures var s := Run(c, Start(c), [Hdr(Rpos(|c.src|), false)]).core;
            s.acked == |c.src| && s.pos == c.start < s.acked
  {
    RunOne(c, Start(c), Hdr(Rpos(|c.src|), false));
  }

  /** A ZRPOS before the acknowledged offset moves only the position. */
  lemma PosCanFallBehind(c: Conf)
    requires c.Valid() && c.start > 0
    ensures var s := Run(c, Start(c), [Hdr(Rpos(0), false)]).core;
            s.pos == 0 < c.start == s.acked
  {
    RunOne(c, Start(c), Hdr(Rpos(0), false));
  }

  /** One byte more in the open frame, with a checkpoint, as with the smallest window. */
  lemma NextByte(c: Conf, s: Core)
    requires c.fullDuplex && c.window == 1 && s.pos + 1 < |c.src| && s.frameOpen && !s.newFrame
    requires !s.done && !s.xoff && !Blocked(c, s) && MIN_SUBPACKET <= s.minBlock <= s.block <= c.maxBlock
    ensures var m := Act(c, s, 1, true);
            && m.mode == Poll
            && m.core == s.(sent := m.core.sent, sinceChk := 0, dataOut := true, pos := s.pos + 1,
                            block := m.core.block, goodRun := m.core.goodRun)
            && s.minBlock <= m.core.block <= c.maxBlock
  {
    hide PutBlock;
    assert BlockSize(1, Min(s.block, |c.src| - s.pos)) == 1;
    assert EndFor(c, s.pos + 1, s.sinceChk + 1) == Q;
    PutShape(c, s, 1, Q);
  }

  /** The sender with the smallest window, one frame open since the start. */
  ghost predicate Tiny(c: Conf, s: Core, ahead: nat, behind: nat, echoed: bool) {
    && c.Valid() && c.fullDuplex && c.window == 1 && c.start + 3 < |c.src|
    && s.pos == c.start + ahead && s.acked == c.start + behind
    && s.frameOpen && !s.newFrame && s.frameAt == c.start && s.dataOut && s.echoed == echoed
    && !s.done && !s.xoff && s.lastRpos == c.start && s.sameRpos <= behind
    && MIN_SUBPACKET <= s.minBlock <= s.block <= c.maxBlock
  }

  lemma FirstByte(c: Conf)
    requires c.Valid() && c.fullDuplex && c.window == 1 && c.start + 3 < |c.src|
    ensures var m := Next(c, Start(c), Quiet(1, true)); m.mode == Poll && Tiny(c, m.core, 1, 0, false)
  {
    hide Act;
    var s := OpenFrame(Init(c));
    NextByte(c, s);
    OpensFirst(c);
  }

  lemma OpensFirst(c: Conf)
    requires c.Valid() && c.start < |c.src|
    ensures Act(c, Init(c), 1, true) == Act(c, OpenFrame(Init(c)), 1, true)
  {
    hide SendBlock;
    var s := OpenFrame(Init(c));
    assert OpenFrame(s) == s;
  }

  lemma FullWindow(c: Conf, s: Core, ahead: nat, behind: nat, echoed: bool)
    requires Tiny(c, s, ahead, behind, echoed) && behind < ahead <= 3
    ensures Next(c, State(s, Poll), Quiet(1, true)) == State(s, AckWait(0, s.acked, s.pos))
  {}

  lemma EchoThenAck(c: Conf, s: Core)
    requires Tiny(c, s, 1, 0, false)
    ensures var m := Next(c, Next(c, State(s, AckWait(0, s.acked, s.pos)), Hdr(Rpos(c.start), true)),
                          Hdr(Ack(c.start + 1), false));
            m.mode == Poll && Tiny(c, m.core, 1, 1, true)
  {
    hide Restart;
    var s1 := Counted(s, c.start);
    assert HandleRpos(s, c.start, true) == State(s1.(echoed := true), Poll);
  }

  lemma SecondByte(c: Conf, s: Core)
    requires Tiny(c, s, 1, 1, true)
    ensures var m := Next(c, State(s, Poll), Quiet(1, true)); m.mode == Poll && Tiny(c, m.core, 2, 1, true)
  {
    hide Act;
    NextByte(c, s);
  }

  lemma EchoComesBack(c: Conf, s: Core)
    requires Tiny(c, s, 2, 1, true)
    ensures var m := Next(c, State(s, AckWait(0, s.acked, s.pos)), Quiet(1, true));
            m.core.pos == c.start < m.core.acked
  {
    hide Rewind;
    RewindPos(s, s.frameAt);
    RewindShape(s, s.frameAt);
  }

  /** And the wait's own rewind can: a ZRPOS taken for an echo, then a ZACK for the first
      byte, then silence. */
  lemma EchoCanGoBack(c: Conf)
    requires c.Valid() && c.fullDuplex && c.window == 1 && c.start + 3 < |c.src|
    ensures var q := Quiet(1, true);
            var es := [q, q, Hdr(Rpos(c.start), true), Hdr(Ack(c.start + 1), false), q, q, q];
            var s := Run(c, Start(c), es).core;
            s.pos == c.start < s.acked
  {
    hide Next;
    hide Run;
    hide Tiny;
    var q, r, a := Quiet(1, true), Hdr(Rpos(c.start), true), Hdr(Ack(c.start + 1), false);
    Seven(c, Start(c), q, q, r, a, q, q, q);
    FirstByte(c);
    var m1 := Next(c, Start(c), q);
    assert m1 == State(m1.core, Poll);
    FullWindow(c, m1.core, 1, 0, false);
    EchoThenAck(c, m1.core);
    var m4 := Next(c, Next(c, State(m1.core, AckWait(0, m1.core.acked, m1.core.pos)), r), a);
    assert m4 == State(m4.core, Poll);
    SecondByte(c, m4.core);
    var m5 := Next(c, m4, q);
    assert m5 == State(m5.core, Poll);
    FullWindow(c, m5.core, 2, 1, true);
    EchoComesBack(c, m5.core);
  }

  lemma Seven(c: Conf, m: State, e1: Event, e2: Event, e3: Event, e4: Event, e5: Event, e6: Event, e7: Event)
    ensures Run(c, m, [e1, e2, e3, e4, e5, e6, e7]) ==
            Next(c, Next(c, Next(c, Next(c, Next(c, Next(c, Next(c, m, e1), e2), e3), e4), e5), e6), e7)
  {
    hide Next;
    hide Run;
    RunOne(c, m, e1);
    RunMore(c, m, [e1], e2);
    RunMore(c, m, [e1] + [e2], e3);
    RunMore(c, m, [e1] + [e2] + [e3], e4);
    RunMore(c, m, [e1] + [e2] + [e3] + [e4], e5);
    RunMore(c, m, [e1] + [e2] + [e3] + [e4] + [e5], e6);
    RunMore(c, m, [e1] + [e2] + [e3] + [e4] + [e5] + [e6], e7);
    assert [e1] + [e2] + [e3] + [e4] + [e5] + [e6] + [e7] == [e1, e2, e3, e4, e5, e6, e7];
  }

  lemma RunMore(c: Conf, m: State, es: seq<Event>, e: Event)
    ensures Run(c, m, es + [e]) == Next(c, Run(c, m, es), e)
  {
    hide Next;
    hide Run;
    RunConcat(c, m, es, [e]);
    RunOne(c, Run(c, m, es), e);
  }

  /** Where an acknowledgement comes from: a ZACK or ZRPOS that names it. */
  predicate Names(h: Reverse, p: nat) {
    (h.Ack? && h.p == p) || (h.Rpos? && h.p >= p)
  }

  lemma RestartAcked(s: Core, p: nat)
    ensures Restart(s, p).acked == Max(s.acked, p)
  {
    hide Rewind;
    RewindShape(s, p);
  }

  lemma RposAcked(s: Core, p: nat, early: bool)
    ensures HandleRpos(s, p, early).core.acked in {s.acked, Max(s.acked, p)}
  {
    hide Restart;
    RestartAcked(Counted(s, p), p);
  }

  lemma HandleAckedFrom(size: nat, s: Core, h: Reverse, early: bool)
    ensures var a := Handle(size, s, h, early).core.acked; a == s.acked || Names(h, a)
  {
    hide HandleRpos;
    if h.Rpos? {
      RposAcked(s, Min(h.p, size), early);
    }
  }

  /** The acknowledged offset moves only to one a header names. */
  lemma AckedFrom(c: Conf, m: State, e: Event)
    requires c.Valid() && Inv(c, m)
    ensures var a := Next(c, m, e).core.acked; a == m.core.acked || (e.Hdr? && Names(e.h, a))
  {
    hide FramesOf;
    hide Inv;
    hide Handle;
    hide OnQuiet;
    if !Ended(m.mode) {
      match e
      case Hdr(h, early) => HandleAckedFrom(Limit(c, m.mode), m.core, h, early);
      case Quiet(n, readable) => QuietAcked(c, m, n, readable);
      case _ =>
    }
  }

  // ---- never stuck ----

  /** Whenever a full-duplex sender has stopped because the window is full, a
      frame is open and a checkpoint went out in it beyond everything acknowledged: the
      receiver owes an answer that moves the window. */
  lemma {:induction false} NeverStuck(c: Conf, es: seq<Event>)
    requires c.Valid() && c.fullDuplex
    requires Run(c, Start(c), es).mode.AckWait?
    ensures var s := Run(c, Start(c), es).core;
            var f := FramesOf(c.src, s.sent);
            && f.Open? && f.at == s.frameAt <= s.acked && f.off == s.pos
            && f.chk.Some? && s.acked < f.chk.q <= s.pos
  {
    hide Run;
    hide FramesOf;
    RunKeeps(c, es);
  }

  // ---- how it ends ----

  ghost predicate SameEnd(s: Core, r: Core) {
    r.done == s.done && r.skipped == s.skipped && (r.eofSent ==> s.eofSent)
  }

  lemma CloseEnd(s: Core)
    ensures SameEnd(s, CloseFrame(s))
  {}

  lemma ShrinkEnd(s: Core)
    ensures SameEnd(s, Shrink(s))
  {}

  lemma RewindEnd(s: Core, p: nat)
    ensures SameEnd(s, Rewind(s, p))
  {
    hide CloseFrame;
    hide Shrink;
    ShrinkEnd(s);
    CloseEnd(s);
    CloseEnd(Shrink(s));
  }

  lemma RposEnd(s: Core, p: nat, early: bool)
    ensures SameEnd(s, HandleRpos(s, p, early).core)
  {
    hide Rewind;
    RewindEnd(Counted(s, p), p);
  }

  lemma GrowEnd(c: Conf, s: Core)
    ensures SameEnd(s, Grow(c, s))
  {
    hide Grows;
  }

  lemma PutEnd(c: Conf, s: Core, k: nat, end: End)
    requires s.pos + k <= |c.src|
    ensures SameEnd(s, PutBlock(c, s, k, end))
  {
    hide Grow;
    GrowEnd(c, Put(c, s, k, end));
  }

  lemma BlockEnd(c: Conf, s: Core, k: nat)
    requires s.pos + k <= |c.src|
    ensures SameEnd(s, SendBlock(c, s, k).core)
  {
    hide EndFor;
    hide PutBlock;
    PutEnd(c, s, k, EndFor(c, s.pos + k, s.sinceChk + k));
  }

  lemma ActEnd(c: Conf, s: Core, n: nat, readable: bool)
    ensures var r := Act(c, s, n, readable);
            && r.core.done == s.done && r.core.skipped == s.skipped
            && (r.mode.Finished? <==> s.done) && (r.core.eofSent ==> s.eofSent || r.mode.EofWait?)
  {
    hide OpenFrame;
    hide SendBlock;
    hide CutFile;
    if !s.done && !s.xoff && s.pos < |c.src| && !Blocked(c, s) {
      var s1 := OpenFrame(s);
      OpenEnd(s);
      if readable {
        var k := BlockSize(n, Min(s.block, |c.src| - s.pos));
        BlockEnd(c, s1, k);
        BlockModes(c, s1, k);
      } else {
        CutEnd(s1);
      }
    }
  }

  lemma OpenEnd(s: Core)
    ensures SameEnd(s, OpenFrame(s)) && OpenFrame(s).pos == s.pos
  {}

  lemma CutEnd(s: Core)
    ensures CutFile(s).mode.EofWait? && CutFile(s).core.done == s.done && CutFile(s).core.skipped == s.skipped
  {}

  lemma BlockModes(c: Conf, s: Core, k: nat)
    requires s.pos + k <= |c.src|
    ensures SendBlock(c, s, k).mode.AckWait? || SendBlock(c, s, k).mode.Poll?
  {
    hide PutBlock;
    hide EndFor;
  }

  lemma TimeoutEnd(s: Core, w: Mode)
    requires w.AckWait?
    ensures SameEnd(s, AckTimeout(s, w).core) && !AckTimeout(s, w).mode.Finished?
  {
    hide Rewind;
    RewindEnd(s, s.frameAt);
  }

  lemma HandleEnd(size: nat, s: Core, h: Reverse, early: bool)
    ensures var r := Handle(size, s, h, early);
            && !r.mode.Finished?
            && (r.core.eofSent ==> s.eofSent)
            && (SameEnd(s, r.core) || (h.Skip? && r.core.skipped)
                || (h.Rinit? && r.core.skipped == s.skipped && s.eofSent))
  {
    hide HandleRpos;
    if h.Rpos? {
      RposEnd(s, Min(h.p, size), early);
      RposModes(s, Min(h.p, size), early);
    }
  }

  lemma RposModes(s: Core, p: nat, early: bool)
    ensures !HandleRpos(s, p, early).mode.Finished?
  {
    hide Restart;
    hide Counted;
  }

  /** It counts the file as taken. */
  ghost predicate Taken(m: State) {
    m.core.done && !m.core.skipped
  }

  ghost predicate FinishedIsDone(m: State) {
    m.mode.Finished? ==> m.core.done
  }

  /** ZEOF is out only while its answer is awaited, and a file taken is over. */
  ghost predicate EofWaits(m: State) {
    (m.core.eofSent ==> m.mode.EofWait? || Ended(m.mode)) && (Taken(m) ==> Ended(m.mode))
  }

  /** The file is counted as taken only on a ZRINIT that comes while the answer to ZEOF
      is awaited. */
  lemma TakenFrom(c: Conf, m: State, e: Event)
    requires FinishedIsDone(m) && EofWaits(m)
    ensures FinishedIsDone(Next(c, m, e)) && EofWaits(Next(c, m, e))
    ensures Taken(Next(c, m, e)) ==> Taken(m) || (e.Hdr? && e.h.Rinit? && m.mode.EofWait?)
    ensures Next(c, m, e).mode.Finished? ==> !CutMode(m.mode)
  {
    hide Handle;
    hide Act;
    hide AckTimeout;
    if !Ended(m.mode) {
      match e
      case Hdr(h, early) => HandleEnd(Limit(c, m.mode), m.core, h, early);
      case Quiet(n, readable) =>
        ActEnd(c, m.core, n, readable);
        if m.mode.AckWait? {
          TimeoutEnd(m.core, m.mode);
        }
      case _ =>
    }
  }

  // ---- bracketing ----

  /** In every run whatever: ZDATA and ZEOF go out only between frames, and the
      subpackets of a frame are the file's bytes from where its ZDATA pointed, in order
      and without a gap. */
  lemma {:induction false} FramesBracketed(c: Conf, es: seq<Event>)
    requires c.Valid()
    ensures var s := Run(c, Start(c), es).core;
            !FramesOf(c.src, s.sent).Broken?
    ensures var m := Run(c, Start(c), es);
            FramesOf(c.src, m.core.sent).Short? ==> m.mode.Failed? || CutMode(m.mode)
  {
    hide Run;
    hide FramesOf;
    RunKeeps(c, es);
  }

  // ---- a file that can be read is sent whole ----

  predicate Readable(e: Event) {
    e.Quiet? ==> e.readable
  }

  ghost predicate Whole(c: Conf, m: State) {
    !CutMode(m.mode) && !FramesOf(c.src, m.core.sent).Short?
  }

  lemma LiveIsWhole(c: Conf, m: State)
    requires Inv(c, m) && Live(m.mode)
    ensures Whole(c, m)
  {
    hide FramesOf;
  }

  lemma RposSent(s: Core, p: nat, early: bool)
    ensures HandleRpos(s, p, early).mode.Failed? ==> HandleRpos(s, p, early).core.sent == s.sent
  {
    hide Restart;
  }

  /** A header that ends the session sends nothing. */
  lemma HandleFails(size: nat, s: Core, h: Reverse, early: bool)
    ensures var r := Handle(size, s, h, early);
            !CutMode(r.mode) && (r.mode.Failed? ==> r.core.sent == s.sent)
  {
    hide HandleRpos;
    HandleMode(size, s, h, early);
    if h.Rpos? {
      RposSent(s, Min(h.p, size), early);
    }
  }

  lemma TimeoutFails(s: Core, w: Mode)
    requires w.AckWait?
    ensures !CutMode(AckTimeout(s, w).mode)
    ensures AckTimeout(s, w).mode.Failed? ==> AckTimeout(s, w).core.sent == s.sent
  {
    hide Rewind;
  }

  lemma ActWhole(c: Conf, s: Core, n: nat)
    ensures !CutMode(Act(c, s, n, true).mode) && !Act(c, s, n, true).mode.Failed?
  {
    hide OpenFrame;
    hide SendBlock;
    if !s.done && !s.xoff && s.pos < |c.src| && !Blocked(c, s) {
      OpenEnd(s);
      BlockModes(c, OpenFrame(s), BlockSize(n, Min(s.block, |c.src| - s.pos)));
    }
  }

  lemma StaysWhole(c: Conf, m: State, e: Event)
    requires c.Valid() && Inv(c, m) && Whole(c, m) && Readable(e)
    ensures Whole(c, Next(c, m, e))
  {
    NextKeeps(c, m, e);
    hide FramesOf;
    hide Inv;
    hide Handle;
    hide Act;
    hide AckTimeout;
    var m2 := Next(c, m, e);
    if !Ended(m.mode) {
      match e {
        case Hdr(h, early) => HandleFails(Limit(c, m.mode), m.core, h, early);
        case Quiet(n, _) =>
          ActWhole(c, m.core, n);
          if m.mode.AckWait? {
            TimeoutFails(m.core, m.mode);
          }
        case _ =>
      }
      if Live(m2.mode) {
        LiveIsWhole(c, m2);
      }
    }
  }

  predicate Foreign(t: Token) {
    t.TCrc? || t.TAck?
  }

  /** How many headers of another kind were sent inside an open frame. */
  function Intrusions(src: seq<byte>, sent: seq<Token>): nat
    decreases |sent|
  {
    if sent == [] then 0
    else
      var n := |sent| - 1;
      Intrusions(src, sent[..n]) + if Foreign(sent[n]) && FramesOf(src, sent[..n]).Open? then 1 else 0
  }

  /** `b` is `a` and then only data tokens. */
  ghost predicate PlainTail(a: seq<Token>, b: seq<Token>) {
    |a| <= |b| && b[..|a|] == a && forall i :: |a| <= i < |b| ==> !Foreign(b[i])
  }

  lemma {:induction false} PlainTailIntrudes(src: seq<byte>, a: seq<Token>, b: seq<Token>)
    requires PlainTail(a, b)
    ensures Intrusions(src, b) == Intrusions(src, a)
    decreases |b|
  {
    if |a| == |b| {
      assert a == b;
    } else {
      var n := |b| - 1;
      assert b[..n][..|a|] == a;
      PlainTailIntrudes(src, a, b[..n]);
    }
  }

  lemma ForeignIntrudes(src: seq<byte>, sent: seq<Token>, t: Token)
    requires Foreign(t)
    ensures Intrusions(src, sent + [t]) == Intrusions(src, sent) + if FramesOf(src, sent).Open? then 1 else 0
  {
    assert (sent + [t])[..|sent + [t]| - 1] == sent;
  }

  /** The receiver asks something that is answered at once. */
  predicate Asks(e: Event) {
    e.Hdr? && (e.h.AskCrc? || e.h.Challenge?)
  }

  /** How often that happened while a frame was open. */
  function Interruptions(c: Conf, es: seq<Event>): nat
    decreases |es|
  {
    if es == [] then 0
    else
      var n := |es| - 1;
      var m := Run(c, Start(c), es[..n]);
      Interruptions(c, es[..n]) + if Asks(es[n]) && !Ended(m.mode) && m.core.frameOpen then 1 else 0
  }

  lemma HandleIntrusions(c: Conf, size: nat, s: Core, h: Reverse, early: bool)
    ensures Intrusions(c.src, Handle(size, s, h, early).core.sent) == Intrusions(c.src, s.sent)
            + if (h.AskCrc? || h.Challenge?) && FramesOf(c.src, s.sent).Open? then 1 else 0
  {
    hide FramesOf;
    hide Intrusions;
    hide HandleRpos;
    match h
    case AskCrc(n) => ForeignIntrudes(c.src, s.sent, TCrc(n));
    case Challenge(p) => ForeignIntrudes(c.src, s.sent, TAck(p));
    case Rpos(p) =>
      RposShape(s, Min(p, size), early);
      PlainTailIntrudes(c.src, s.sent, Handle(size, s, h, early).core.sent);
    case _ =>
  }

  lemma SendBlockTail(c: Conf, s: Core, k: nat)
    requires s.pos + k <= |c.src|
    ensures PlainTail(s.sent, SendBlock(c, s, k).core.sent)
  {
    hide EndFor;
    hide PutBlock;
    PutBlockSent(c, s, k, EndFor(c, s.pos + k, s.sinceChk + k));
  }

  lemma PutBlockSent(c: Conf, s: Core, k: nat, end: End)
    requires s.pos + k <= |c.src|
    ensures PutBlock(c, s, k, end).sent == s.sent + [TSub(c.src[s.pos..s.pos + k], end)]
    ensures PutBlock(c, s, k, end).acked == s.acked
  {
    hide Grows;
  }

  lemma OpenTail(s: Core)
    ensures PlainTail(s.sent, OpenFrame(s).sent) && OpenFrame(s).pos == s.pos
  {}

  lemma CutTail(s: Core)
    ensures PlainTail(s.sent, CutFile(s).core.sent)
  {}

  lemma PlainTails(a: seq<Token>, b: seq<Token>, d: seq<Token>)
    requires PlainTail(a, b) && PlainTail(b, d)
    ensures PlainTail(a, d)
  {
    assert d[..|a|] == d[..|b|][..|a|];
    forall i | |a| <= i < |d|
      ensures !Foreign(d[i])
    {
      if i < |b| {
        assert d[i] == d[..|b|][i] == b[i];
      }
    }
  }

  lemma ActTail(c: Conf, s: Core, n: nat, readable: bool)
    ensures PlainTail(s.sent, Act(c, s, n, readable).core.sent)
  {
    hide PlainTail;
    hide SendBlock;
    hide CutFile;
    hide OpenFrame;
    NoTail(s);
    if !s.done && !s.xoff && s.pos < |c.src| && !Blocked(c, s) {
      var s1 := OpenFrame(s);
      OpenTail(s);
      if readable {
        var k := BlockSize(n, Min(s.block, |c.src| - s.pos));
        SendBlockTail(c, s1, k);
        PlainTails(s.sent, s1.sent, SendBlock(c, s1, k).core.sent);
      } else {
        CutTail(s1);
        PlainTails(s.sent, s1.sent, CutFile(s1).core.sent);
      }
    }
  }

  lemma NoTail(s: Core)
    ensures PlainTail(s.sent, s.sent)
    ensures forall t: nat, l: nat, cut: bool :: PlainTail(s.sent, SendEof(s, t, l, cut).core.sent)
  {}

  lemma AckTail(s: Core, m: Mode)
    requires m.AckWait?
    ensures PlainTail(s.sent, AckTimeout(s, m).core.sent)
  {
    hide Rewind;
    hide PlainTail;
    RewindShape(s, s.frameAt);
    NoTail(s);
    OneTail(s.sent, E);
    OneTail(s.sent, Q);
  }

  lemma OneTail(sent: seq<Token>, end: End)
    ensures PlainTail(sent, sent + [TSub([], end)])
  {}

  lemma EofTail(s: Core, m: Mode)
    requires m.EofWait?
    ensures PlainTail(s.sent, EofAgain(s, m).core.sent)
  {}

  lemma NextIntrusions(c: Conf, m: State, e: Event)
    requires c.Valid() && Inv(c, m)
    ensures Intrusions(c.src, Next(c, m, e).core.sent) == Intrusions(c.src, m.core.sent)
            + if Asks(e) && !Ended(m.mode) && m.core.frameOpen then 1 else 0
  {
    hide FramesOf;
    hide Intrusions;
    hide Handle;
    hide Act;
    hide AckTimeout;
    hide EofAgain;
    if !Ended(m.mode) {
      assert FramesOf(c.src, m.core.sent).Open? == m.core.frameOpen;
      if m.mode.AckWait? {
        AckTail(m.core, m.mode);
      }
      if m.mode.EofWait? {
        EofTail(m.core, m.mode);
      }
      match e
      case Hdr(h, early) => HandleIntrusions(c, Limit(c, m.mode), m.core, h, early);
      case Quiet(n, readable) =>
        if m.mode.Poll? {
          ActTail(c, m.core, n, readable);
        }
        PlainTailIntrudes(c.src, m.core.sent, Next(c, m, e).core.sent);
      case BadHdr => PlainTailIntrudes(c.src, m.core.sent, Next(c, m, e).core.sent);
      case _ =>
    }
  }

  lemma HandleTail(size: nat, s: Core, h: Reverse, early: bool)
    ensures var sent := Handle(size, s, h, early).core.sent;
            s.sent <= sent && (!h.AskCrc? && !h.Challenge? ==> PlainTail(s.sent, sent))
  {
    hide HandleRpos;
    if h.Rpos? {
      RposShape(s, Min(h.p, size), early);
    }
  }

  lemma TailGrows(a: seq<Token>, b: seq<Token>)
    requires PlainTail(a, b)
    ensures a <= b
  {}

  lemma QuietTail(c: Conf, m: State, n: nat, readable: bool)
    requires !Ended(m.mode)
    ensures PlainTail(m.core.sent, OnQuiet(c, m, n, readable).core.sent)
  {
    hide PlainTail;
    hide Act;
    hide AckTimeout;
    hide EofAgain;
    match m.mode
    case Poll => ActTail(c, m.core, n, readable);
    case Xon => NoTail(m.core);
    case AckWait(_, _, _) => AckTail(m.core, m.mode);
    case EofWait(_, _, _) => EofTail(m.core, m.mode);
  }

  lemma BadTail(m: State)
    ensures PlainTail(m.core.sent, OnBad(m).core.sent)
  {
    hide PlainTail;
    hide EofAgain;
    NoTail(m.core);
    if m.mode.EofWait? {
      EofTail(m.core, m.mode);
    }
  }

  /** What was sent stays sent, and only a ZCRC or ZCHALLENGE adds anything but
      data to it. */
  lemma SentGrows(c: Conf, m: State, e: Event)
    ensures m.core.sent <= Next(c, m, e).core.sent
    ensures !Asks(e) ==> PlainTail(m.core.sent, Next(c, m, e).core.sent)
  {
    hide PlainTail;
    hide Handle;
    hide OnQuiet;
    hide OnBad;
    NoTail(m.core);
    if !Ended(m.mode) {
      match e
      case Hdr(h, early) => HandleTail(Limit(c, m.mode), m.core, h, early);
      case Quiet(n, readable) =>
        QuietTail(c, m, n, readable);
        TailGrows(m.core.sent, Next(c, m, e).core.sent);
      case BadHdr =>
        BadTail(m);
        TailGrows(m.core.sent, Next(c, m, e).core.sent);
      case _ =>
    }
  }

  /** Headers inside a frame are exactly the answers to a ZCRC or ZCHALLENGE
      that was handled while a frame was open: none, if and only if none was. */
  lemma {:induction false} IntrusionsAreInterruptions(c: Conf, es: seq<Event>)
    requires c.Valid()
    ensures Intrusions(c.src, Run(c, Start(c), es).core.sent) == Interruptions(c, es)
    decreases |es|
  {
    hide FramesOf;
    hide Next;
    hide Inv;
    if es != [] {
      var n := |es| - 1;
      IntrusionsAreInterruptions(c, es[..n]);
      RunKeeps(c, es[..n]);
      NextIntrusions(c, Run(c, Start(c), es[..n]), es[n]);
    }
  }

  /** And it does happen: one block of a longer file, then a ZCRC. */
  lemma ZcrcInterruptsAFrame(c: Conf)
    requires c.Valid() && c.fullDuplex && c.start + c.maxBlock < |c.src|
    ensures Intrusions(c.src, Run(c, Start(c), [Quiet(c.maxBlock, true), Hdr(AskCrc(0), false)]).core.sent) == 1
  {
    hide Intrusions;
    hide FramesOf;
    var q, a := Quiet(c.maxBlock, true), Hdr(AskCrc(0), false);
    assert [q, a][..1] == [q];
    assert [q][..0] == [];
    var m1 := Run(c, Start(c), [q]);
    assert Run(c, Start(c), [q]) == Next(c, Start(c), q);
    assert Interruptions(c, []) == 0;
    assert !Ended(m1.mode) && m1.core.frameOpen;
    assert Interruptions(c, [q]) == 0;
    IntrusionsAreInterruptions(c, [q, a]);
  }
}
