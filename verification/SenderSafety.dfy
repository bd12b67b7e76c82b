/** What the sender keeps in every run: its frames are bracketed and contiguous,
    its window and block arithmetic stay in range, and in full duplex it never
    blocks without a checkpoint that the receiver still has to answer. */
module SenderSafety {
  import opened Crc
  import opened Sender

  datatype Option = None | Some(q: nat)

  /** What the tokens sent so far amount to: no frame open; a frame that began
      at `at` and has reached `off`, its last checkpoint at `chk`; a file cut short
      at `size`; or a broken stream: a ZDATA or ZEOF inside an open frame, data
      outside a frame, or data that is not the file's next bytes. */
  datatype Frames =
    | Closed
    | Open(at: nat, off: nat, chk: Option)
    | Short(size: nat)
    | Broken

  function FramesStep(src: seq<byte>, f: Frames, t: Token): Frames {
    match (f, t)
    case (_, TCrc(_)) => f
    case (_, TAck(_)) => f
    case (Closed, TData(p)) => if p <= |src| then Open(p, p, None) else Broken
    case (Closed, TEof(p)) => if p == |src| then Closed else Short(p)
    case (Short(n), TEof(p)) => if p == n then f else Broken
    case (Open(at, off, chk), TSub(data, end)) =>
      var to := off + |data|;
      if to > |src| || data != src[off..to] then Broken
      else if end == E || end == W then Closed
      else Open(at, to, if end == Q then Some(to) else chk)
    case _ => Broken
  }

  function FramesOf(src: seq<byte>, sent: seq<Token>): Frames
    decreases |sent|
  {
    if sent == [] then Closed else FramesStep(src, FramesOf(src, sent[..|sent| - 1]), sent[|sent| - 1])
  }

  lemma FramesSend(src: seq<byte>, s: Core, t: Token)
    ensures FramesOf(src, Send(s, t).sent) == FramesStep(src, FramesOf(src, s.sent), t)
  {
    assert (s.sent + [t])[..|s.sent + [t]| - 1] == s.sent;
  }

  // ---- the invariant ----

  predicate CutMode(m: Mode) {
    (m.EofWait? && m.cut) || m == Failed(ReadFailed)
  }

  /** The file is still being sent whole. */
  predicate Live(m: Mode) {
    !m.Failed? && !CutMode(m)
  }

  ghost predicate Arithmetic(c: Conf, s: Core) {
    && s.pos <= |c.src| && c.start <= s.acked <= |c.src|
    && MIN_SUBPACKET <= s.minBlock <= s.block <= c.maxBlock
    && (c.fullDuplex ==> s.pos <= s.acked + c.window - 1 + c.maxBlock)
    && (s.frameOpen ==> s.frameAt <= s.pos < |c.src|)
  }

  /** Full duplex: everything before an open frame is acknowledged, a closed
      frame leaves nothing unacknowledged except at the end of the file, and the last
      checkpoint of an open frame is less than a quarter window back. */
  ghost predicate Checkpoints(c: Conf, s: Core, chk: Option) {
    c.fullDuplex ==>
      && (!s.frameOpen ==> s.pos <= s.acked || s.pos == |c.src|)
      && (s.frameOpen ==>
            && s.frameAt <= s.acked
            && (s.sinceChk == 0 || s.sinceChk < c.window / 4)
            && (chk.None? ==> s.sinceChk == s.pos - s.frameAt)
            && (chk.Some? ==> s.frameAt <= chk.q <= s.pos <= chk.q + s.sinceChk))
  }

  /** The variables say what the tokens sent amount to. */
  ghost predicate InStep(s: Core, f: Frames, live: bool) {
    match f
    case Broken => false
    case Short(_) => !live && !s.frameOpen
    case Closed => !s.frameOpen
    case Open(at, off, _) => s.frameOpen && at == s.frameAt && off == s.pos
  }

  function Chk(f: Frames): Option {
    if f.Open? then f.chk else None
  }

  /** What each wait knows. */
  ghost predicate ModeOk(c: Conf, s: Core, m: Mode, f: Frames) {
    match m
    case Xon => !s.done
    case AckWait(_, acked0, pos0) =>
      && s.acked == acked0 && s.pos == pos0 && !s.done
      && (c.fullDuplex ==> s.frameOpen && Blocked(c, s))
    case EofWait(tries, limit, cut) =>
      && tries < MAX_RETRIES && !s.frameOpen && s.eofSent && !s.done
      && s.pos == limit && (!cut ==> limit == |c.src|) && (cut ==> f == Short(limit))
    case _ => true
  }

  ghost predicate CoreOk(c: Conf, s: Core, live: bool) {
    (!c.fullDuplex ==> !s.frameOpen) && Streaming(c, s, live)
  }

  ghost predicate Streaming(c: Conf, s: Core, live: bool) {
    var f := FramesOf(c.src, s.sent);
    && Arithmetic(c, s)
    && InStep(s, f, live)
    && (live ==> s.newFrame == !s.frameOpen && Checkpoints(c, s, Chk(f)))
  }

  ghost predicate Inv(c: Conf, m: State) {
    && CoreOk(c, m.core, Live(m.mode))
    && ModeOk(c, m.core, m.mode, FramesOf(c.src, m.core.sent))
  }

  // ---- one header ----

  /** `r` is `s` but for the record of what was asked for. */
  ghost predicate Noted(s: Core, r: Core) {
    r == s.(lastRpos := r.lastRpos, sameRpos := r.sameRpos, echoed := r.echoed)
  }

  /** `r` is `s` restarted at `p`: no frame is open, nothing before `p` is owed. */
  ghost predicate Rewound(s: Core, r: Core, p: nat) {
    && !r.frameOpen && !r.eofSent && r.done == s.done
    && r.pos == Min(s.pos, p) && r.acked == Max(s.acked, p)
    && (!s.frameOpen ==> r.sent == s.sent)
  }

  lemma NotedKeeps(c: Conf, s: Core, r: Core, live: bool)
    requires CoreOk(c, s, live) && Noted(s, r)
    ensures CoreOk(c, r, live)
  {
    hide FramesOf;
  }

  lemma ShrinkKeeps(c: Conf, s: Core, live: bool)
    requires c.Valid() && CoreOk(c, s, live)
    ensures CoreOk(c, Shrink(s), live)
  {
    hide FramesOf;
    assert MIN_SUBPACKET <= Halved(s.block) <= s.block;
  }

  /** Everything about a core but what it owes the receiver. */
  ghost predicate Settled(c: Conf, s: Core, live: bool) {
    && Arithmetic(c, s)
    && InStep(s, FramesOf(c.src, s.sent), live)
    && (live ==> s.newFrame)
    && !s.frameOpen
  }

  lemma CloseKeeps(c: Conf, s: Core, live: bool)
    requires c.Valid() && CoreOk(c, s, live)
    ensures Settled(c, CloseFrame(s), live)
  {
    hide FramesOf;
    if s.frameOpen {
      FramesSend(c.src, s, TSub([], E));
      assert c.src[s.pos..s.pos] == [];
    }
  }

  lemma RewindSettles(c: Conf, s: Core, p: nat, live: bool)
    requires c.Valid() && CoreOk(c, s, live)
    ensures var r := Rewind(s, p);
            && Settled(c, r, live) && r.pos == Min(s.pos, p) && r.acked == s.acked && r.done == s.done
            && (!s.frameOpen ==> r.sent == s.sent)
  {
    hide CoreOk;
    hide FramesOf;
    hide Shrink;
    if p < s.pos {
      ShrinkKeeps(c, s, live);
      ShrinkIs(s);
      CloseKeeps(c, Shrink(s), live);
    } else {
      CloseKeeps(c, s, live);
    }
  }

  lemma ShrinkIs(s: Core)
    ensures Shrink(s) == s.(block := Shrink(s).block, minBlock := Shrink(s).minBlock, goodRun := 0)
  {}

  lemma RestartKeeps(c: Conf, s: Core, p: nat, live: bool)
    requires c.Valid() && CoreOk(c, s, live) && p <= |c.src|
    ensures CoreOk(c, Restart(s, p), live) && Rewound(s, Restart(s, p), p)
  {
    hide Rewind;
    hide FramesOf;
    RewindSettles(c, s, p, live);
  }

  lemma CountedNoted(s: Core, p: nat)
    ensures Noted(s, Counted(s, p)) && Noted(s, Counted(s, p).(echoed := true))
    ensures Counted(s, p).frameOpen == s.frameOpen && Counted(s, p).sent == s.sent
  {}

  lemma NotedRewound(s: Core, s1: Core, r: Core, p: nat)
    requires Noted(s, s1) && Rewound(s1, r, p)
    ensures Rewound(s, r, p)
  {}

  lemma RposKeeps(c: Conf, s: Core, p: nat, early: bool, live: bool)
    requires c.Valid() && CoreOk(c, s, live) && p <= |c.src|
    ensures var r := HandleRpos(s, p, early);
            && CoreOk(c, r.core, live)
            && (Noted(s, r.core) || (Rewound(s, r.core, p) && !r.mode.Failed?))
            && (!s.frameOpen && !r.mode.Failed? ==> Rewound(s, r.core, p))
            && (!s.frameOpen ==> r.core.sent == s.sent)
  {
    hide CoreOk;
    hide Counted;
    hide Restart;
    hide Noted;
    hide Rewound;
    var s1 := Counted(s, p);
    CountedNoted(s, p);
    NotedKeeps(c, s, s1, live);
    NotedKeeps(c, s, s1.(echoed := true), live);
    RestartKeeps(c, s1, p, live);
    NotedRewound(s, s1, Restart(s1, p), p);
    RewoundSent(s1, Restart(s1, p), p);
  }

  lemma RewoundSent(s: Core, r: Core, p: nat)
    requires Rewound(s, r, p)
    ensures !s.frameOpen ==> r.sent == s.sent
  {}

  /** What a header may do to the variables, whatever it is. */
  ghost predicate Handled(s: Core, r: Core, h: Reverse) {
    && r.acked >= s.acked
    && (r.done ==> s.done || h.Skip? || (h.Rinit? && s.eofSent))
    && (s.frameOpen && !r.frameOpen ==> r.acked >= r.pos && h.Rpos? && (r.pos < s.pos || r.acked >= s.pos))
    && (!s.frameOpen ==> !r.frameOpen)
    && (r.frameOpen || (!s.frameOpen && r.eofSent) ==> r.pos == s.pos)
    && r.pos <= s.pos
  }

  lemma HeaderKeeps(c: Conf, s: Core, t: Token, live: bool)
    requires CoreOk(c, s, live) && (t.TCrc? || t.TAck?)
    ensures CoreOk(c, Send(s, t), live)
  {
    hide FramesOf;
    FramesSend(c.src, s, t);
  }

  lemma AckKeeps(c: Conf, s: Core, p: nat, live: bool)
    requires CoreOk(c, s, live) && s.acked < p <= s.pos
    ensures CoreOk(c, s.(acked := p), live)
  {
    hide FramesOf;
  }

  lemma FlagsKeep(c: Conf, s: Core, r: Core, live: bool)
    requires CoreOk(c, s, live)
    requires r == s.(done := r.done, skipped := r.skipped, xoff := r.xoff)
    ensures CoreOk(c, r, live)
  {
    hide FramesOf;
  }

  lemma RposHandled(c: Conf, s: Core, r: Core, p: nat, h: Reverse)
    requires Noted(s, r) || Rewound(s, r, p)
    requires !s.frameOpen ==> Rewound(s, r, p)
    requires h.Rpos?
    ensures Handled(s, r, h)
  {}

  lemma HandleKeeps(c: Conf, size: nat, s: Core, h: Reverse, early: bool, live: bool)
    requires c.Valid() && CoreOk(c, s, live) && size <= |c.src|
    ensures var r := Handle(size, s, h, early);
            CoreOk(c, r.core, live) && (r.mode.Failed? || Handled(s, r.core, h))
            && (!h.AskCrc? && !h.Challenge? && !s.frameOpen ==> r.core.sent == s.sent)
  {
    hide CoreOk;
    hide HandleRpos;
    match h
    case Rpos(p) =>
      RposKeeps(c, s, Min(p, size), early, live);
      var r := HandleRpos(s, Min(p, size), early);
      if !r.mode.Failed? {
        RposHandled(c, s, r.core, Min(p, size), h);
      }
    case Ack(p) =>
      if s.acked < p <= s.pos {
        AckKeeps(c, s, p, live);
      }
    case Skip => FlagsKeep(c, s, s.(done := true, skipped := true), live);
    case Rinit => FlagsKeep(c, s, s.(done := true), live);
    case AskCrc(n) => HeaderKeeps(c, s, TCrc(n), live);
    case Challenge(p) => HeaderKeeps(c, s, TAck(p), live);
    case _ =>
  }

  // ---- the main loop's turn ----

  lemma OpenKeeps(c: Conf, s: Core)
    requires c.Valid() && CoreOk(c, s, true) && s.pos < |c.src|
    ensures var r := OpenFrame(s);
            Streaming(c, r, true) && r.frameOpen && r == s.(sent := r.sent, newFrame := false, frameOpen := true,
              frameAt := r.frameAt, dataOut := r.dataOut, echoed := r.echoed, sinceChk := r.sinceChk)
  {
    hide FramesOf;
    FramesSend(c.src, s, TData(s.pos % U32));
  }

  /** The stream after one more block. */
  lemma BlockFrames(c: Conf, s: Core, k: nat, end: End)
    requires c.Valid() && Streaming(c, s, true) && s.frameOpen && s.pos + k <= |c.src|
    ensures FramesOf(c.src, Send(s, TSub(c.src[s.pos..s.pos + k], end)).sent) ==
            if end == E || end == W then Closed
            else Open(s.frameAt, s.pos + k, if end == Q then Some(s.pos + k) else Chk(FramesOf(c.src, s.sent)))
  {
    hide FramesOf;
    FramesSend(c.src, s, TSub(c.src[s.pos..s.pos + k], end));
  }

  lemma GrowKeeps(c: Conf, s: Core)
    requires MIN_SUBPACKET <= s.minBlock <= s.block <= c.maxBlock
    ensures var r := Grow(c, s);
            r == s.(block := r.block, goodRun := r.goodRun) && s.minBlock <= r.block <= c.maxBlock
  {
    hide Grows;
  }

  /** What one block changes. */
  lemma PutShape(c: Conf, s: Core, k: nat, end: End)
    requires s.pos + k <= |c.src| && MIN_SUBPACKET <= s.minBlock <= s.block <= c.maxBlock
    ensures var r := PutBlock(c, s, k, end);
            && r == Put(c, s, k, end).(block := r.block, goodRun := r.goodRun)
            && s.minBlock <= r.block <= c.maxBlock
  {
    hide Grow;
    PutKeepsBlock(c, s, k, end);
    hide Put;
    GrowKeeps(c, Put(c, s, k, end));
  }

  lemma PutKeepsBlock(c: Conf, s: Core, k: nat, end: End)
    requires s.pos + k <= |c.src|
    ensures Put(c, s, k, end).block == s.block && Put(c, s, k, end).minBlock == s.minBlock
  {}

  lemma BlockStaysOpen(c: Conf, s: Core, k: nat)
    requires c.Valid() && Streaming(c, s, true) && s.frameOpen && !s.done && !Blocked(c, s) && c.fullDuplex
    requires 0 < k <= s.block && s.pos + k < |c.src|
    ensures var end := if s.sinceChk + k >= c.window / 4 then Q else G;
            Inv(c, State(PutBlock(c, s, k, end), Poll))
  {
    hide FramesOf;
    hide PutBlock;
    var end := if s.sinceChk + k >= c.window / 4 then Q else G;
    BlockFrames(c, s, k, end);
    PutShape(c, s, k, end);
  }

  lemma BlockEndsFile(c: Conf, s: Core, k: nat)
    requires c.Valid() && Streaming(c, s, true) && s.frameOpen && !s.done && !Blocked(c, s) && c.fullDuplex
    requires 0 < k <= s.block && s.pos + k == |c.src|
    ensures Inv(c, State(EndFrame(PutBlock(c, s, k, E)), Poll))
  {
    hide FramesOf;
    hide PutBlock;
    BlockFrames(c, s, k, E);
    PutShape(c, s, k, E);
  }

  lemma BlockWaits(c: Conf, s: Core, k: nat)
    requires c.Valid() && Streaming(c, s, true) && s.frameOpen && !s.done && !c.fullDuplex
    requires 0 < k <= s.block && s.pos + k <= |c.src|
    ensures var r := PutBlock(c, s, k, W);
            Inv(c, State(EndFrame(r), AckWait(0, r.acked, r.pos)))
  {
    hide FramesOf;
    hide PutBlock;
    BlockFrames(c, s, k, W);
    PutShape(c, s, k, W);
  }

  lemma SendBlockKeeps(c: Conf, s: Core, k: nat)
    requires c.Valid() && Streaming(c, s, true) && s.frameOpen && !s.done && !Blocked(c, s)
    requires 0 < k <= s.block && s.pos + k <= |c.src|
    ensures Inv(c, SendBlock(c, s, k))
  {
    hide Streaming;
    hide Inv;
    hide PutBlock;
    hide Blocked;
    if !c.fullDuplex {
      BlockWaits(c, s, k);
    } else if s.pos + k == |c.src| {
      BlockEndsFile(c, s, k);
    } else {
      BlockStaysOpen(c, s, k);
    }
  }

  lemma EofKeeps(c: Conf, s: Core, tries: nat, limit: nat, cut: bool)
    requires c.Valid() && Arithmetic(c, s) && !s.frameOpen && !s.done && s.pos == limit && tries < MAX_RETRIES
    requires cut || (limit == |c.src| && CoreOk(c, s, true) && FramesOf(c.src, s.sent) == Closed)
    requires cut ==> (FramesOf(c.src, s.sent) == Closed && limit < |c.src|) || FramesOf(c.src, s.sent) == Short(limit)
    ensures Inv(c, SendEof(s, tries, limit, cut))
  {
    hide FramesOf;
    FramesSend(c.src, s, TEof(limit % U32));
  }

  lemma CutKeeps(c: Conf, s: Core)
    requires c.Valid() && Streaming(c, s, true) && s.frameOpen && !s.done
    ensures Inv(c, CutFile(s))
  {
    hide FramesOf;
    FramesSend(c.src, s, TSub([], E));
    assert c.src[s.pos..s.pos] == [];
    EofKeeps(c, Send(s, TSub([], E)).(frameOpen := false), 0, s.pos, true);
  }

  lemma ClosedWhenShut(c: Conf, s: Core)
    requires CoreOk(c, s, true) && !s.frameOpen
    ensures FramesOf(c.src, s.sent) == Closed
  {
    hide FramesOf;
  }

  lemma ActKeeps(c: Conf, s: Core, n: nat, readable: bool)
    requires c.Valid() && CoreOk(c, s, true)
    ensures Inv(c, Act(c, s, n, readable))
    ensures Act(c, s, n, readable).core.acked == s.acked
  {
    hide FramesOf;
    hide Streaming;
    hide OpenFrame;
    hide SendBlock;
    hide CutFile;
    assert Arithmetic(c, s) by {
      Ranges(c, s, true);
    }
    if s.done || s.xoff {
    } else if s.pos >= |c.src| {
      ClosedWhenShut(c, s);
      EofKeeps(c, s, 0, |c.src|, false);
    } else if Blocked(c, s) {
      BlockedFrameOpen(c, s);
    } else {
      OpenKeeps(c, s);
      var s1 := OpenFrame(s);
      if readable {
        var k := BlockSize(n, Min(s.block, |c.src| - s.pos));
        assert Min(s.block, |c.src| - s.pos) > 0;
        SendBlockKeeps(c, s1, k);
        SendBlockAcked(c, s1, k);
      } else {
        CutKeeps(c, s1);
        CutAcked(s1);
      }
    }
  }

  lemma Ranges(c: Conf, s: Core, live: bool)
    requires CoreOk(c, s, live)
    ensures Arithmetic(c, s)
  {}

  lemma BlockedFrameOpen(c: Conf, s: Core)
    requires c.Valid() && CoreOk(c, s, true) && Blocked(c, s) && s.pos < |c.src|
    ensures s.frameOpen
  {
    hide FramesOf;
  }

  lemma SendBlockAcked(c: Conf, s: Core, k: nat)
    requires s.pos + k <= |c.src| && MIN_SUBPACKET <= s.minBlock <= s.block <= c.maxBlock
    ensures SendBlock(c, s, k).core.acked == s.acked
  {
    hide EndFor;
    hide PutBlock;
    PutShape(c, s, k, EndFor(c, s.pos + k, s.sinceChk + k));
  }

  lemma CutAcked(s: Core)
    ensures CutFile(s).core.acked == s.acked
  {}

  // ---- the waits ----

  lemma XonKeeps(c: Conf, s: Core, r: State)
    requires !r.mode.Failed? ==> CoreOk(c, r.core, true)
    requires r.mode.Failed? ==> CoreOk(c, r.core, false)
    requires !CutMode(r.mode) && (r.mode.Failed? || r.mode.Poll?)
    ensures Inv(c, XonNext(r))
  {
    hide CoreOk;
  }

  lemma NotLive(c: Conf, s: Core, live: bool)
    requires CoreOk(c, s, live)
    ensures CoreOk(c, s, false)
  {
    hide FramesOf;
  }

  lemma HandleMode(size: nat, s: Core, h: Reverse, early: bool)
    ensures var m := Handle(size, s, h, early).mode;
            m == Poll || (m.Failed? && !CutMode(m))
  {}

  lemma AckWaitKeeps(c: Conf, s: Core, m: Mode, r: State, h: Reverse)
    requires c.Valid() && m.AckWait? && Inv(c, State(s, m))
    requires r.mode == Poll || (r.mode.Failed? && !CutMode(r.mode))
    requires CoreOk(c, r.core, !r.mode.Failed?) && (r.mode.Failed? || Handled(s, r.core, h))
    ensures Inv(c, AckNext(c, r, m, h.Ack?))
  {
    hide Streaming;
  }

  lemma EofWaitKeeps(c: Conf, s: Core, m: Mode, r: State, h: Reverse)
    requires m.EofWait? && Inv(c, State(s, m))
    requires r.mode == Poll || (r.mode.Failed? && !CutMode(r.mode))
    requires CoreOk(c, r.core, !m.cut && !r.mode.Failed?) && (r.mode.Failed? || Handled(s, r.core, h))
    requires FramesOf(c.src, r.core.sent) == FramesOf(c.src, s.sent)
    ensures Inv(c, EofNext(r, m))
  {
    hide Streaming;
    if !r.mode.Failed? && !m.cut && CoreOk(c, r.core, true) {
    }
    NotLive(c, r.core, !m.cut && !r.mode.Failed?);
  }

  lemma PokeKeeps(c: Conf, s: Core)
    requires c.Valid() && CoreOk(c, s, true) && s.frameOpen
    ensures CoreOk(c, Send(s, TSub([], Q)), true)
  {
    hide FramesOf;
    FramesSend(c.src, s, TSub([], Q));
    assert c.src[s.pos..s.pos] == [];
  }

  lemma SettledOwesNothing(c: Conf, r: Core)
    requires Settled(c, r, true) && (c.fullDuplex ==> r.pos <= r.acked)
    ensures CoreOk(c, r, true)
  {
    hide FramesOf;
  }

  lemma AckTimeoutKeeps(c: Conf, s: Core, m: Mode)
    requires c.Valid() && m.AckWait? && Inv(c, State(s, m))
    ensures Inv(c, AckTimeout(s, m)) && AckTimeout(s, m).core.acked == s.acked
  {
    hide FramesOf;
    hide Streaming;
    hide Rewind;
    hide Settled;
    if s.frameOpen && s.echoed {
      RewindSettles(c, s, s.frameAt, true);
      assert s.frameAt <= s.pos && (c.fullDuplex ==> s.frameAt <= s.acked) by {
        OpenFrameAcked(c, s);
      }
      SettledOwesNothing(c, Rewind(s, s.frameAt));
    } else if m.poke >= ACK_POKES {
      NotLive(c, s, true);
    } else if s.frameOpen {
      PokeKeeps(c, s);
    } else {
      assert s.newFrame by {
        ShutIsNew(c, s);
      }
      assert s.(newFrame := true) == s;
    }
  }

  lemma OpenFrameAcked(c: Conf, s: Core)
    requires CoreOk(c, s, true) && s.frameOpen
    ensures s.frameAt <= s.pos && (c.fullDuplex ==> s.frameAt <= s.acked)
  {
    hide FramesOf;
  }

  lemma ShutIsNew(c: Conf, s: Core)
    requires CoreOk(c, s, true)
    ensures s.newFrame == !s.frameOpen
  {
    hide FramesOf;
  }

  lemma EofAgainKeeps(c: Conf, s: Core, m: Mode)
    requires c.Valid() && m.EofWait? && Inv(c, State(s, m))
    ensures Inv(c, EofAgain(s, m)) && EofAgain(s, m).core.acked == s.acked
  {
    hide FramesOf;
    hide Streaming;
    Ranges(c, s, !m.cut);
    NotLive(c, s, !m.cut);
    if m.tries + 1 < MAX_RETRIES {
      if !m.cut {
        ClosedWhenShut(c, s);
      }
      EofKeeps(c, s, m.tries + 1, m.limit, m.cut);
    }
  }

  // ---- every step ----

  lemma LimitInRange(c: Conf, m: State)
    requires Inv(c, m) && !Ended(m.mode)
    ensures Limit(c, m.mode) <= |c.src|
    ensures !m.mode.Failed?
  {
    hide FramesOf;
  }

  /** A header leaves the stream alone when no frame is open, but for the answers
      to ZCRC and ZCHALLENGE, which are no part of it. */
  lemma SameFrames(c: Conf, size: nat, s: Core, h: Reverse, early: bool, live: bool)
    requires c.Valid() && CoreOk(c, s, live) && size <= |c.src| && !s.frameOpen
    ensures FramesOf(c.src, Handle(size, s, h, early).core.sent) == FramesOf(c.src, s.sent)
  {
    hide FramesOf;
    hide CoreOk;
    HandleKeeps(c, size, s, h, early, live);
    match h
    case AskCrc(n) => FramesSend(c.src, s, TCrc(n));
    case Challenge(p) => FramesSend(c.src, s, TAck(p));
    case _ =>
  }

  lemma OnHeaderKeeps(c: Conf, m: State, h: Reverse, early: bool)
    requires c.Valid() && Inv(c, m) && !Ended(m.mode)
    ensures Inv(c, OnHeader(c, m, h, early))
  {
    hide FramesOf;
    hide CoreOk;
    hide Handle;
    var live := Live(m.mode);
    LimitInRange(c, m);
    var size := Limit(c, m.mode);
    var r := Handle(size, m.core, h, early);
    HandleMode(size, m.core, h, early);
    HandleKeeps(c, size, m.core, h, early, live);
    NotLive(c, r.core, live);
    match m.mode
    case Poll =>
    case Xon => XonKeeps(c, m.core, r);
    case AckWait(_, _, _) => AckWaitKeeps(c, m.core, m.mode, r, h);
    case EofWait(_, _, _) =>
      SameFrames(c, size, m.core, h, early, live);
      EofWaitKeeps(c, m.core, m.mode, r, h);
    case _ =>
  }

  lemma OnQuietKeeps(c: Conf, m: State, n: nat, readable: bool)
    requires c.Valid() && Inv(c, m) && !Ended(m.mode)
    ensures Inv(c, OnQuiet(c, m, n, readable))
  {
    hide FramesOf;
    hide CoreOk;
    hide Act;
    hide AckTimeout;
    hide EofAgain;
    match m.mode
    case Poll => ActKeeps(c, m.core, n, readable);
    case Xon => FlagsKeep(c, m.core, m.core.(xoff := false), true);
    case AckWait(_, _, _) => AckTimeoutKeeps(c, m.core, m.mode);
    case EofWait(_, _, _) => EofAgainKeeps(c, m.core, m.mode);
    case _ =>
  }

  lemma OnFlowKeeps(c: Conf, m: State, off: bool)
    requires c.Valid() && Inv(c, m) && !Ended(m.mode)
    ensures Inv(c, OnFlow(m, off))
  {
    hide FramesOf;
    hide CoreOk;
    FlagsKeep(c, m.core, m.core.(xoff := off), Live(m.mode));
  }

  /** Every exchange keeps the invariant. */
  lemma NextKeeps(c: Conf, m: State, e: Event)
    requires c.Valid() && Inv(c, m)
    ensures Inv(c, Next(c, m, e))
  {
    hide FramesOf;
    hide CoreOk;
    hide OnHeader;
    hide OnQuiet;
    hide OnFlow;
    if !Ended(m.mode) {
      NotLive(c, m.core, Live(m.mode));
      match e
      case Hdr(h, early) => OnHeaderKeeps(c, m, h, early);
      case Flow(off) => OnFlowKeeps(c, m, off);
      case Quiet(n, readable) => OnQuietKeeps(c, m, n, readable);
      case BadHdr =>
        if m.mode.EofWait? {
          EofAgainKeeps(c, m.core, m.mode);
        }
      case _ =>
    }
  }

  lemma StartHolds(c: Conf)
    requires c.Valid()
    ensures Inv(c, Start(c))
  {}

  /** The invariant holds in every state of every run, whatever the receiver
      and the line do. */
  lemma {:induction false} RunKeeps(c: Conf, es: seq<Event>)
    requires c.Valid()
    ensures Inv(c, Run(c, Start(c), es))
    decreases |es|
  {
    hide Inv;
    hide Next;
    if es == [] {
      StartHolds(c);
    } else {
      RunKeeps(c, es[..|es| - 1]);
      NextKeeps(c, Run(c, Start(c), es[..|es| - 1]), es[|es| - 1]);
    }
  }
}
