/** What the sender does with every event, told from the events so far: how often an
    offset was asked for, how long a wait has lasted, how long blocks may be. Its counters
    and flags do not appear. */
module SenderRules {
  import opened Crc
  import opened Sender
  import opened SenderSafety

  /** The sender after the events `es`. */
  function At(c: Conf, es: seq<Event>): State {
    Run(c, Start(c), es)
  }

  // ---- what the past amounts to ----

  /** `last`: the offset asked for last, at first the one the file is sent from; `again`:
      how often it has been asked for again. `size`: the longest block that may go out next,
      and `good` how many have gone out since that changed. `held`: the last raw flow control
      was an XOFF, and no wait for XON has run out since. `waited`: what other than flow
      control has come in the wait for an acknowledgement that goes on; `tried`: how often ZEOF
      has gone out again in the wait for its answer. `echoed`: an early ZRPOS for its own
      beginning has come in the open frame. `refused`: the file has been. */
  datatype Past = Past(last: nat, again: nat, size: nat, good: nat, held: bool, waited: nat, tried: nat,
                       echoed: bool, refused: bool)

  /** A ZRPOS that the sender sees, and the offset it means. */
  predicate Asking(m: State, e: Event) {
    !Ended(m.mode) && e.Hdr? && e.h.Rpos?
  }

  function Wanted(c: Conf, m: State, e: Event): nat
    requires Asking(m, e)
  {
    Min(e.h.p, if m.mode.EofWait? then m.mode.limit else |c.src|)
  }

  /** It asks for one offset once too often. */
  predicate TooOften(c: Conf, m: State, p: Past, e: Event) {
    Asking(m, e) && Wanted(c, m, e) == p.last && p.again >= 20
  }

  /** It only repeats, early, what the open frame began with. */
  predicate Echo(c: Conf, m: State, p: Past, e: Event) {
    Asking(m, e) && !TooOften(c, m, p, e) && e.early && m.core.frameOpen && Wanted(c, m, e) == m.core.frameAt
  }

  /** It is obeyed. */
  predicate Obeyed(c: Conf, m: State, p: Past, e: Event) {
    Asking(m, e) && !TooOften(c, m, p, e) && !Echo(c, m, p, e)
  }

  /** Blocks get half as long whenever data is thrown away, and twice as long after
      sixteen of one length. */
  function Sized(c: Conf, p: Past, was: nat, now: nat): (nat, nat) {
    if now < was then (Max(32, p.size / 2), 0)
    else if now == was then (p.size, p.good)
    else if p.good + 1 >= 16 && p.size < c.maxBlock then (Min(2 * p.size, c.maxBlock), 0)
    else (p.size, p.good + 1)
  }

  /** `e` leads from `m` to `r`. */
  function More(c: Conf, m: State, r: State, p: Past, e: Event): Past {
    if Ended(m.mode) then p
    else
      var (size, good) := Sized(c, p, m.core.pos, r.core.pos);
      Past(if Asking(m, e) then Wanted(c, m, e) else p.last,
           if !Asking(m, e) then p.again else if Wanted(c, m, e) == p.last then p.again + 1 else 0,
           size, good,
           if e.Flow? then e.off else p.held && !(e.Quiet? && m.mode.Xon?),
           if m.mode.AckWait? && r.mode.AckWait? then p.waited + (if e.Flow? then 0 else 1) else 0,
           if m.mode.EofWait? && r.mode.EofWait? then p.tried + (if e.Quiet? || e.BadHdr? then 1 else 0) else 0,
           m.core.frameOpen && r.core.frameOpen && (p.echoed || Echo(c, m, p, e)),
           p.refused || (e.Hdr? && e.h.Skip?))
  }

  function PastOf(c: Conf, es: seq<Event>): Past
    decreases |es|
  {
    if es == [] then Past(c.start, 0, c.maxBlock, 0, false, 0, 0, false, false)
    else More(c, At(c, es[..|es| - 1]), At(c, es), PastOf(c, es[..|es| - 1]), es[|es| - 1])
  }

  /** Data since the frame began, or since the last checkpoint that came with data. */
  function Since(sent: seq<Token>): nat
    decreases |sent|
  {
    if sent == [] then 0
    else
      match sent[|sent| - 1]
      case TData(_) => 0
      case TSub(data, end) => if end == Q && data != [] then 0 else Since(sent[..|sent| - 1]) + |data|
      case _ => Since(sent[..|sent| - 1])
  }

  // ---- counters and flags say the same ----

  lemma CloseAsked(s: Core)
    ensures var r := CloseFrame(s);
            && r.lastRpos == s.lastRpos && r.sameRpos == s.sameRpos && r.block == s.block && r.goodRun == s.goodRun
            && r.xoff == s.xoff && r.done == s.done && r.eofSent == s.eofSent && r.skipped == s.skipped
            && !r.frameOpen && r.pos == s.pos && r.acked == s.acked
            && r.sent == (if s.frameOpen then s.sent + [TSub([], E)] else s.sent)
  {}

  lemma RewindAsked(s: Core, p: nat)
    ensures var r := Rewind(s, p);
            && r.lastRpos == s.lastRpos && r.sameRpos == s.sameRpos && r.xoff == s.xoff && r.done == s.done && !r.frameOpen
            && r.eofSent == s.eofSent && r.skipped == s.skipped
            && r.pos == Min(s.pos, p) && r.acked == s.acked
            && r.block == (if p < s.pos then Max(32, s.block / 2) else s.block)
            && r.goodRun == (if p < s.pos then 0 else s.goodRun)
            && r.sent == (if s.frameOpen then s.sent + [TSub([], E)] else s.sent)
  {
    hide CloseFrame;
    CloseAsked(s);
    CloseAsked(Shrink(s));
  }

  /** What a header does to the variables, all of it. */
  ghost predicate HeaderDoes(size: nat, s: Core, h: Reverse, early: bool, r: State) {
    var p := if h.Rpos? then Min(h.p, size) else 0;
    var often := h.Rpos? && p == s.lastRpos && s.sameRpos >= MAX_RETRIES;
    var echo := h.Rpos? && !often && s.frameOpen && p == s.frameAt && early;
    var restart := h.Rpos? && !often && !echo;
    && r.mode == (if h.GiveUp? then Failed(GaveUp) else if often then Failed(AskedTooOften) else Poll)
    && r.core.lastRpos == (if h.Rpos? then p else s.lastRpos)
    && r.core.sameRpos == (if !h.Rpos? then s.sameRpos else if p == s.lastRpos then s.sameRpos + 1 else 0)
    && r.core.xoff == s.xoff && r.core.done == (s.done || h.Skip? || (h.Rinit? && s.eofSent))
    && r.core.skipped == (s.skipped || h.Skip?) && r.core.eofSent == (s.eofSent && !restart)
    && r.core.frameOpen == (s.frameOpen && !restart)
    && r.core.pos == (if restart then Min(s.pos, p) else s.pos)
    && r.core.acked == (if restart then Max(s.acked, p)
                        else if h.Ack? && s.acked < h.p <= s.pos then h.p else s.acked)
    && r.core.block == (if restart && p < s.pos then Max(32, s.block / 2) else s.block)
    && r.core.goodRun == (if restart && p < s.pos then 0 else s.goodRun)
    && (r.core.frameOpen ==> r.core.frameAt == s.frameAt && r.core.dataOut && r.core.sinceChk == s.sinceChk
                             && r.core.echoed == (s.echoed || echo))
    && r.core.sent == s.sent + (if h.AskCrc? then [TCrc(h.n)] else if h.Challenge? then [TAck(h.p)]
                                else if restart && s.frameOpen then [TSub([], E)] else [])
  }

  lemma RestartIs(s: Core, p: nat)
    ensures var r := Restart(s, p);
            && r.lastRpos == s.lastRpos && r.sameRpos == s.sameRpos && r.xoff == s.xoff && r.done == s.done
            && r.skipped == s.skipped && !r.eofSent && !r.frameOpen
            && r.pos == Min(s.pos, p) && r.acked == Max(s.acked, p)
            && r.block == (if p < s.pos then Max(32, s.block / 2) else s.block)
            && r.goodRun == (if p < s.pos then 0 else s.goodRun)
            && r.sent == s.sent + if s.frameOpen then [TSub([], E)] else []
  {
    hide Rewind;
    RewindAsked(s, p);
    assert s.sent + [] == s.sent;
  }

  lemma CountDoes(size: nat, s: Core, h: Reverse, early: bool)
    requires h.Rpos? && (s.frameOpen ==> s.dataOut)
    requires var s1 := Counted(s, Min(h.p, size)); s1.sameRpos > MAX_RETRIES || IsEcho(s1, Min(h.p, size), early)
    ensures HeaderDoes(size, s, h, early, Handle(size, s, h, early))
  {
    hide Restart;
    assert s.sent + [] == s.sent;
  }

  lemma RestartDoes(size: nat, s: Core, h: Reverse, early: bool)
    requires h.Rpos? && (s.frameOpen ==> s.dataOut)
    requires var s1 := Counted(s, Min(h.p, size)); s1.sameRpos <= MAX_RETRIES && !IsEcho(s1, Min(h.p, size), early)
    ensures HeaderDoes(size, s, h, early, Handle(size, s, h, early))
  {
    hide Restart;
    var p := Min(h.p, size);
    RestartIs(Counted(s, p), p);
    assert Handle(size, s, h, early) == State(Restart(Counted(s, p), p), Poll);
  }

  lemma RposDoes(size: nat, s: Core, h: Reverse, early: bool)
    requires h.Rpos? && (s.frameOpen ==> s.dataOut)
    ensures HeaderDoes(size, s, h, early, Handle(size, s, h, early))
  {
    hide HeaderDoes;
    hide Handle;
    hide IsEcho;
    hide Counted;
    var s1 := Counted(s, Min(h.p, size));
    if s1.sameRpos > MAX_RETRIES || IsEcho(s1, Min(h.p, size), early) {
      CountDoes(size, s, h, early);
    } else {
      RestartDoes(size, s, h, early);
    }
  }

  lemma OtherDoes(size: nat, s: Core, h: Reverse, early: bool)
    requires !h.Rpos? && (s.frameOpen ==> s.dataOut)
    ensures HeaderDoes(size, s, h, early, Handle(size, s, h, early))
  {
    assert s.sent + [] == s.sent;
  }

  lemma HandleIs(size: nat, s: Core, h: Reverse, early: bool)
    requires s.frameOpen ==> s.dataOut
    ensures HeaderDoes(size, s, h, early, Handle(size, s, h, early))
  {
    hide HeaderDoes;
    if h.Rpos? {
      RposDoes(size, s, h, early);
    } else {
      OtherDoes(size, s, h, early);
    }
  }

  /** The tokens of one turn that sends: a header first if no frame is open, then a block,
      or, if the file cannot be read, the end of frame and file. */
  function TurnTokens(c: Conf, s: Core, k: nat, readable: bool, end: End): seq<Token>
    requires s.pos + k <= |c.src|
  {
    (if s.frameOpen then [] else [TData(s.pos)])
    + if readable then [TSub(c.src[s.pos..s.pos + k], end)] else [TSub([], E), TEof(s.pos)]
  }

  /** Why a block ends as it does. */
  function EndOf(c: Conf, pos: nat, since: nat): End {
    if !c.fullDuplex then W else if pos == |c.src| then E else if since >= c.window / 4 then Q else G
  }

  lemma OpenIs(c: Conf, s: Core)
    requires c.Valid() && s.newFrame == !s.frameOpen && s.pos <= |c.src|
    ensures var r := OpenFrame(s);
            && r == s.(sent := r.sent, newFrame := false, frameOpen := true, frameAt := r.frameAt, dataOut := r.dataOut,
                       echoed := r.echoed, sinceChk := r.sinceChk)
            && r.sent == s.sent + (if s.frameOpen then [] else [TData(s.pos)])
            && r.frameAt == (if s.frameOpen then s.frameAt else s.pos)
            && r.echoed == (s.frameOpen && s.echoed) && r.sinceChk == (if s.frameOpen then s.sinceChk else 0)
  {
    assert s.pos < U32 && s.pos % U32 == s.pos;
    assert s.sent + [] == s.sent;
  }

  lemma BlockIs(c: Conf, s: Core, k: nat)
    requires s.pos + k <= |c.src| && s.frameOpen && !s.newFrame
    ensures var m := SendBlock(c, s, k);
            var end := EndOf(c, s.pos + k, s.sinceChk + k);
            var r := m.core;
            && r == s.(sent := s.sent + [TSub(c.src[s.pos..s.pos + k], end)], pos := s.pos + k, dataOut := true,
                       sinceChk := if end == Q then 0 else s.sinceChk + k,
                       newFrame := end == E || end == W, frameOpen := end == G || end == Q,
                       block := r.block, goodRun := r.goodRun)
            && r.block == (if s.goodRun + 1 >= 16 && s.block < c.maxBlock then Min(2 * s.block, c.maxBlock) else s.block)
            && r.goodRun == (if s.goodRun + 1 >= 16 && s.block < c.maxBlock then 0 else s.goodRun + 1)
            && m.mode == (if end == W then AckWait(0, s.acked, s.pos + k) else Poll)
  {}

  lemma CutIs(c: Conf, s: Core)
    requires c.Valid() && s.pos <= |c.src| && s.frameOpen
    ensures CutFile(s) == State(s.(sent := s.sent + [TSub([], E), TEof(s.pos)], frameOpen := false, eofSent := true),
                                EofWait(0, s.pos, true))
  {
    assert s.pos < U32 && s.pos % U32 == s.pos;
    assert s.sent + [TSub([], E)] + [TEof(s.pos)] == s.sent + [TSub([], E), TEof(s.pos)];
  }

  /** A turn that sends. */
  lemma TurnIs(c: Conf, s: Core, n: nat, readable: bool)
    requires c.Valid() && s.pos < |c.src| && !s.done && !s.xoff && !Blocked(c, s) && s.newFrame == !s.frameOpen && s.block > 0
    ensures var k := BlockSize(n, Min(s.block, |c.src| - s.pos));
            var since := (if s.frameOpen then s.sinceChk else 0) + k;
            var end := EndOf(c, s.pos + k, since);
            var m := Act(c, s, n, readable);
            var r := m.core;
            && 0 < k && s.pos + k <= |c.src|
            && r.sent == s.sent + TurnTokens(c, s, k, readable, end)
            && r.acked == s.acked && r.lastRpos == s.lastRpos && r.sameRpos == s.sameRpos
            && r.xoff == s.xoff && r.done == s.done && r.skipped == s.skipped
            && (if readable then
                  && r.pos == s.pos + k && r.eofSent == s.eofSent && r.frameOpen == (end == G || end == Q)
                  && r.block == (if s.goodRun + 1 >= 16 && s.block < c.maxBlock then Min(2 * s.block, c.maxBlock) else s.block)
                  && r.goodRun == (if s.goodRun + 1 >= 16 && s.block < c.maxBlock then 0 else s.goodRun + 1)
                  && r.frameAt == (if s.frameOpen then s.frameAt else s.pos) && r.dataOut
                  && r.echoed == (s.frameOpen && s.echoed) && r.sinceChk == (if end == Q then 0 else since)
                  && m.mode == (if end == W then AckWait(0, s.acked, s.pos + k) else Poll)
                else
                  && r.pos == s.pos && r.block == s.block && r.goodRun == s.goodRun && r.eofSent && !r.frameOpen
                  && m.mode == EofWait(0, s.pos, true))
  {
    hide OpenFrame;
    hide SendBlock;
    hide CutFile;
    OpenIs(c, s);
    var s1 := OpenFrame(s);
    var k := BlockSize(n, Min(s.block, |c.src| - s.pos));
    var head := if s.frameOpen then [] else [TData(s.pos)];
    if readable {
      BlockIs(c, s1, k);
      var t := TSub(c.src[s.pos..s.pos + k], EndOf(c, s.pos + k, s1.sinceChk + k));
      assert s.sent + head + [t] == s.sent + (head + [t]);
    } else {
      CutIs(c, s1);
      assert s.sent + head + [TSub([], E), TEof(s.pos)] == s.sent + (head + [TSub([], E), TEof(s.pos)]);
    }
  }

  /** A turn that sends no data. */
  lemma RestIs(c: Conf, s: Core, n: nat, readable: bool)
    requires c.Valid() && s.pos <= |c.src| && (s.pos == |c.src| || s.done || s.xoff || Blocked(c, s))
    ensures Act(c, s, n, readable) ==
            if s.done then State(s, Finished)
            else if s.xoff then State(s, Xon)
            else if s.pos == |c.src| then State(s.(sent := s.sent + [TEof(s.pos)], eofSent := true), EofWait(0, s.pos, false))
            else State(s, AckWait(0, s.acked, s.pos))
  {
    assert s.pos < U32 && s.pos % U32 == s.pos;
  }

  lemma AckTimeoutIs(s: Core, w: Mode)
    requires w.AckWait? && (s.frameOpen ==> s.frameAt < s.pos)
    ensures var m := AckTimeout(s, w);
            var r := m.core;
            if s.frameOpen && s.echoed then
              && m.mode.Poll? && r.pos == s.frameAt && r.acked == s.acked && !r.frameOpen && r.sent == s.sent + [TSub([], E)]
              && r.block == Max(32, s.block / 2) && r.goodRun == 0 && r.lastRpos == s.lastRpos && r.sameRpos == s.sameRpos
              && r.xoff == s.xoff && r.done == s.done && r.eofSent == s.eofSent && r.skipped == s.skipped
            else if w.poke >= 4 then m == State(s, Failed(NoAck))
            else if s.frameOpen then m == State(s.(sent := s.sent + [TSub([], Q)]), w.(poke := w.poke + 1))
            else m == State(s.(newFrame := true), Poll)
  {
    hide Rewind;
    RewindAsked(s, s.frameAt);
  }

  /** Counters and flags say what the past amounts to. */
  ghost predicate Told(m: State, p: Past) {
    var s := m.core;
    && s.lastRpos == p.last && s.sameRpos == p.again && s.block == p.size && s.goodRun == p.good && s.xoff == p.held
    && (s.frameOpen ==> s.dataOut && s.frameAt < s.pos && s.echoed == p.echoed && s.sinceChk == Since(s.sent))
    && (m.mode.AckWait? ==> m.mode.poke == p.waited) && (m.mode.EofWait? ==> m.mode.tries == p.tried)
    && (!Ended(m.mode) ==> s.done == p.refused && (s.eofSent ==> m.mode.EofWait?) && (s.done ==> m.mode.Poll?))
  }

  lemma SinceSend(sent: seq<Token>, t: Token)
    ensures Since(sent + [t]) ==
            match t
            case TData(_) => 0
            case TSub(data, end) => if end == Q && data != [] then 0 else Since(sent) + |data|
            case _ => Since(sent)
  {
    assert (sent + [t])[..|sent + [t]| - 1] == sent;
  }

  lemma RposTold(c: Conf, m: State, p: Past, h: Reverse, early: bool)
    requires Told(m, p) && !Ended(m.mode) && h.Rpos?
    ensures var r := Next(c, m, Hdr(h, early)); Told(r, More(c, m, r, p, Hdr(h, early)))
  {
    hide Handle;
    hide Since;
    HandleIs(Limit(c, m.mode), m.core, h, early);
    assert m.core.sent + [] == m.core.sent;
  }

  lemma AnswerTold(c: Conf, m: State, p: Past, h: Reverse, early: bool)
    requires Told(m, p) && !Ended(m.mode) && !h.Rpos?
    ensures var r := Next(c, m, Hdr(h, early)); Told(r, More(c, m, r, p, Hdr(h, early)))
  {
    hide Handle;
    hide Since;
    HandleIs(Limit(c, m.mode), m.core, h, early);
    SinceSend(m.core.sent, TCrc(if h.AskCrc? then h.n else 0));
    SinceSend(m.core.sent, TAck(if h.Challenge? then h.p else 0));
    assert m.core.sent + [] == m.core.sent;
  }

  lemma HeaderTold(c: Conf, m: State, p: Past, h: Reverse, early: bool)
    requires Told(m, p) && !Ended(m.mode)
    ensures var r := Next(c, m, Hdr(h, early)); Told(r, More(c, m, r, p, Hdr(h, early)))
  {
    hide Next;
    hide Told;
    hide More;
    if h.Rpos? {
      RposTold(c, m, p, h, early);
    } else {
      AnswerTold(c, m, p, h, early);
    }
  }

  lemma PollTold(c: Conf, m: State, p: Past, n: nat, readable: bool)
    requires c.Valid() && Told(m, p) && m.mode.Poll? && m.core.pos <= |c.src| && m.core.newFrame == !m.core.frameOpen
    requires m.core.block > 0
    ensures var e := Quiet(n, readable); var r := Next(c, m, e); Told(r, More(c, m, r, p, e))
  {
    hide Act;
    hide Since;
    var s := m.core;
    if s.done || s.xoff || s.pos == |c.src| || Blocked(c, s) {
      RestIs(c, s, n, readable);
      SinceSend(s.sent, TEof(s.pos));
    } else {
      TurnIs(c, s, n, readable);
      var k := BlockSize(n, Min(s.block, |c.src| - s.pos));
      var end := EndOf(c, s.pos + k, (if s.frameOpen then s.sinceChk else 0) + k);
      var t := TSub(c.src[s.pos..s.pos + k], end);
      if readable {
        if s.frameOpen {
          assert TurnTokens(c, s, k, readable, end) == [t];
          SinceSend(s.sent, t);
        } else {
          assert s.sent + TurnTokens(c, s, k, readable, end) == s.sent + [TData(s.pos)] + [t];
          SinceSend(s.sent, TData(s.pos));
          SinceSend(s.sent + [TData(s.pos)], t);
        }
      }
    }
  }

  lemma WaitTold(c: Conf, m: State, p: Past, n: nat, readable: bool)
    requires c.Valid() && Told(m, p) && (m.mode.Xon? || m.mode.AckWait? || m.mode.EofWait?)
    requires m.mode.EofWait? ==> !m.core.frameOpen
    ensures var e := Quiet(n, readable); var r := Next(c, m, e); Told(r, More(c, m, r, p, e))
  {
    hide AckTimeout;
    hide Since;
    if m.mode.AckWait? {
      AckTimeoutIs(m.core, m.mode);
      SinceSend(m.core.sent, TSub([], Q));
    }
  }

  lemma BadTold(c: Conf, m: State, p: Past)
    requires Told(m, p) && m.mode.EofWait? && !m.core.frameOpen
    ensures var r := Next(c, m, BadHdr); Told(r, More(c, m, r, p, BadHdr))
  {
    hide Since;
  }

  lemma OtherTold(c: Conf, m: State, p: Past, e: Event)
    requires Told(m, p) && !e.Hdr? && !e.Quiet? && !(e.BadHdr? && m.mode.EofWait?) && !Ended(m.mode)
    ensures var r := Next(c, m, e); Told(r, More(c, m, r, p, e))
  {
    hide Since;
  }

  lemma AtOne(c: Conf, es: seq<Event>, e: Event)
    ensures At(c, es + [e]) == Next(c, At(c, es), e)
  {
    hide Next;
    assert (es + [e])[..|es + [e]| - 1] == es;
  }

  lemma CoreNow(c: Conf, es: seq<Event>)
    requires c.Valid()
    ensures var m := At(c, es);
            && m.core.pos <= |c.src| && c.start <= m.core.acked && m.core.block > 0
            && (Live(m.mode) ==> m.core.newFrame == !m.core.frameOpen)
            && (m.mode.EofWait? ==> !m.core.frameOpen && m.core.pos == m.mode.limit && m.core.eofSent)
            && (m.core.frameOpen ==> m.core.pos < |c.src|)
            && (m.mode.AckWait? ==> m.core.acked == m.mode.acked0 && m.core.pos == m.mode.pos0)
            && (m.mode.AckWait? && c.fullDuplex ==> m.core.frameOpen)
  {
    hide Run;
    hide FramesOf;
    RunKeeps(c, es);
    Ranges(c, At(c, es).core, Live(At(c, es).mode));
    if Live(At(c, es).mode) {
      ShutIsNew(c, At(c, es).core);
    }
  }

  lemma {:induction false} PastIs(c: Conf, es: seq<Event>)
    requires c.Valid()
    ensures Told(At(c, es), PastOf(c, es))
    decreases |es|
  {
    hide Next;
    hide Told;
    hide More;
    if es == [] {
      StartTold(c);
    } else {
      var before, e := es[..|es| - 1], es[|es| - 1];
      PastIs(c, before);
      CoreNow(c, before);
      StepTold(c, At(c, before), PastOf(c, before), e);
    }
  }

  lemma StartTold(c: Conf)
    ensures Told(Start(c), PastOf(c, []))
  {}

  lemma EndedTold(c: Conf, m: State, p: Past, e: Event)
    requires Told(m, p) && Ended(m.mode)
    ensures Told(Next(c, m, e), More(c, m, Next(c, m, e), p, e))
  {}

  lemma StepTold(c: Conf, m: State, p: Past, e: Event)
    requires c.Valid() && Told(m, p) && m.core.pos <= |c.src| && m.core.block > 0
    requires (Live(m.mode) ==> m.core.newFrame == !m.core.frameOpen) && (m.mode.EofWait? ==> !m.core.frameOpen)
    ensures Told(Next(c, m, e), More(c, m, Next(c, m, e), p, e))
  {
    hide Next;
    hide Told;
    hide More;
    if Ended(m.mode) {
      EndedTold(c, m, p, e);
    } else {
      match e
      case Hdr(h, early) => HeaderTold(c, m, p, h, early);
      case Quiet(n, readable) =>
        if m.mode.Poll? {
          PollTold(c, m, p, n, readable);
        } else {
          WaitTold(c, m, p, n, readable);
        }
      case BadHdr =>
        if m.mode.EofWait? {
          BadTold(c, m, p);
        } else {
          OtherTold(c, m, p, e);
        }
      case _ => OtherTold(c, m, p, e);
    }
  }

  // ---- what each event does ----

  /** How it ends, and by what: nothing else ends it. */
  lemma {:induction false} EndsExactly(c: Conf, es: seq<Event>, e: Event)
    requires c.Valid() && !Ended(At(c, es).mode)
    ensures var m, p, r := At(c, es), PastOf(c, es), At(c, es + [e]).mode;
            var cut := m.mode.EofWait? && m.mode.cut;
            && (r == Failed(GaveUp) <==> e.Hdr? && e.h.GiveUp?)
            && (r == Failed(LinkFailed) <==> e.LinkError?)
            && (r == Failed(AskedTooOften) <==> TooOften(c, m, p, e))
            && (r == Failed(NoAck) <==>
                  m.mode.AckWait? && (e.Expired? || (e.Quiet? && p.waited >= 4 && !(m.core.frameOpen && p.echoed))))
            && (r == Failed(NoEofAck) <==> m.mode.EofWait? && (e.Quiet? || e.BadHdr?) && p.tried >= 19)
            && (r == Failed(ReadFailed) <==>
                  cut && e.Hdr? && (e.h.Skip? || e.h.Rinit? || Obeyed(c, m, p, e)))
            && (r == Finished <==>
                  || (m.mode.Poll? && e.Quiet? && p.refused)
                  || (!m.mode.Poll? && !cut && e.Hdr? && e.h.Skip?)
                  || (m.mode.EofWait? && !cut && e.Hdr? && e.h.Rinit?))
  {
    hide Run;
    hide PastOf;
    hide FramesOf;
    hide Act;
    hide Handle;
    hide AckTimeout;
    PastIs(c, es);
    CoreNow(c, es);
    AtOne(c, es, e);
    var m := At(c, es);
    match e
    case Hdr(h, early) => HandleIs(Limit(c, m.mode), m.core, h, early);
    case Quiet(n, readable) =>
      if m.mode.Poll? {
        PollMode(c, m, n, readable);
      } else if m.mode.AckWait? {
        AckTimeoutIs(m.core, m.mode);
      }
    case _ =>
  }

  lemma PollMode(c: Conf, m: State, n: nat, readable: bool)
    requires c.Valid() && m.mode.Poll? && m.core.pos <= |c.src| && m.core.newFrame == !m.core.frameOpen && m.core.block > 0
    ensures var r := Act(c, m.core, n, readable).mode;
            (r.Finished? <==> m.core.done) && !r.Failed?
  {
    hide Act;
    if m.core.done || m.core.xoff || m.core.pos == |c.src| || Blocked(c, m.core) {
      RestIs(c, m.core, n, readable);
    } else {
      TurnIs(c, m.core, n, readable);
    }
  }

  /** A receiver that refuses the file gets nothing more of it: at the next turn at the
      latest the sender has ended, skipped; with a file cut short, as a failure. */
  lemma {:induction false} SkipEnds(c: Conf, es: seq<Event>, early: bool, n: nat, readable: bool)
    requires c.Valid() && !Ended(At(c, es).mode)
    ensures var m, r := At(c, es), At(c, es + [Hdr(Skip, early)] + [Quiet(n, readable)]);
            && r.mode == (if m.mode.EofWait? && m.mode.cut then Failed(ReadFailed) else Finished)
            && r.core.skipped && r.core.sent == m.core.sent
  {
    hide Run;
    hide PastOf;
    hide Next;
    var e := Hdr(Skip, early);
    CoreNow(c, es);
    AtOne(c, es, e);
    AtOne(c, es + [e], Quiet(n, readable));
    SkipThenQuiet(c, At(c, es), early, n, readable);
  }

  lemma SkipThenQuiet(c: Conf, m: State, early: bool, n: nat, readable: bool)
    requires !Ended(m.mode)
    ensures var r := Next(c, Next(c, m, Hdr(Skip, early)), Quiet(n, readable));
            && r.mode == (if m.mode.EofWait? && m.mode.cut then Failed(ReadFailed) else Finished)
            && r.core.skipped && r.core.sent == m.core.sent
  {}

  /** What goes out on an event: answers to ZCRC and ZCHALLENGE, the end of a frame that is
      rewound, pokes in a wait, ZEOF and its repeats, and, at a turn of the main loop that
      nothing holds up, the next block. */
  function Goes(c: Conf, m: State, p: Past, e: Event): seq<Token>
    requires m.core.pos <= |c.src|
  {
    var s := m.core;
    match e
    case Hdr(h, _) =>
      if h.AskCrc? then [TCrc(h.n)]
      else if h.Challenge? then [TAck(h.p)]
      else if s.frameOpen && Obeyed(c, m, p, e) then [TSub([], E)]
      else []
    case Quiet(n, readable) =>
      if m.mode.Xon? then []
      else if m.mode.AckWait? then
        (if !s.frameOpen then [] else if p.echoed then [TSub([], E)] else if p.waited < 4 then [TSub([], Q)] else [])
      else if m.mode.EofWait? then (if p.tried < 19 then [TEof(s.pos)] else [])
      else if p.refused || p.held then []
      else if s.pos == |c.src| then [TEof(s.pos)]
      else if c.fullDuplex && s.pos >= s.acked + c.window then []
      else
        var k := BlockOf(c, s, p, n);
        TurnTokens(c, s, k, readable, EndOf(c, s.pos + k, (if s.frameOpen then Since(s.sent) else 0) + k))
    case BadHdr => if m.mode.EofWait? && p.tried < 19 then [TEof(s.pos)] else []
    case _ => []
  }

  /** A block is as long as the read of the file gives, up to the longest allowed and what
      is left. */
  function BlockOf(c: Conf, s: Core, p: Past, n: nat): (k: nat)
    requires s.pos < |c.src|
    ensures s.pos + k <= |c.src|
  {
    var most := Min(p.size, |c.src| - s.pos);
    if 0 < n <= most then n else most
  }

  lemma {:induction false} GoesExactly(c: Conf, es: seq<Event>, e: Event)
    requires c.Valid() && !Ended(At(c, es).mode)
    ensures At(c, es).core.pos <= |c.src|
    ensures At(c, es + [e]).core.sent == At(c, es).core.sent + Goes(c, At(c, es), PastOf(c, es), e)
  {
    hide Run;
    hide PastOf;
    hide FramesOf;
    hide Since;
    hide Act;
    hide Handle;
    hide AckTimeout;
    hide TurnTokens;
    PastIs(c, es);
    CoreNow(c, es);
    AtOne(c, es, e);
    var m := At(c, es);
    assert m.core.sent + [] == m.core.sent;
    match e
    case Hdr(h, early) => HandleIs(Limit(c, m.mode), m.core, h, early);
    case Quiet(n, readable) =>
      if m.mode.Poll? {
        if m.core.done || m.core.xoff || m.core.pos == |c.src| || Blocked(c, m.core) {
          RestIs(c, m.core, n, readable);
        } else {
          TurnIs(c, m.core, n, readable);
        }
      } else if m.mode.AckWait? {
        AckTimeoutIs(m.core, m.mode);
      } else if m.mode.EofWait? {
        AgainIs(c, m);
      }
    case BadHdr =>
      if m.mode.EofWait? {
        AgainIs(c, m);
      }
    case _ =>
  }

  lemma AgainIs(c: Conf, m: State)
    requires c.Valid() && m.mode.EofWait? && m.core.pos == m.mode.limit <= |c.src|
    ensures EofAgain(m.core, m.mode) ==
            if m.mode.tries >= 19 then State(m.core, Failed(NoEofAck))
            else State(m.core.(sent := m.core.sent + [TEof(m.core.pos)], eofSent := true), m.mode.(tries := m.mode.tries + 1))
  {
    assert m.core.pos < U32 && m.core.pos % U32 == m.core.pos;
  }

  /** Where it stands in the file, and what it counts as acknowledged. */
  lemma {:induction false} MovesExactly(c: Conf, es: seq<Event>, e: Event)
    requires c.Valid() && !Ended(At(c, es).mode)
    ensures var m, p, r := At(c, es), PastOf(c, es), At(c, es + [e]).core;
            var s := m.core;
            var obeyed := Obeyed(c, m, p, e);
            && s.pos <= |c.src|
            && r.acked == (if obeyed then Max(s.acked, Wanted(c, m, e))
                           else if e.Hdr? && e.h.Ack? && s.acked < e.h.p <= s.pos then e.h.p else s.acked)
            && r.pos == (if obeyed then Min(s.pos, Wanted(c, m, e))
                         else if e.Quiet? && m.mode.AckWait? && s.frameOpen && p.echoed then s.frameAt
                         else if e.Quiet? && e.readable && m.mode.Poll? && !p.refused && !p.held && s.pos < |c.src|
                                 && !(c.fullDuplex && s.pos >= s.acked + c.window) then s.pos + BlockOf(c, s, p, e.n)
                         else s.pos)
  {
    hide Run;
    hide PastOf;
    hide FramesOf;
    hide Since;
    hide Act;
    hide Handle;
    hide AckTimeout;
    hide TurnTokens;
    PastIs(c, es);
    CoreNow(c, es);
    AtOne(c, es, e);
    var m := At(c, es);
    match e
    case Hdr(h, early) => HandleIs(Limit(c, m.mode), m.core, h, early);
    case Quiet(n, readable) =>
      if m.mode.Poll? {
        if m.core.done || m.core.xoff || m.core.pos == |c.src| || Blocked(c, m.core) {
          RestIs(c, m.core, n, readable);
        } else {
          TurnIs(c, m.core, n, readable);
        }
      } else if m.mode.AckWait? {
        AckTimeoutIs(m.core, m.mode);
      }
    case _ =>
  }

  /** Where it waits after an event that does not end it. */
  lemma {:induction false} WaitsExactly(c: Conf, es: seq<Event>, e: Event)
    requires c.Valid() && !Ended(At(c, es).mode) && !Ended(At(c, es + [e]).mode)
    ensures var m, p, r := At(c, es), PastOf(c, es), At(c, es + [e]).mode;
            var s := m.core;
            var turn := m.mode.Poll? && e.Quiet?;
            && (r.Xon? <==> (turn && p.held) || (m.mode.Xon? && !e.Quiet? && e != Flow(false)))
            && (r.EofWait? <==>
                  || (turn && !p.held && (s.pos == |c.src| || (!e.readable && !(c.fullDuplex && s.pos >= s.acked + c.window))))
                  || (m.mode.EofWait? && !Obeyed(c, m, p, e)))
            && (r.AckWait? <==>
                  || (turn && !p.held && s.pos < |c.src|
                      && if c.fullDuplex then s.pos >= s.acked + c.window else e.readable)
                  || (m.mode.AckWait?
                      && (if e.Hdr? then
                            && !(Obeyed(c, m, p, e) && (Wanted(c, m, e) < s.pos || Wanted(c, m, e) > s.acked))
                            && !(e.h.Ack? && (!c.fullDuplex || s.acked < e.h.p <= s.pos))
                          else if e.Quiet? then s.frameOpen && !p.echoed
                          else true)))
  {
    hide Run;
    hide PastOf;
    hide FramesOf;
    hide Since;
    hide Act;
    hide Handle;
    hide AckTimeout;
    hide TurnTokens;
    PastIs(c, es);
    CoreNow(c, es);
    AtOne(c, es, e);
    var m := At(c, es);
    match e
    case Hdr(h, early) => HandleIs(Limit(c, m.mode), m.core, h, early);
    case Quiet(n, readable) =>
      if m.mode.Poll? {
        if m.core.done || m.core.xoff || m.core.pos == |c.src| || Blocked(c, m.core) {
          RestIs(c, m.core, n, readable);
        } else {
          TurnIs(c, m.core, n, readable);
        }
      } else if m.mode.AckWait? {
        AckTimeoutIs(m.core, m.mode);
      }
    case _ =>
  }
}
