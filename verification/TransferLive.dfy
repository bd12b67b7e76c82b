/** The transfer is not safe by standing still: on a line without faults every run,
    however far the sender streams ahead, comes to its end, and only with the whole file
    received. */
module TransferLive {
  import opened Crc
  import opened Sender
  import opened SenderSafety
  import opened Transfer
  import R = Receiver

  /** What may happen in `w` when nothing is lost, damaged, late or cut: the sender's main
      loop goes on whenever it likes, whatever is on the line; tokens and answers arrive
      whenever they like, but no ZRPOS within the echo time of a frame's first subpacket; the
      receiver's session answers once when the file is over. No wait runs out. */
  predicate Fair(w: World, ch: Choice) {
    match ch
    case SenderDoes(e) => e.Quiet? && e.readable && w.s.mode.Poll?
    case SenderReads(early) => w.back != [] && (early ==> !w.back[0].Rpos?)
    case Arrives(written) => written && w.k < |w.s.core.sent|
    case Afterwards(h) => h == Rinit && w.r.place.Complete? && w.s.mode.EofWait? && Rinit !in w.back
    case _ => false
  }

  /** Every choice is fair where it is taken. */
  predicate FairRun(c: Conf, w: World, cs: seq<Choice>)
    decreases |cs|
  {
    cs == [] ||
    (FairRun(c, w, cs[..|cs| - 1]) && Fair(Transfer.Run(c, w, cs[..|cs| - 1]), cs[|cs| - 1]))
  }

  // ---- where the tokens lead ----

  /** A receiver that has taken them all stands at `at`, inside a frame or not, past the
      end of the file or not, and has last been asked for an acknowledgement at `chk`. */
  datatype Spot = Spot(at: nat, open: bool, over: bool, chk: nat) | Astray

  function Onward(size: nat, p: Spot, t: Token): Spot {
    if p.Astray? || p.over then Astray
    else
      match t
      case TData(at) => if !p.open && at == p.at then p.(open := true) else Astray
      case TSub(data, end) =>
        var at := p.at + |data|;
        if !p.open || data == [] || at > size then Astray
        else Spot(at, end == G || end == Q, false, if end == Q || end == W then at else p.chk)
      case TEof(at) => if !p.open && at == p.at == size then p.(over := true) else Astray
      case _ => Astray
  }

  function Trace(c: Conf, from: nat, sent: seq<Token>): Spot
    decreases |sent|
  {
    if sent == [] then Spot(from, false, false, from)
    else Onward(|c.src|, Trace(c, from, sent[..|sent| - 1]), sent[|sent| - 1])
  }

  lemma TraceSend(c: Conf, from: nat, sent: seq<Token>, t: Token)
    ensures Trace(c, from, sent + [t]) == Onward(|c.src|, Trace(c, from, sent), t)
  {
    assert (sent + [t])[..|sent + [t]| - 1] == sent;
  }

  /** Tokens that lead somewhere do so one after the other, and forward. */
  lemma {:induction false} TraceGrows(c: Conf, from: nat, sent: seq<Token>, k: nat)
    requires from <= |c.src| && k <= |sent| && Trace(c, from, sent).Spot?
    ensures Trace(c, from, sent[..k]).Spot?
    ensures var p, q := Trace(c, from, sent[..k]), Trace(c, from, sent);
            from <= p.chk <= p.at <= q.at <= |c.src| && p.chk <= q.chk <= q.at
    decreases |sent|
  {
    if k == |sent| {
      assert sent[..k] == sent;
      if k > 0 {
        TraceGrows(c, from, sent[..k - 1], k - 1);
        assert sent[..k - 1][..k - 1] == sent[..k - 1];
      }
    } else {
      var n := |sent| - 1;
      assert sent[..n][..k] == sent[..k];
      TraceGrows(c, from, sent[..n], k);
    }
  }

  lemma TraceStep(c: Conf, from: nat, sent: seq<Token>, k: nat)
    requires from <= |c.src| && k < |sent| && Trace(c, from, sent).Spot?
    ensures Trace(c, from, sent[..k]).Spot? && Trace(c, from, sent[..k + 1]).Spot?
    ensures Trace(c, from, sent[..k + 1]) == Onward(|c.src|, Trace(c, from, sent[..k]), sent[k])
  {
    hide Onward;
    TraceGrows(c, from, sent, k);
    TraceGrows(c, from, sent, k + 1);
    assert sent[..k + 1][..k] == sent[..k];
  }

  // ---- what is on its way back ----

  /** The answers on the line: acknowledgements, each for more than the one before, from
      beyond `acked` up to `chk`; with `said` a ZRINIT after them. */
  predicate Answers(back: seq<Reverse>, acked: nat, chk: nat, said: bool) {
    if back == [] then !said && acked == chk
    else if back[0].Ack? then acked < back[0].p && Answers(back[1..], back[0].p, chk, said)
    else said && back == [Rinit] && acked == chk
  }

  lemma {:induction false} AnswersMore(back: seq<Reverse>, acked: nat, chk: nat, chk2: nat)
    requires Answers(back, acked, chk, false) && chk < chk2
    ensures Answers(back + [Ack(chk2)], acked, chk2, false)
    decreases |back|
  {
    if back == [] {
      assert (back + [Ack(chk2)])[1..] == [];
    } else {
      AnswersMore(back[1..], back[0].p, chk, chk2);
      assert (back + [Ack(chk2)])[1..] == back[1..] + [Ack(chk2)];
    }
  }

  lemma {:induction false} AnswersEnd(back: seq<Reverse>, acked: nat, chk: nat)
    requires Answers(back, acked, chk, false)
    ensures Answers(back + [Rinit], acked, chk, true)
    decreases |back|
  {
    if back != [] {
      AnswersEnd(back[1..], back[0].p, chk);
      assert (back + [Rinit])[1..] == back[1..] + [Rinit];
    }
  }

  lemma {:induction false} AnswersBound(back: seq<Reverse>, acked: nat, chk: nat, said: bool)
    requires Answers(back, acked, chk, said)
    ensures acked <= chk && (back != [] && back[0].Ack? ==> back[0].p <= chk)
    ensures said <==> Rinit in back
    decreases |back|
  {
    if back != [] && back[0].Ack? {
      AnswersBound(back[1..], back[0].p, chk, said);
      assert back == [back[0]] + back[1..];
    }
  }

  // ---- a run without faults ----

  /** Where the data last (re)started: at offset `at`, after the first `j` tokens. */
  datatype Base = Base(j: nat, at: nat)

  /** The tokens sent since. */
  function Ahead(w: World, b: Base): seq<Token> {
    if b.j <= |w.s.core.sent| then w.s.core.sent[b.j..] else []
  }

  /** How many of them have arrived. */
  function Seen(w: World, b: Base): (n: nat)
    ensures w.k <= |w.s.core.sent| && b.j <= |w.s.core.sent| ==> n <= |Ahead(w, b)|
  {
    if w.k > b.j then w.k - b.j else 0
  }

  function Arrived(c: Conf, w: World, b: Base): Spot {
    if Seen(w, b) <= |Ahead(w, b)| then Trace(c, b.at, Ahead(w, b)[..Seen(w, b)]) else Astray
  }

  /** What is still on the line from before. */
  function Stale(w: World, b: Base): seq<Token> {
    if w.k <= b.j <= |w.s.core.sent| then w.s.core.sent[w.k..b.j] else []
  }

  /** A receiver that hunts for data from `rx`, and has asked for it, passes these over. */
  predicate Rubble(ts: seq<Token>, rx: nat) {
    forall i :: 0 <= i < |ts| ==>
      ts[i].TSub? || (ts[i].TData? && ts[i].pos != rx) || (ts[i].TEof? && ts[i].pos != rx)
  }

  /** The place of a receiver that has taken the tokens up to here. */
  function PlaceAt(p: Spot): R.Place {
    if p.Astray? then R.SenderLeft else if p.over then R.Complete else if p.open then R.InFrame else R.Hunt
  }

  ghost predicate SenderAt(c: Conf, m: State, p: Spot) {
    var s := m.core;
    && !s.done && !s.skipped && !s.xoff
    && p.Spot? && p.at == s.pos && p.open == s.frameOpen && p.over == m.mode.EofWait?
    && (m.mode.Poll? || m.mode.AckWait? || (m.mode.EofWait? && !m.mode.cut))
    && (m.mode.AckWait? ==> s.acked < p.chk)
    && (c.fullDuplex && s.pos < |c.src| ==> s.pos == p.chk + if s.frameOpen then s.sinceChk else 0)
  }

  ghost predicate ReceiverAt(w: World, p: Spot, said: bool) {
    && p.Spot? && w.r.rx == p.at && w.r.place == PlaceAt(p)
    && Answers(w.back, w.s.core.acked, p.chk, said)
  }

  /** The sender has counted no more ZRPOS for one offset than the receiver has, `due` of
      which are still on their way. */
  predicate Counts(w: World, due: nat) {
    var s := w.s.core;
    && (s.frameOpen ==> s.dataOut)
    && s.lastRpos <= w.r.rx && (s.lastRpos == w.r.rx ==> s.sameRpos + due <= w.r.retries)
  }

  /** The sender is where its tokens lead, the receiver where those lead that have arrived,
      and every checkpoint in between is on its way or answered. */
  ghost predicate Going(c: Conf, w: World, b: Base) {
    && Transfer.Inv(c, w) && w.k <= |w.s.core.sent| && b.j <= |w.s.core.sent| && b.at <= |c.src|
    && SenderAt(c, w.s, Trace(c, b.at, Ahead(w, b)))
    && ReceiverAt(w, Arrived(c, w, b), Rinit in w.back)
    && (Rinit in w.back ==> w.r.place.Complete?)
    && Counts(w, 0)
    && Rubble(Stale(w, b), w.r.rx) && (Stale(w, b) != [] ==> w.r.asked)
  }

  ghost predicate Won(c: Conf, w: World)
    requires c.Valid()
  {
    && w.s.mode.Finished? && !w.s.core.skipped
    && w.r.place.Complete? && w.r.out == c.src[c.start..]
    && w.k == |w.s.core.sent| && w.back == []
  }

  // ---- how much is left ----

  /** A token has to arrive; what it asks for comes back, and may be waited for. */
  function Cost(ts: seq<Token>): nat {
    if ts == [] then 0 else (if ts[0].TSub? then 3 else if ts[0].TData? then 1 else 0) + Cost(ts[1..])
  }

  lemma {:induction false} CostConcat(a: seq<Token>, b: seq<Token>)
    ensures Cost(a + b) == Cost(a) + Cost(b)
    decreases |a|
  {
    if a == [] {
      assert a + b == b;
    } else {
      CostConcat(a[1..], b);
      assert (a + b)[1..] == a[1..] + b;
    }
  }

  function Due(back: seq<Reverse>): nat {
    if back == [] then 0 else (if back[0].Ack? then 2 else 1) + Due(back[1..])
  }

  lemma {:induction false} DueMore(back: seq<Reverse>, h: Reverse)
    ensures Due(back + [h]) == Due(back) + if h.Ack? then 2 else 1
    decreases |back|
  {
    if back == [] {
      assert (back + [h])[1..] == [];
    } else {
      DueMore(back[1..], h);
      assert (back + [h])[1..] == back[1..] + [h];
    }
  }

  function Tail(w: World): nat {
    if w.s.mode.Poll? then 4
    else if !w.r.place.Complete? then 3
    else if Rinit in w.back then 0
    else 2
  }

  /** How many more fair steps there are at most: five for each byte to send, and what is
      under way. */
  function Left(c: Conf, w: World, b: Base): nat {
    if w.s.mode.Finished? || w.k > |w.s.core.sent| || b.j > |w.s.core.sent| || w.s.core.pos > |c.src| then 0
    else 5 * (|c.src| - w.s.core.pos) + Cost(Ahead(w, b)[Seen(w, b)..]) + |Stale(w, b)| + Due(w.back) + Tail(w)
  }

  // ---- one block ----

  /** The tokens of one block: a header first if a frame must be begun. */
  function BlockTokens(c: Conf, s: Core, k: nat, end: End): seq<Token>
    requires s.pos + k <= |c.src|
  {
    (if s.newFrame then [TData(s.pos % U32)] else []) + [TSub(c.src[s.pos..s.pos + k], end)]
  }

  ghost predicate BlockSent(c: Conf, s: Core, m: State, k: nat, end: End)
    requires s.pos + k <= |c.src|
  {
    var r := m.core;
    && r.sent == s.sent + BlockTokens(c, s, k, end)
    && r.pos == s.pos + k && r.acked == s.acked && r.xoff == s.xoff
    && r.done == s.done && r.skipped == s.skipped && r.dataOut
    && r.lastRpos == s.lastRpos && r.sameRpos == s.sameRpos
    && r.frameOpen == (end == G || end == Q)
    && r.sinceChk == (if end == Q then 0 else k + if s.newFrame then 0 else s.sinceChk)
    && m.mode == (if end == W then AckWait(0, r.acked, r.pos) else Poll)
    && (end == W <==> !c.fullDuplex) && (end == E <==> c.fullDuplex && s.pos + k == |c.src|)
  }

  lemma OpenIs(c: Conf, s: Core)
    requires s.newFrame == !s.frameOpen
    ensures var r := OpenFrame(s);
            && r.sent == s.sent + (if s.newFrame then [TData(s.pos % U32)] else [])
            && r.pos == s.pos && r.acked == s.acked && r.xoff == s.xoff && r.done == s.done && r.skipped == s.skipped
            && r.block == s.block && r.minBlock == s.minBlock && r.frameOpen
            && r.lastRpos == s.lastRpos && r.sameRpos == s.sameRpos
            && r.sinceChk == (if s.newFrame then 0 else s.sinceChk)
  {}

  lemma PutIs(c: Conf, s: Core, k: nat, end: End)
    requires s.pos + k <= |c.src| && MIN_SUBPACKET <= s.minBlock <= s.block <= c.maxBlock
    ensures var r := PutBlock(c, s, k, end);
            && r.sent == s.sent + [TSub(c.src[s.pos..s.pos + k], end)]
            && r.pos == s.pos + k && r.acked == s.acked && r.xoff == s.xoff && r.done == s.done
            && r.skipped == s.skipped && r.frameOpen == s.frameOpen && r.dataOut
            && r.lastRpos == s.lastRpos && r.sameRpos == s.sameRpos
            && r.sinceChk == (if end == Q then 0 else s.sinceChk + k)
  {
    hide PutBlock;
    PutShape(c, s, k, end);
  }

  lemma BlockIs(c: Conf, s: Core, k: nat)
    requires c.Valid() && 0 < k && s.pos + k <= |c.src| && s.frameOpen
    requires MIN_SUBPACKET <= s.minBlock <= s.block <= c.maxBlock
    ensures var m := SendBlock(c, s, k);
            var end := EndFor(c, s.pos + k, s.sinceChk + k);
            var r := m.core;
            && r.sent == s.sent + [TSub(c.src[s.pos..s.pos + k], end)]
            && r.pos == s.pos + k && r.acked == s.acked && r.xoff == s.xoff && r.done == s.done
            && r.skipped == s.skipped && r.frameOpen == (end == G || end == Q) && r.dataOut
            && r.lastRpos == s.lastRpos && r.sameRpos == s.sameRpos
            && r.sinceChk == (if end == Q then 0 else s.sinceChk + k)
            && m.mode == (if end == W then AckWait(0, r.acked, r.pos) else Poll)
  {
    hide PutBlock;
    hide EndFor;
    PutIs(c, s, k, EndFor(c, s.pos + k, s.sinceChk + k));
  }

  lemma EndIs(c: Conf, pos: nat, since: nat)
    ensures var end := EndFor(c, pos, since);
            (end == W <==> !c.fullDuplex) && (pos <= |c.src| ==> (end == E <==> c.fullDuplex && pos == |c.src|))
  {}

  lemma SendsBlock(c: Conf, s: Core, n: nat) returns (k: nat, end: End)
    requires c.Valid() && CoreOk(c, s, true) && s.pos < |c.src| && !s.done && !s.xoff && !Blocked(c, s)
    ensures k == BlockSize(n, Min(s.block, |c.src| - s.pos))
    ensures 0 < k && s.pos + k <= |c.src|
    ensures BlockSent(c, s, Act(c, s, n, true), k, end)
  {
    hide FramesOf;
    hide Streaming;
    hide OpenFrame;
    hide SendBlock;
    hide EndFor;
    assert s.newFrame == !s.frameOpen by {
      ShutIsNew(c, s);
    }
    Ranges(c, s, true);
    OpenIs(c, s);
    var s1 := OpenFrame(s);
    k := BlockSize(n, Min(s.block, |c.src| - s.pos));
    end := EndFor(c, s1.pos + k, s1.sinceChk + k);
    BlockIs(c, s1, k);
    EndIs(c, s1.pos + k, s1.sinceChk + k);
    assert Act(c, s, n, true) == SendBlock(c, s1, k);
    assert s.sent + (if s.newFrame then [TData(s.pos % U32)] else []) + [TSub(c.src[s.pos..s.pos + k], end)]
        == s.sent + BlockTokens(c, s, k, end);
  }

  // ---- and its arrival ----

  lemma OpenArrives(c: Conf, w: World)
    requires w.k < |w.s.core.sent| && w.s.core.sent[w.k] == TData(w.r.rx) && w.r.place.Hunt?
    ensures var w2 := Transfer.Step(c, w, Arrives(true));
            && w2.s == w.s && w2.k == w.k + 1 && w2.back == w.back
            && w2.r.place.InFrame? && w2.r.rx == w.r.rx && w2.r.retries == w.r.retries
  {
    assert w.back + [] == w.back;
  }

  lemma DataTakes(r: R.Rcv, data: seq<byte>, end: End)
    requires r.place.InFrame? && r.rx + |data| < U32
    ensures var r2 := R.Step(r, R.Sub(data, end, true));
            && r2.rx == r.rx + |data|
            && r2.place == (if end == G || end == Q then R.InFrame else R.Hunt)
            && r2.replies == r.replies + if end == Q || end == W then [R.HaveTo(r.rx + |data|)] else []
  {
    assert r.replies + [] == r.replies;
  }

  lemma SubTakes(c: Conf, w: World, data: seq<byte>, end: End)
    requires w.k < |w.s.core.sent| && w.s.core.sent[w.k] == TSub(data, end) && w.r.place.InFrame?
    requires w.r.rx + |data| < U32
    ensures var w2 := Transfer.Step(c, w, Arrives(true));
            && w2.s == w.s && w2.k == w.k + 1
            && w2.back == w.back + (if end == Q || end == W then [Ack(w.r.rx + |data|)] else [])
            && w2.r.rx == w.r.rx + |data|
            && w2.r.place == (if end == G || end == Q then R.InFrame else R.Hunt)
  {
    hide R.Step;
    DataTakes(w.r, data, end);
  }

  lemma CoreIs(c: Conf, w: World)
    requires Transfer.Inv(c, w) && Live(w.s.mode)
    ensures CoreOk(c, w.s.core, true) && w.s.core.acked <= w.r.rx <= |c.src|
    ensures ModeOk(c, w.s.core, w.s.mode, FramesOf(c.src, w.s.core.sent))
  {
    hide FramesOf;
    hide CoreOk;
    hide ModeOk;
    hide R.Inv;
  }

  lemma Keeps(c: Conf, w: World, ch: Choice)
    requires c.Valid() && Transfer.Inv(c, w)
    ensures Transfer.Inv(c, Transfer.Step(c, w, ch))
  {
    Transfer.StepKeeps(c, w, ch);
  }

  lemma Says(c: Conf, w: World, n: nat)
    requires w.s.mode.Poll?
    ensures Transfer.Step(c, w, SenderDoes(Quiet(n, true))) == w.(s := Act(c, w.s.core, n, true))
  {
    hide Act;
  }

  lemma AtEof(c: Conf, s: Core, n: nat)
    requires c.Valid() && s.pos == |c.src| && !s.done && !s.xoff
    ensures var m := Act(c, s, n, true);
            && m.mode == EofWait(0, |c.src|, false) && m.core.sent == s.sent + [TEof(|c.src|)]
            && m.core.skipped == s.skipped && !m.core.done && !m.core.xoff && m.core.eofSent
            && m.core.pos == s.pos && m.core.acked == s.acked && m.core.frameOpen == s.frameOpen
            && m.core.dataOut == s.dataOut && m.core.newFrame == s.newFrame
            && m.core.lastRpos == s.lastRpos && m.core.sameRpos == s.sameRpos
  {}

  lemma EofTakes(c: Conf, w: World)
    requires w.k < |w.s.core.sent| && w.s.core.sent[w.k] == TEof(w.r.rx) && w.r.place.Hunt?
    ensures Transfer.Step(c, w, Arrives(true)) == w.(k := w.k + 1, r := w.r.(place := R.Complete))
  {
    assert w.back + [] == w.back;
  }

  lemma RinitTakes(c: Conf, m: State, early: bool)
    requires m.mode.EofWait? && !m.mode.cut && m.core.eofSent && !m.core.done
    ensures var m2 := Next(c, m, Hdr(Rinit, early));
            m2.mode.Finished? && m2.core.skipped == m.core.skipped && m2.core.sent == m.core.sent
  {}

  lemma OutIs(c: Conf, w: World)
    requires c.Valid() && Transfer.Inv(c, w) && w.r.rx == |c.src|
    ensures w.r.out == c.src[c.start..]
  {
    hide SenderSafety.Inv;
    hide FramesOf;
    assert c.src[c.start..|c.src|] == c.src[c.start..];
  }

  lemma TraceOver(c: Conf, from: nat, sent: seq<Token>, k: nat)
    requires from <= |c.src| && k <= |sent| && Trace(c, from, sent).Spot?
    requires Trace(c, from, sent[..k]).Spot? && Trace(c, from, sent[..k]).over
    ensures k == |sent| && Trace(c, from, sent).at == |c.src| && !Trace(c, from, sent).open
  {
    if k < |sent| {
      TraceStep(c, from, sent, k);
      assert false;
    }
    assert sent[..k] == sent;
  }

  /** The receiver has the whole file only while the sender waits for it to say so. */
  lemma CompleteIsLast(c: Conf, w: World, b: Base)
    requires c.Valid() && Going(c, w, b) && w.r.place.Complete?
    ensures w.s.mode.EofWait? && w.k == |w.s.core.sent| && w.r.rx == |c.src| && Stale(w, b) == []
    ensures Seen(w, b) == |Ahead(w, b)| && Arrived(c, w, b) == Trace(c, b.at, Ahead(w, b))
  {
    hide Transfer.Inv;
    hide Answers;
    var ts := Ahead(w, b);
    assert ts[..0] == [];
    hide Trace;
    TraceOver(c, b.at, ts, Seen(w, b));
    assert ts[..Seen(w, b)] == ts;
  }

  // ---- the sender's turn ----

  /** In full duplex a sender whose window is full has a checkpoint out beyond everything
      acknowledged. */
  lemma BlockedOwes(c: Conf, s: Core, chk: nat)
    requires c.Valid() && CoreOk(c, s, true) && Blocked(c, s) && s.pos < |c.src|
    requires s.pos == chk + if s.frameOpen then s.sinceChk else 0
    ensures s.acked < chk
  {
    hide FramesOf;
    BlockedFrameOpen(c, s);
  }

  lemma BlockTrace(c: Conf, from: nat, ts: seq<Token>, s: Core, k: nat, end: End)
    requires c.Valid() && 0 < k && s.pos + k <= |c.src| && s.newFrame == !s.frameOpen
    requires var p := Trace(c, from, ts); p.Spot? && p.at == s.pos && p.open == s.frameOpen && !p.over
    ensures Trace(c, from, ts + BlockTokens(c, s, k, end)) ==
            Spot(s.pos + k, end == G || end == Q, false, if end == Q || end == W then s.pos + k else Trace(c, from, ts).chk)
    ensures Cost(BlockTokens(c, s, k, end)) <= 4
  {
    hide Trace;
    R.SmallMod(s.pos);
    var head, sub := TData(s.pos % U32), TSub(c.src[s.pos..s.pos + k], end);
    var begun := if s.newFrame then ts + [head] else ts;
    TraceSend(c, from, ts, head);
    TraceSend(c, from, begun, sub);
    assert ts + BlockTokens(c, s, k, end) == begun + [sub];
    assert [head, sub][1..] == [sub] && [sub][1..] == [];
    assert Cost([sub]) == 3 && Cost([head, sub]) == 1 + Cost([sub]);
    assert BlockTokens(c, s, k, end) == if s.newFrame then [head, sub] else [sub];
  }

  /** What the sender adds at the end changes nothing about what has arrived. */
  lemma Later(w: World, w2: World, b: Base, more: seq<Token>)
    requires w.k <= |w.s.core.sent| && b.j <= |w.s.core.sent|
    requires w2.k == w.k && w2.s.core.sent == w.s.core.sent + more
    ensures Ahead(w2, b) == Ahead(w, b) + more && Seen(w2, b) == Seen(w, b)
    ensures Ahead(w2, b)[..Seen(w2, b)] == Ahead(w, b)[..Seen(w, b)]
    ensures Cost(Ahead(w2, b)[Seen(w2, b)..]) == Cost(Ahead(w, b)[Seen(w, b)..]) + Cost(more)
    ensures Stale(w2, b) == Stale(w, b)
  {
    var n := Seen(w, b);
    assert Ahead(w2, b)[n..] == Ahead(w, b)[n..] + more;
    CostConcat(Ahead(w, b)[n..], more);
  }

  lemma {:induction false} Same(w: World, w2: World, b: Base)
    requires w2.k == w.k && w2.s.core.sent == w.s.core.sent
    ensures Ahead(w2, b) == Ahead(w, b) && Seen(w2, b) == Seen(w, b) && Stale(w2, b) == Stale(w, b)
  {}

  ghost predicate Nearer(c: Conf, w: World, w2: World, b: Base)
    requires c.Valid()
  {
    (Going(c, w2, b) || Won(c, w2)) && Left(c, w2, b) < Left(c, w, b)
  }

  lemma SenderIs(c: Conf, w: World, b: Base)
    requires c.Valid() && Going(c, w, b)
    ensures CoreOk(c, w.s.core, true) && w.s.core.pos <= |c.src| && w.s.core.newFrame == !w.s.core.frameOpen
    ensures ModeOk(c, w.s.core, w.s.mode, FramesOf(c.src, w.s.core.sent))
    ensures w.s.core.frameOpen ==> w.s.core.pos < |c.src|
    ensures w.s.core.acked <= w.r.rx
  {
    hide Transfer.Inv;
    hide FramesOf;
    hide CoreOk;
    hide ModeOk;
    hide Trace;
    CoreIs(c, w);
    Ranges(c, w.s.core, true);
    ShutIsNew(c, w.s.core);
  }

  lemma BlockGoes(c: Conf, w: World, b: Base, n: nat)
    requires c.Valid() && Going(c, w, b) && w.s.mode.Poll? && w.s.core.pos < |c.src| && !Blocked(c, w.s.core)
    ensures Nearer(c, w, Transfer.Step(c, w, SenderDoes(Quiet(n, true))), b)
  {
    hide FramesOf;
    hide Transfer.Inv;
    hide CoreOk;
    hide ModeOk;
    hide Blocked;
    hide Act;
    hide Transfer.Step;
    hide Trace;
    hide Cost;
    hide Answers;
    hide Ahead;
    hide Stale;
    hide Seen;
    hide Rubble;
    hide BlockTokens;
    var s := w.s.core;
    SenderIs(c, w, b);
    var k, end := SendsBlock(c, s, n);
    Says(c, w, n);
    Keeps(c, w, SenderDoes(Quiet(n, true)));
    BlockTrace(c, b.at, Ahead(w, b), s, k, end);
    Later(w, Transfer.Step(c, w, SenderDoes(Quiet(n, true))), b, BlockTokens(c, s, k, end));
    TraceGrows(c, b.at, Ahead(w, b), Seen(w, b));
  }

  lemma FullGoes(c: Conf, w: World, b: Base, n: nat)
    requires c.Valid() && Going(c, w, b) && w.s.mode.Poll? && w.s.core.pos < |c.src| && Blocked(c, w.s.core)
    ensures Nearer(c, w, Transfer.Step(c, w, SenderDoes(Quiet(n, true))), b)
  {
    hide FramesOf;
    hide Transfer.Inv;
    hide CoreOk;
    hide ModeOk;
    hide Transfer.Step;
    hide Trace;
    hide Cost;
    hide Answers;
    hide Rubble;
    var s := w.s.core;
    SenderIs(c, w, b);
    BlockedOwes(c, s, Trace(c, b.at, Ahead(w, b)).chk);
    Says(c, w, n);
    Keeps(c, w, SenderDoes(Quiet(n, true)));
    assert Act(c, s, n, true) == State(s, AckWait(0, s.acked, s.pos));
    Same(w, Transfer.Step(c, w, SenderDoes(Quiet(n, true))), b);
  }

  lemma EofGoes(c: Conf, w: World, b: Base, n: nat)
    requires c.Valid() && Going(c, w, b) && w.s.mode.Poll? && w.s.core.pos == |c.src|
    ensures Nearer(c, w, Transfer.Step(c, w, SenderDoes(Quiet(n, true))), b)
  {
    hide FramesOf;
    hide Transfer.Inv;
    hide CoreOk;
    hide ModeOk;
    hide Act;
    hide Transfer.Step;
    hide Trace;
    hide Answers;
    hide Ahead;
    hide Stale;
    hide Seen;
    hide Rubble;
    var s := w.s.core;
    SenderIs(c, w, b);
    AtEof(c, s, n);
    Says(c, w, n);
    Keeps(c, w, SenderDoes(Quiet(n, true)));
    TraceSend(c, b.at, Ahead(w, b), TEof(|c.src|));
    Later(w, Transfer.Step(c, w, SenderDoes(Quiet(n, true))), b, [TEof(|c.src|)]);
    assert [TEof(|c.src|)][1..] == [];
    if w.r.place.Complete? {
      CompleteIsLast(c, w, b);
    }
  }

  // ---- an answer is read ----

  lemma AckTakes(c: Conf, m: State, p: nat, early: bool)
    requires m.core.acked < p <= m.core.pos && !m.core.done
    requires m.mode.Poll? || (m.mode.AckWait? && m.mode.acked0 == m.core.acked) || (m.mode.EofWait? && m.core.eofSent)
    ensures Next(c, m, Hdr(Ack(p), early)) == State(m.core.(acked := p), if m.mode.EofWait? then m.mode else Poll)
  {}

  lemma Reads(c: Conf, w: World, early: bool)
    requires w.back != []
    ensures Transfer.Step(c, w, SenderReads(early)) == w.(s := Next(c, w.s, Hdr(w.back[0], early)), back := w.back[1..])
  {
    hide Next;
  }

  lemma AckGoes(c: Conf, w: World, b: Base, early: bool)
    requires c.Valid() && Going(c, w, b) && w.back != [] && w.back[0].Ack?
    ensures Nearer(c, w, Transfer.Step(c, w, SenderReads(early)), b)
  {
    hide FramesOf;
    hide Transfer.Inv;
    hide CoreOk;
    hide Next;
    hide Transfer.Step;
    hide Trace;
    hide Cost;
    hide Rubble;
    var s := w.s.core;
    SenderIs(c, w, b);
    TraceGrows(c, b.at, Ahead(w, b), Seen(w, b));
    var p := Arrived(c, w, b);
    AnswersBound(w.back, s.acked, p.chk, Rinit in w.back);
    AckTakes(c, w.s, w.back[0].p, early);
    Reads(c, w, early);
    Keeps(c, w, SenderReads(early));
    AnswersBound(w.back[1..], w.back[0].p, p.chk, Rinit in w.back);
    Same(w, Transfer.Step(c, w, SenderReads(early)), b);
    if w.r.place.Complete? {
      CompleteIsLast(c, w, b);
    }
  }

  lemma RinitGoes(c: Conf, w: World, b: Base, early: bool)
    requires c.Valid() && Going(c, w, b) && w.back != [] && !w.back[0].Ack?
    ensures Nearer(c, w, Transfer.Step(c, w, SenderReads(early)), b)
  {
    hide FramesOf;
    hide Transfer.Inv;
    hide CoreOk;
    hide Next;
    hide Transfer.Step;
    hide Trace;
    hide Cost;
    hide Rubble;
    SenderIs(c, w, b);
    assert w.back == [Rinit];
    CompleteIsLast(c, w, b);
    RinitTakes(c, w.s, early);
    Reads(c, w, early);
    OutIs(c, w);
  }

  // ---- a token arrives ----

  /** A receiver that hunts passes over what is left from before. */
  lemma StaleArrives(c: Conf, w: World)
    requires w.k < |w.s.core.sent| && w.r.place.Hunt? && w.r.asked && Rubble([w.s.core.sent[w.k]], w.r.rx)
    ensures Transfer.Step(c, w, Arrives(true)) == w.(k := w.k + 1)
  {
    assert w.back + [] == w.back;
    var t := [w.s.core.sent[w.k]][0];
    assert t.TSub? || (t.TData? && t.pos != w.r.rx) || (t.TEof? && t.pos != w.r.rx);
  }

  lemma StaleGoes(c: Conf, w: World, b: Base)
    requires c.Valid() && Going(c, w, b) && w.k < b.j
    ensures Nearer(c, w, Transfer.Step(c, w, Arrives(true)), b)
  {
    hide FramesOf;
    hide Transfer.Inv;
    hide CoreOk;
    hide ModeOk;
    hide Transfer.Step;
    hide Cost;
    hide Answers;
    SenderIs(c, w, b);
    assert Seen(w, b) == 0 && Ahead(w, b)[..0] == [];
    assert w.r.place.Hunt?;
    assert Stale(w, b)[0] == w.s.core.sent[w.k];
    StaleArrives(c, w);
    Keeps(c, w, Arrives(true));
    var w2 := Transfer.Step(c, w, Arrives(true));
    hide Trace;
    assert Stale(w2, b) == Stale(w, b)[1..];
    assert Ahead(w2, b) == Ahead(w, b) && Seen(w2, b) == 0;
  }

  lemma {:induction false} NextSpot(c: Conf, w: World, b: Base)
    requires c.Valid() && Going(c, w, b) && b.j <= w.k < |w.s.core.sent|
    ensures var t, ts, n := w.s.core.sent[w.k], Ahead(w, b), Seen(w, b);
            && n < |ts| && ts[n] == t && Stale(w, b) == []
            && Trace(c, b.at, ts[..n + 1]) == Onward(|c.src|, Arrived(c, w, b), t) != Astray
            && Trace(c, b.at, ts[..n + 1]).at <= |c.src| && !w.r.place.Complete? && Rinit !in w.back
            && Cost(ts[n..]) == (if t.TSub? then 3 else if t.TData? then 1 else 0) + Cost(ts[n + 1..])
  {
    hide Transfer.Inv;
    hide Trace;
    hide Answers;
    var ts, n := Ahead(w, b), Seen(w, b);
    TraceStep(c, b.at, ts, n);
    TraceGrows(c, b.at, ts, n + 1);
    assert ts[n..][1..] == ts[n + 1..];
  }

  lemma Onwards(w: World, w2: World, b: Base)
    requires b.j <= w.k < |w.s.core.sent| && w2.k == w.k + 1 && w2.s == w.s
    ensures Ahead(w2, b) == Ahead(w, b) && Seen(w2, b) == Seen(w, b) + 1 && Stale(w2, b) == []
  {}

  lemma HeaderGoes(c: Conf, w: World, b: Base)
    requires c.Valid() && Going(c, w, b) && b.j <= w.k < |w.s.core.sent| && w.s.core.sent[w.k].TData?
    ensures Nearer(c, w, Transfer.Step(c, w, Arrives(true)), b)
  {
    hide FramesOf;
    hide Transfer.Inv;
    hide CoreOk;
    hide ModeOk;
    hide Transfer.Step;
    hide Trace;
    hide Cost;
    hide Answers;
    hide Ahead;
    hide Seen;
    hide Stale;
    SenderIs(c, w, b);
    NextSpot(c, w, b);
    OpenArrives(c, w);
    Keeps(c, w, Arrives(true));
    Onwards(w, Transfer.Step(c, w, Arrives(true)), b);
  }

  lemma BlockArrives(c: Conf, w: World, b: Base)
    requires c.Valid() && Going(c, w, b) && b.j <= w.k < |w.s.core.sent| && w.s.core.sent[w.k].TSub?
    ensures Nearer(c, w, Transfer.Step(c, w, Arrives(true)), b)
  {
    hide FramesOf;
    hide Transfer.Inv;
    hide CoreOk;
    hide ModeOk;
    hide Transfer.Step;
    hide Trace;
    hide Cost;
    hide Answers;
    hide Due;
    hide Ahead;
    hide Seen;
    hide Stale;
    var t := w.s.core.sent[w.k];
    SenderIs(c, w, b);
    NextSpot(c, w, b);
    TraceGrows(c, b.at, Ahead(w, b), Seen(w, b));
    var p := Arrived(c, w, b);
    SubTakes(c, w, t.data, t.end);
    Keeps(c, w, Arrives(true));
    Onwards(w, Transfer.Step(c, w, Arrives(true)), b);
    if t.end == Q || t.end == W {
      var at := p.at + |t.data|;
      AnswersMore(w.back, w.s.core.acked, p.chk, at);
      DueMore(w.back, Ack(at));
      assert Rinit !in w.back + [Ack(at)];
    } else {
      assert w.back + [] == w.back;
    }
  }

  lemma EofArrives(c: Conf, w: World, b: Base)
    requires c.Valid() && Going(c, w, b) && b.j <= w.k < |w.s.core.sent| && w.s.core.sent[w.k].TEof?
    ensures Nearer(c, w, Transfer.Step(c, w, Arrives(true)), b)
  {
    hide FramesOf;
    hide Transfer.Inv;
    hide CoreOk;
    hide ModeOk;
    hide Transfer.Step;
    hide Trace;
    hide Cost;
    hide Answers;
    hide Ahead;
    hide Seen;
    hide Stale;
    SenderIs(c, w, b);
    NextSpot(c, w, b);
    EofTakes(c, w);
    Keeps(c, w, Arrives(true));
    Onwards(w, Transfer.Step(c, w, Arrives(true)), b);
    TraceOver(c, b.at, Ahead(w, b), Seen(w, b) + 1);
    assert Ahead(w, b)[..Seen(w, b) + 1] == Ahead(w, b);
  }

  lemma SessionAnswers(c: Conf, w: World, b: Base)
    requires c.Valid() && Going(c, w, b) && w.r.place.Complete? && Rinit !in w.back
    ensures Nearer(c, w, Transfer.Step(c, w, Afterwards(Rinit)), b)
  {
    hide FramesOf;
    hide Transfer.Inv;
    hide CoreOk;
    hide ModeOk;
    hide Trace;
    hide Cost;
    hide Answers;
    hide Due;
    SenderIs(c, w, b);
    CompleteIsLast(c, w, b);
    Keeps(c, w, Afterwards(Rinit));
    AnswersEnd(w.back, w.s.core.acked, Arrived(c, w, b).chk);
    DueMore(w.back, Rinit);
    assert Rinit in w.back + [Rinit];
    Same(w, Transfer.Step(c, w, Afterwards(Rinit)), b);
  }

  // ---- every fair step brings the end nearer ----

  lemma ArrivalGoes(c: Conf, w: World, b: Base)
    requires c.Valid() && Going(c, w, b) && w.k < |w.s.core.sent|
    ensures Nearer(c, w, Transfer.Step(c, w, Arrives(true)), b)
  {
    hide Going;
    hide Nearer;
    hide Transfer.Step;
    if w.k < b.j {
      StaleGoes(c, w, b);
    } else {
      match w.s.core.sent[w.k]
      case TData(_) => HeaderGoes(c, w, b);
      case TSub(_, _) => BlockArrives(c, w, b);
      case TEof(_) => EofArrives(c, w, b);
      case _ => NextSpot(c, w, b);
    }
  }

  lemma FairStep(c: Conf, w: World, b: Base, ch: Choice)
    requires c.Valid() && Going(c, w, b) && Fair(w, ch)
    ensures Nearer(c, w, Transfer.Step(c, w, ch), b)
  {
    hide Going;
    hide Nearer;
    hide Transfer.Step;
    match ch
    case SenderDoes(e) =>
      SenderIs(c, w, b);
      if w.s.core.pos == |c.src| {
        EofGoes(c, w, b, e.n);
      } else if Blocked(c, w.s.core) {
        FullGoes(c, w, b, e.n);
      } else {
        BlockGoes(c, w, b, e.n);
      }
    case Arrives(_) => ArrivalGoes(c, w, b);
    case SenderReads(early) =>
      if w.back[0].Ack? {
        AckGoes(c, w, b, early);
      } else {
        RinitGoes(c, w, b, early);
      }
    case Afterwards(_) => SessionAnswers(c, w, b);
    case _ =>
  }

  /** No fair state but the last is a dead end: a sender that waits is owed an answer that
      is on the line, or asked for by something that is. */
  lemma FairStepExists(c: Conf, w: World, b: Base)
    requires c.Valid() && Going(c, w, b)
    ensures exists ch :: Fair(w, ch)
  {
    hide Transfer.Inv;
    hide Trace;
    if w.back != [] {
      assert Fair(w, SenderReads(false));
    } else if w.k < |w.s.core.sent| {
      assert Fair(w, Arrives(true));
    } else if w.s.mode.Poll? {
      assert Fair(w, SenderDoes(Quiet(1, true)));
    } else {
      assert Ahead(w, b)[..Seen(w, b)] == Ahead(w, b);
      assert Fair(w, Afterwards(Rinit));
    }
  }

  lemma StartGoes(c: Conf)
    requires c.Valid()
    ensures var w, b := Begin(c, 0), Base(0, c.start);
            Going(c, w, b) && Left(c, w, b) == 5 * (|c.src| - c.start) + 4
  {
    hide Transfer.Inv;
    Transfer.BeginHolds(c, 0);
    var w := Begin(c, 0);
    assert Ahead(w, Base(0, c.start)) == [] && Seen(w, Base(0, c.start)) == 0 && Stale(w, Base(0, c.start)) == [];
  }

  lemma WonIsOver(c: Conf, w: World, ch: Choice)
    requires c.Valid() && Won(c, w)
    ensures !Fair(w, ch)
  {}

  lemma {:induction false} FairRunGoes(c: Conf, cs: seq<Choice>)
    requires c.Valid() && FairRun(c, Begin(c, 0), cs)
    ensures var w, b := Transfer.Run(c, Begin(c, 0), cs), Base(0, c.start);
            (Going(c, w, b) || Won(c, w)) && Left(c, w, b) + |cs| <= 5 * (|c.src| - c.start) + 4
    decreases |cs|
  {
    hide Transfer.Step;
    hide Fair;
    hide Left;
    hide Going;
    hide Won;
    if cs == [] {
      StartGoes(c);
    } else {
      var n := |cs| - 1;
      var w := Transfer.Run(c, Begin(c, 0), cs[..n]);
      FairRunGoes(c, cs[..n]);
      if Won(c, w) {
        WonIsOver(c, w, cs[n]);
      }
      FairStep(c, w, Base(0, c.start), cs[n]);
    }
  }

  /** On a line without faults every run is over after five steps for each byte and four
      more, in whatever order the sender goes on, tokens and answers arrive, however far ahead
      the window lets it stream and however much a read of the file gives; and a run can only
      stop where the sender has ended well and the receiver has the whole file. So every
      file, whole or resumed, in full or half duplex, with any window and block size, comes
      through. */
  lemma {:induction false} CleanLineCompletes(c: Conf, cs: seq<Choice>)
    requires c.Valid() && FairRun(c, Begin(c, 0), cs)
    ensures |cs| <= 5 * (|c.src| - c.start) + 4
    ensures var w := Transfer.Run(c, Begin(c, 0), cs);
            Won(c, w) <==> forall ch :: !Fair(w, ch)
  {
    hide Transfer.Run;
    hide FairRun;
    hide Going;
    hide Won;
    hide Left;
    hide Fair;
    var w := Transfer.Run(c, Begin(c, 0), cs);
    FairRunGoes(c, cs);
    if Won(c, w) {
      forall ch
        ensures !Fair(w, ch)
      {
        WonIsOver(c, w, ch);
      }
    } else {
      FairStepExists(c, w, Base(0, c.start));
    }
  }
}
