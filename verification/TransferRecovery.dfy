/** And it gets over damage: on a line that spoils subpackets every transfer that is not
    given up comes to its end, and only with the whole file received. */
module TransferRecovery {
  import opened Crc
  import opened Sender
  import opened SenderSafety
  import opened Transfer
  import opened TransferLive
  import R = Receiver

  /** A subpacket is damaged or late, with any number of tokens after it, while the receiver
      has errors left to count: fewer than twenty since data last came. */
  predicate Harm(w: World, ch: Choice) {
    ch.Damage? && w.r.place.InFrame? && w.r.retries < 20
  }

  /** Every choice is fair where it is taken, or such damage. */
  predicate BumpyRun(c: Conf, w: World, cs: seq<Choice>)
    decreases |cs|
  {
    cs == [] ||
    (BumpyRun(c, w, cs[..|cs| - 1]) &&
     var w1 := Transfer.Run(c, w, cs[..|cs| - 1]);
     Fair(w1, cs[|cs| - 1]) || Harm(w1, cs[|cs| - 1]))
  }

  function Harms(cs: seq<Choice>): nat
    decreases |cs|
  {
    if cs == [] then 0 else Harms(cs[..|cs| - 1]) + if cs[|cs| - 1].Damage? then 1 else 0
  }

  // ---- between the damage and the restart ----

  /** Acknowledgements of less than `rx`, and the ZRPOS for it at the end. */
  predicate Pending(back: seq<Reverse>, acked: nat, rx: nat) {
    if back == [] then false
    else if back[0].Ack? then acked < back[0].p <= rx && Pending(back[1..], back[0].p, rx)
    else back == [Rpos(rx)]
  }

  /** The receiver hunts for data from where it stands, has asked for it, and passes over
      all that is on the line; the sender does not know yet. */
  ghost predicate Lost(c: Conf, w: World) {
    var s, m, r := w.s.core, w.s.mode, w.r;
    && Transfer.Inv(c, w) && w.k <= |s.sent|
    && !s.done && !s.skipped && !s.xoff
    && (m.Poll? || m.AckWait? || (m.EofWait? && !m.cut)) && (m.AckWait? ==> s.acked < s.pos)
    && r.place.Hunt? && r.asked
    && r.rx < |c.src| && r.rx <= s.pos && (s.newFrame ==> r.rx < s.pos)
    && Counts(w, 1)
    && Pending(w.back, s.acked, r.rx)
    && Rubble(s.sent[w.k..], r.rx)
  }

  function LostTail(m: Mode): nat {
    if m.Poll? then 3 else if m.AckWait? then 2 else 1
  }

  function LostLeft(c: Conf, w: World): nat {
    if w.k > |w.s.core.sent| || w.s.core.pos > |c.src| || w.r.rx > |c.src| then 0
    else
      var behind := 5 * (|c.src| - w.s.core.pos) + (|w.s.core.sent| - w.k) + Due(w.back) + LostTail(w.s.mode);
      behind + 5 * (|c.src| - w.r.rx) + 4
  }

  ghost predicate LostNearer(c: Conf, w: World, w2: World) {
    Lost(c, w2) && LostLeft(c, w2) < LostLeft(c, w)
  }

  lemma LostIs(c: Conf, w: World)
    requires c.Valid() && Lost(c, w)
    ensures CoreOk(c, w.s.core, true) && w.s.core.pos <= |c.src| && w.s.core.newFrame == !w.s.core.frameOpen
    ensures ModeOk(c, w.s.core, w.s.mode, FramesOf(c.src, w.s.core.sent))
    ensures w.s.core.frameOpen ==> w.s.core.pos < |c.src|
    ensures w.s.core.acked <= w.r.rx && w.r.retries <= 20
  {
    hide Transfer.Inv;
    hide FramesOf;
    hide CoreOk;
    hide ModeOk;
    CoreIs(c, w);
    Ranges(c, w.s.core, true);
    ShutIsNew(c, w.s.core);
    RetriesAre(c, w);
  }

  lemma RetriesAre(c: Conf, w: World)
    requires Transfer.Inv(c, w) && !w.r.place.Broke?
    ensures w.r.retries <= 20
  {
    hide SenderSafety.Inv;
    hide FramesOf;
  }

  lemma RubbleMore(ts: seq<Token>, more: seq<Token>, k: nat, rx: nat)
    requires k <= |ts| && Rubble(ts[k..], rx) && Rubble(more, rx)
    ensures Rubble((ts + more)[k..], rx)
  {
    assert (ts + more)[k..] == ts[k..] + more;
    forall i | 0 <= i < |ts[k..] + more|
      ensures var t := (ts[k..] + more)[i]; t.TSub? || (t.TData? && t.pos != rx) || (t.TEof? && t.pos != rx)
    {
      assert (ts[k..] + more)[i] == if i < |ts[k..]| then ts[k..][i] else more[i - |ts[k..]|];
    }
  }

  lemma BlockIsRubble(c: Conf, s: Core, k: nat, end: End, rx: nat)
    requires c.Valid() && s.pos + k <= |c.src| && (s.newFrame ==> rx < s.pos)
    ensures Rubble(BlockTokens(c, s, k, end), rx)
    ensures |BlockTokens(c, s, k, end)| <= 2
  {
    R.SmallMod(s.pos);
  }

  /** The sender goes on, in vain. */
  lemma LostBlock(c: Conf, w: World, n: nat)
    requires c.Valid() && Lost(c, w) && w.s.mode.Poll? && w.s.core.pos < |c.src| && !Blocked(c, w.s.core)
    ensures LostNearer(c, w, Transfer.Step(c, w, SenderDoes(Quiet(n, true))))
  {
    hide FramesOf;
    hide Transfer.Inv;
    hide CoreOk;
    hide ModeOk;
    hide Blocked;
    hide Act;
    hide Transfer.Step;
    hide BlockTokens;
    hide Rubble;
    hide Pending;
    var s := w.s.core;
    LostIs(c, w);
    var k, end := SendsBlock(c, s, n);
    TransferLive.Says(c, w, n);
    Keeps(c, w, SenderDoes(Quiet(n, true)));
    BlockIsRubble(c, s, k, end, w.r.rx);
    RubbleMore(s.sent, BlockTokens(c, s, k, end), w.k, w.r.rx);
  }

  lemma LostFull(c: Conf, w: World, n: nat)
    requires c.Valid() && Lost(c, w) && w.s.mode.Poll? && w.s.core.pos < |c.src| && Blocked(c, w.s.core)
    ensures LostNearer(c, w, Transfer.Step(c, w, SenderDoes(Quiet(n, true))))
  {
    hide FramesOf;
    hide Transfer.Inv;
    hide CoreOk;
    hide ModeOk;
    hide Transfer.Step;
    hide Rubble;
    hide Pending;
    LostIs(c, w);
    TransferLive.Says(c, w, n);
    Keeps(c, w, SenderDoes(Quiet(n, true)));
    assert Act(c, w.s.core, n, true) == State(w.s.core, AckWait(0, w.s.core.acked, w.s.core.pos));
  }

  lemma LostEof(c: Conf, w: World, n: nat)
    requires c.Valid() && Lost(c, w) && w.s.mode.Poll? && w.s.core.pos == |c.src|
    ensures LostNearer(c, w, Transfer.Step(c, w, SenderDoes(Quiet(n, true))))
  {
    hide FramesOf;
    hide Transfer.Inv;
    hide CoreOk;
    hide ModeOk;
    hide Act;
    hide Transfer.Step;
    hide Pending;
    LostIs(c, w);
    AtEof(c, w.s.core, n);
    TransferLive.Says(c, w, n);
    Keeps(c, w, SenderDoes(Quiet(n, true)));
    assert Rubble([TEof(|c.src|)], w.r.rx);
    hide Rubble;
    RubbleMore(w.s.core.sent, [TEof(|c.src|)], w.k, w.r.rx);
  }

  lemma LostArrives(c: Conf, w: World)
    requires c.Valid() && Lost(c, w) && w.k < |w.s.core.sent|
    ensures LostNearer(c, w, Transfer.Step(c, w, Arrives(true)))
  {
    hide FramesOf;
    hide Transfer.Inv;
    hide Transfer.Step;
    hide Pending;
    LostIs(c, w);
    assert w.s.core.sent[w.k..][0] == w.s.core.sent[w.k];
    StaleArrives(c, w);
    Keeps(c, w, Arrives(true));
    assert w.s.core.sent[w.k + 1..] == w.s.core.sent[w.k..][1..];
  }

  lemma LostAck(c: Conf, w: World, early: bool)
    requires c.Valid() && Lost(c, w) && w.back != [] && w.back[0].Ack?
    ensures LostNearer(c, w, Transfer.Step(c, w, SenderReads(early)))
  {
    hide FramesOf;
    hide Transfer.Inv;
    hide CoreOk;
    hide Next;
    hide Transfer.Step;
    hide Rubble;
    LostIs(c, w);
    AckTakes(c, w.s, w.back[0].p, early);
    Reads(c, w, early);
    Keeps(c, w, SenderReads(early));
  }

  // ---- the restart ----

  /** The sender reads the ZRPOS and goes back. */
  lemma RposTakes(c: Conf, m: State, rx: nat)
    requires var s := m.core;
             && !s.done && rx <= s.pos && s.newFrame == !s.frameOpen && (s.frameOpen ==> s.dataOut)
             && (s.newFrame ==> rx < s.pos) && s.acked <= rx
             && (s.lastRpos == rx ==> s.sameRpos < 20)
    requires m.mode.Poll? || (m.mode.AckWait? && m.mode.acked0 == m.core.acked < m.core.pos == m.mode.pos0)
             || (m.mode.EofWait? && !m.mode.cut && rx <= m.mode.limit)
    requires rx <= |c.src|
    ensures var m2, s := Next(c, m, Hdr(Rpos(rx), false)), m.core;
            var s2 := m2.core;
            && m2.mode.Poll? && s2.pos == rx == s2.acked && s2.newFrame && !s2.frameOpen
            && s2.sent == s.sent + (if s.frameOpen then [TSub([], E)] else [])
            && s2.done == s.done && s2.skipped == s.skipped && s2.xoff == s.xoff
            && s2.lastRpos == rx && s2.sameRpos == if s.lastRpos == rx then s.sameRpos + 1 else 0
  {
    hide Restart;
    RestartIs(Counted(m.core, rx), rx);
    CountedIs(m.core, rx);
    hide Counted;
  }

  lemma CountedIs(s: Core, rx: nat)
    requires (s.frameOpen ==> s.dataOut) && (s.lastRpos == rx ==> s.sameRpos < 20)
    ensures HandleRpos(s, rx, false) == State(Restart(Counted(s, rx), rx), Poll)
    ensures Counted(s, rx) == s.(lastRpos := rx, sameRpos := if s.lastRpos == rx then s.sameRpos + 1 else 0)
  {
    hide Restart;
  }

  lemma RestartIs(s: Core, p: nat)
    requires p <= s.pos && (s.newFrame ==> p < s.pos) && s.newFrame == !s.frameOpen && s.acked <= p
    ensures var r := Restart(s, p);
            && r.pos == p == r.acked && r.newFrame && !r.frameOpen && !r.eofSent
            && r.sent == s.sent + (if s.frameOpen then [TSub([], E)] else [])
            && r.done == s.done && r.skipped == s.skipped && r.xoff == s.xoff
            && r.lastRpos == s.lastRpos && r.sameRpos == s.sameRpos
  {
    assert s.sent + [] == s.sent;
  }

  lemma LostAsk(c: Conf, w: World)
    requires c.Valid() && Lost(c, w) && w.back != [] && !w.back[0].Ack?
    ensures var w2 := Transfer.Step(c, w, SenderReads(false));
            var b := Base(|w2.s.core.sent|, w.r.rx);
            Going(c, w2, b) && Left(c, w2, b) < LostLeft(c, w)
  {
    hide FramesOf;
    hide Transfer.Inv;
    hide CoreOk;
    hide Next;
    hide Transfer.Step;
    LostIs(c, w);
    RposTakes(c, w.s, w.r.rx);
    Reads(c, w, false);
    Keeps(c, w, SenderReads(false));
    var w2 := Transfer.Step(c, w, SenderReads(false));
    var b := Base(|w2.s.core.sent|, w.r.rx);
    assert w.back == [Rpos(w.r.rx)] && w2.back == [];
    assert Ahead(w2, b) == [] && Seen(w2, b) == 0 && Ahead(w2, b)[..0] == [];
    assert Stale(w2, b) == w2.s.core.sent[w.k..];
    var more := if w.s.core.frameOpen then [TSub([], E)] else [];
    assert Rubble(more, w.r.rx);
    hide Rubble;
    RubbleMore(w.s.core.sent, more, w.k, w.r.rx);
  }

  // ---- the damage ----

  lemma HarmIs(c: Conf, w: World, n: nat, heard: bool)
    requires w.r.place.InFrame? && w.r.retries < 20 && w.k <= |w.s.core.sent| && w.r.rx < U32
    ensures var w2 := Transfer.Step(c, w, Damage(n, heard));
            && w2.s == w.s && w.k <= w2.k <= |w.s.core.sent|
            && w2.r.place.Hunt? && w2.r.asked && w2.r.rx == w.r.rx && w2.r.retries == w.r.retries + 1
            && w2.back == w.back + [Rpos(w.r.rx)]
  {
    R.SmallMod(w.r.rx);
  }

  lemma {:induction false} PendingFrom(back: seq<Reverse>, acked: nat, chk: nat, rx: nat)
    requires Answers(back, acked, chk, false) && chk <= rx
    ensures Pending(back + [Rpos(rx)], acked, rx)
    decreases |back|
  {
    if back == [] {
      assert back + [Rpos(rx)] == [Rpos(rx)];
    } else {
      AnswersBound(back[1..], back[0].p, chk, false);
      PendingFrom(back[1..], back[0].p, chk, rx);
      assert (back + [Rpos(rx)])[1..] == back[1..] + [Rpos(rx)];
    }
  }

  /** From inside a frame all that follows lies beyond, whatever is lost of it. */
  lemma {:induction false} Beyond(c: Conf, from: nat, ts: seq<Token>, n: nat, i: nat)
    requires from <= |c.src| && n <= i < |ts| && Trace(c, from, ts).Spot?
    requires Trace(c, from, ts[..n]).Spot? && Trace(c, from, ts[..n]).open
    ensures var rx := Trace(c, from, ts[..n]).at;
            ts[i].TSub? || (ts[i].TData? && ts[i].pos != rx) || (ts[i].TEof? && ts[i].pos != rx)
  {
    hide Trace;
    TraceStep(c, from, ts, n);
    TraceStep(c, from, ts, i);
    if i > n {
      assert ts[..i][..n + 1] == ts[..n + 1];
      TraceGrows(c, from, ts[..i], n + 1);
    }
  }

  lemma {:induction false} TokensCost(c: Conf, from: nat, ts: seq<Token>, n: nat)
    requires from <= |c.src| && n <= |ts| && Trace(c, from, ts).Spot?
    ensures |ts| - n <= Cost(ts[n..]) + if Trace(c, from, ts).over then 1 else 0
    decreases |ts|
  {
    if n < |ts| {
      var m := |ts| - 1;
      TraceStep(c, from, ts, m);
      assert ts[..m + 1] == ts;
      TokensCost(c, from, ts[..m], n);
      assert ts[n..] == ts[..m][n..] + [ts[m]];
      CostConcat(ts[..m][n..], [ts[m]]);
      assert [ts[m]][1..] == [];
      hide Trace;
      assert Cost([ts[m]]) == if ts[m].TSub? then 3 else if ts[m].TData? then 1 else 0;
    }
  }

  lemma NothingSeen(c: Conf, w: World, b: Base)
    ensures w.k <= b.j <= |w.s.core.sent| ==> Arrived(c, w, b) == Spot(b.at, false, false, b.at)
  {
    assert Ahead(w, b)[..0] == [];
  }

  lemma HarmRubble(c: Conf, w: World, b: Base, k: nat)
    requires c.Valid() && Going(c, w, b) && w.r.place.InFrame? && w.k <= k <= |w.s.core.sent|
    ensures b.j <= w.k && Rubble(w.s.core.sent[k..], w.r.rx)
  {
    hide Transfer.Inv;
    hide Answers;
    var ts, n, rest := Ahead(w, b), Seen(w, b), w.s.core.sent[k..];
    NothingSeen(c, w, b);
    hide Trace;
    forall i | 0 <= i < |rest|
      ensures rest[i].TSub? || (rest[i].TData? && rest[i].pos != w.r.rx) || (rest[i].TEof? && rest[i].pos != w.r.rx)
    {
      assert rest[i] == ts[k - b.j + i];
      Beyond(c, b.at, ts, n, k - b.j + i);
    }
  }

  /** The sender is beyond the receiver, or still in the frame. */
  lemma HarmBehind(c: Conf, w: World, b: Base)
    requires c.Valid() && Going(c, w, b) && w.r.place.InFrame? && b.j <= w.k
    ensures w.r.rx < |c.src| && w.r.rx <= w.s.core.pos && (w.s.core.newFrame ==> w.r.rx < w.s.core.pos)
  {
    hide Transfer.Inv;
    hide Answers;
    hide Trace;
    var ts, n := Ahead(w, b), Seen(w, b);
    SenderIs(c, w, b);
    TraceGrows(c, b.at, ts, n);
    if n < |ts| {
      TraceStep(c, b.at, ts, n);
      TraceGrows(c, b.at, ts, n + 1);
    } else {
      assert ts[..n] == ts;
    }
  }

  lemma StartIs(c: Conf, w: World)
    requires c.Valid() && Transfer.Inv(c, w)
    ensures c.start <= w.r.rx
  {
    hide SenderSafety.Inv;
    hide FramesOf;
  }

  lemma {:induction false} HarmHurts(c: Conf, w: World, b: Base, n: nat, heard: bool)
    requires c.Valid() && Going(c, w, b) && w.r.place.InFrame? && w.r.retries < 20
    ensures var w2 := Transfer.Step(c, w, Damage(n, heard));
            Lost(c, w2) && LostLeft(c, w2) <= Left(c, w, b) + 5 * (|c.src| - c.start) + 5
  {
    hide FramesOf;
    hide CoreOk;
    hide Transfer.Step;
    hide Trace;
    hide Answers;
    var w2 := Transfer.Step(c, w, Damage(n, heard));
    SenderIs(c, w, b);
    StartIs(c, w);
    Keeps(c, w, Damage(n, heard));
    hide Transfer.Inv;
    HarmRubble(c, w, b, w.k);
    HarmBehind(c, w, b);
    HarmIs(c, w, n, heard);
    HarmRubble(c, w, b, w2.k);
    var p := Arrived(c, w, b);
    TraceGrows(c, b.at, Ahead(w, b), Seen(w, b));
    PendingFrom(w.back, w.s.core.acked, p.chk, w.r.rx);
    DueMore(w.back, Rpos(w.r.rx));
    TokensCost(c, b.at, Ahead(w, b), Seen(w, b));
  }

  // ---- whole runs ----

  /** At most `n` fair steps from here to the end, if nothing more is damaged. */
  ghost predicate Within(c: Conf, w: World, n: nat)
    requires c.Valid()
  {
    Won(c, w) || (Lost(c, w) && LostLeft(c, w) <= n) || exists b :: Going(c, w, b) && Left(c, w, b) <= n
  }

  lemma LostStep(c: Conf, w: World, ch: Choice, n: nat)
    requires c.Valid() && Lost(c, w) && LostLeft(c, w) <= n && Fair(w, ch)
    ensures n > 0 && Within(c, Transfer.Step(c, w, ch), n - 1)
  {
    var w2 := Transfer.Step(c, w, ch);
    LostIs(c, w);
    hide Transfer.Step;
    hide Won;
    hide LostLeft;
    hide Left;
    hide Transfer.Inv;
    match ch
    case SenderDoes(e) =>
      if w.s.core.pos == |c.src| {
        LostEof(c, w, e.n);
      } else if Blocked(c, w.s.core) {
        LostFull(c, w, e.n);
      } else {
        LostBlock(c, w, e.n);
      }
    case Arrives(_) => LostArrives(c, w);
    case SenderReads(early) =>
      if w.back[0].Ack? {
        LostAck(c, w, early);
      } else {
        LostAsk(c, w);
        assert Going(c, w2, Base(|w2.s.core.sent|, w.r.rx));
      }
    case _ =>
  }

  lemma FairWithin(c: Conf, w: World, ch: Choice, n: nat)
    requires c.Valid() && Within(c, w, n) && Fair(w, ch)
    ensures n > 0 && Within(c, Transfer.Step(c, w, ch), n - 1)
  {
    hide Transfer.Step;
    hide Lost;
    hide Going;
    hide Won;
    hide Left;
    hide LostLeft;
    hide Fair;
    if Won(c, w) {
      WonIsOver(c, w, ch);
    } else if Lost(c, w) && LostLeft(c, w) <= n {
      LostStep(c, w, ch, n);
    } else {
      var b :| Going(c, w, b) && Left(c, w, b) <= n;
      FairStep(c, w, b, ch);
    }
  }

  lemma HarmWithin(c: Conf, w: World, ch: Choice, n: nat)
    requires c.Valid() && Within(c, w, n) && Harm(w, ch)
    ensures Within(c, Transfer.Step(c, w, ch), n + 5 * (|c.src| - c.start) + 5)
  {
    hide Transfer.Step;
    hide Going;
    hide Left;
    hide LostLeft;
    hide Transfer.Inv;
    var b :| Going(c, w, b) && Left(c, w, b) <= n;
    HarmHurts(c, w, b, ch.n, ch.heard);
  }

  lemma OneMore(d: nat, k: nat)
    ensures (d + 1) * k == d * k + k
  {}

  lemma {:induction false} BumpyRunGoes(c: Conf, cs: seq<Choice>) returns (n: nat)
    requires c.Valid() && BumpyRun(c, Begin(c, 0), cs)
    ensures Within(c, Transfer.Run(c, Begin(c, 0), cs), n)
    ensures n + |cs| <= 5 * (|c.src| - c.start) + 4 + Harms(cs) * (5 * (|c.src| - c.start) + 6)
    decreases |cs|
  {
    hide Transfer.Step;
    hide Fair;
    hide Harm;
    hide Left;
    hide Going;
    hide Won;
    hide Within;
    if cs == [] {
      n := 5 * (|c.src| - c.start) + 4;
      StartWithin(c);
    } else {
      var m := |cs| - 1;
      var w := Transfer.Run(c, Begin(c, 0), cs[..m]);
      n := BumpyRunGoes(c, cs[..m]);
      if Fair(w, cs[m]) {
        FairWithin(c, w, cs[m], n);
        FairIsNoHarm(w, cs[m]);
        n := n - 1;
      } else {
        HarmWithin(c, w, cs[m], n);
        HarmIsDamage(w, cs[m]);
        OneMore(Harms(cs[..m]), 5 * (|c.src| - c.start) + 6);
        n := n + 5 * (|c.src| - c.start) + 5;
      }
    }
  }

  lemma StartWithin(c: Conf)
    requires c.Valid()
    ensures Within(c, Begin(c, 0), 5 * (|c.src| - c.start) + 4)
  {
    hide Going;
    hide Left;
    StartGoes(c);
  }

  lemma FairIsNoHarm(w: World, ch: Choice)
    requires Fair(w, ch)
    ensures !ch.Damage?
  {}

  lemma HarmIsDamage(w: World, ch: Choice)
    requires Harm(w, ch)
    ensures ch.Damage?
  {}

  /** However often subpackets are damaged, with whatever follows them on the line, and
      wherever that leaves the two: as long as the receiver has an error left to count each
      time, a run is over after five steps for each byte and four more, and as many and two
      again for each damage; and it can only stop where the sender has ended well and the
      receiver has the whole file. */
  lemma {:induction false} DamagedLineCompletes(c: Conf, cs: seq<Choice>)
    requires c.Valid() && BumpyRun(c, Begin(c, 0), cs)
    ensures |cs| <= 5 * (|c.src| - c.start) + 4 + Harms(cs) * (5 * (|c.src| - c.start) + 6)
    ensures var w := Transfer.Run(c, Begin(c, 0), cs);
            Won(c, w) <==> forall ch :: !Fair(w, ch)
  {
    hide Transfer.Run;
    hide BumpyRun;
    hide Going;
    hide Lost;
    hide Won;
    hide Left;
    hide LostLeft;
    hide Fair;
    var w := Transfer.Run(c, Begin(c, 0), cs);
    var n := BumpyRunGoes(c, cs);
    if Won(c, w) {
      forall ch
        ensures !Fair(w, ch)
      {
        WonIsOver(c, w, ch);
      }
    } else if Lost(c, w) {
      LostGoesOn(c, w);
    } else {
      var b :| Going(c, w, b);
      FairStepExists(c, w, b);
    }
  }

  lemma LostGoesOn(c: Conf, w: World)
    requires Lost(c, w)
    ensures Fair(w, SenderReads(false))
  {}
}
