/** What a sender that ends well may believe about the receiver. */
module TransferTrust {
  import opened Sender
  import opened SenderSafety
  import opened Transfer
  import opened TransferRuns
  import TL = TransferLive
  import SR = SenderRuns
  import R = Receiver

  /** The receiver's file is over in a way its session answers with ZRINIT. */
  predicate Closing(p: R.Place) {
    p.Complete? || p == R.Broke(R.WriteError)
  }

  /** The sender has ended well, without being told to skip. */
  predicate Satisfied(w: World) {
    w.s.mode.Finished? && !w.s.core.skipped
  }

  /** It is wrong: the receiver neither has the rest of the file nor failed to write it. */
  predicate Fooled(c: Conf, w: World)
    requires c.Valid()
  {
    Satisfied(w) && w.r.place != R.Broke(R.WriteError) && !(w.r.place.Complete? && w.r.out == c.src[c.start..])
  }

  /** More than can be sent before the receiver answers. */
  predicate Beyond(c: Conf) {
    c.fullDuplex && |c.src| - c.start > c.window - 1 + c.maxBlock
  }

  // ---- old answers come first ----

  /** ZRINITs from before the file are ahead of every answer to it. */
  ghost predicate RinitsFirst(back: seq<Reverse>) {
    forall j, k :: 0 <= j < k < |back| && back[k] == Rinit ==> back[j] == Rinit
  }

  /** While the receiver is not done, a ZRINIT on the line is an old one, and then the
      sender has read nothing else. With `none` there was none. */
  ghost predicate Trust(c: Conf, none: bool, w: World) {
    && SR.FinishedIsDone(w.s) && SR.EofWaits(w.s)
    && (!Closing(w.r.place) ==>
          && RinitsFirst(w.back)
          && (Rinit in w.back ==> !none && w.s.core.acked == c.start)
          && (none || Beyond(c) ==> !Satisfied(w)))
  }

  lemma OverStays(r: R.Rcv, i: R.Input)
    requires R.Over(r.place)
    ensures R.Step(r, i) == r
  {}

  lemma MoreFirst(back: seq<Reverse>, h: Reverse)
    requires RinitsFirst(back) && h != Rinit
    ensures RinitsFirst(back + [h]) && (Rinit in back + [h] ==> Rinit in back)
  {}

  lemma TakesTrust(c: Conf, none: bool, w: World, i: R.Input)
    requires Trust(c, none, w)
    ensures Trust(c, none, Takes(w, i))
  {
    hide R.Step;
    hide RinitsFirst;
    assert w.back + [] == w.back;
    if Closing(w.r.place) {
      OverStays(w.r, i);
    } else {
      var r := R.Step(w.r, i);
      if |r.replies| > |w.r.replies| {
        MoreFirst(w.back, OnLine(r.replies[|r.replies| - 1]));
      }
    }
  }

  lemma FewerFirst(back: seq<Reverse>, i: nat)
    requires RinitsFirst(back) && i < |back|
    ensures RinitsFirst(back[..i] + back[i + 1..]) && (Rinit in back[..i] + back[i + 1..] ==> Rinit in back)
    ensures RinitsFirst(back[1..]) && (Rinit in back[1..] ==> Rinit in back && back[0] == Rinit)
  {}

  /** Nothing more than the window and a block can have been sent unanswered. */
  lemma SentUnanswered(c: Conf, m: State)
    requires c.Valid() && SenderSafety.Inv(c, m) && m.mode.EofWait? && !m.mode.cut && m.core.acked == c.start
    ensures !Beyond(c)
  {
    hide FramesOf;
  }

  lemma SenderTrust(c: Conf, none: bool, w: World, e: Event)
    requires c.Valid() && Transfer.Inv(c, w) && Trust(c, none, w)
    requires e.Hdr? && e.h == Rinit && !Closing(w.r.place) ==> !none && w.s.core.acked == c.start
    requires e.Hdr? && e.h != Rinit && !Closing(w.r.place) ==> Rinit !in w.back
    ensures Trust(c, none, w.(s := Next(c, w.s, e)))
  {
    hide Next;
    hide FramesOf;
    hide SenderSafety.Inv;
    hide Transfer.InStep;
    hide RinitsFirst;
    hide Beyond;
    SR.TakenFrom(c, w.s, e);
    SR.AckedFrom(c, w.s, e);
    var s2 := Next(c, w.s, e);
    if SR.Taken(w.s) {
      EndedStays(c, w.s, e);
    } else if !Closing(w.r.place) && s2.mode.Finished? && !s2.core.skipped {
      SentUnanswered(c, w.s);
    }
  }

  lemma EndedStays(c: Conf, m: State, e: Event)
    requires Ended(m.mode)
    ensures Next(c, m, e) == m
  {}

  lemma StepTrust(c: Conf, none: bool, w: World, ch: Choice)
    requires c.Valid() && Transfer.Inv(c, w) && Trust(c, none, w)
    ensures Trust(c, none, Transfer.Step(c, w, ch))
  {
    hide Takes;
    hide Next;
    hide Transfer.Inv;
    hide RinitsFirst;
    hide SR.EofWaits;
    match ch
    case SenderDoes(e) =>
      if !e.Hdr? {
        SenderTrust(c, none, w, e);
      }
    case SenderReads(early) =>
      if w.back != [] {
        ReadsTrust(c, none, w, early);
      }
    case AnswerLost(i) =>
      if i < |w.back| && !Closing(w.r.place) {
        FewerFirst(w.back, i);
      }
    case Arrives(written) =>
      if w.k < |w.s.core.sent| {
        TakesTrust(c, none, w.(k := w.k + 1), Hears(w.s.core.sent[w.k], w.r.place.InFrame?, written));
      }
    case Damage(n, heard) =>
      var w1 := w.(k := Max(w.k, Min(w.k + n, |w.s.core.sent|)));
      TakesTrust(c, none, w1, R.SubError);
      TakesTrust(c, none, w1, R.Damaged);
    case ReceiverWaits => TakesTrust(c, none, w, R.Silence);
    case StaleOffer(late) => TakesTrust(c, none, w, R.Got(R.Offer(late)));
    case LinkCut => TakesTrust(c, none, w, R.Gone);
    case Afterwards(h) =>
      if !Closing(w.r.place) && Says(w.r.place, h) {
        MoreFirst(w.back, h);
      }
  }

  lemma ReadsTrust(c: Conf, none: bool, w: World, early: bool)
    requires c.Valid() && Transfer.Inv(c, w) && Trust(c, none, w) && w.back != []
    ensures Trust(c, none, Transfer.Step(c, w, SenderReads(early)))
  {
    hide Next;
    hide FramesOf;
    hide SenderSafety.Inv;
    hide Transfer.InStep;
    hide RinitsFirst;
    var w1 := w.(back := w.back[1..]);
    if !Closing(w.r.place) {
      FewerFirst(w.back, 0);
      assert w.back[0] in w.back;
    }
    LineIsOk(c, w);
    OthersLine(w, 0);
    BackKeeps(c, w, w.back[1..]);
    SenderTrust(c, none, w1, Hdr(w.back[0], early));
  }

  lemma BeginTrust(c: Conf, stale: nat)
    ensures Trust(c, stale == 0, Begin(c, stale))
  {}

  lemma {:induction false} RunTrust(c: Conf, stale: nat, cs: seq<Choice>)
    requires c.Valid()
    ensures Trust(c, stale == 0, Transfer.Run(c, Begin(c, stale), cs))
    decreases |cs|
  {
    hide Transfer.Step;
    hide Transfer.Inv;
    hide Trust;
    if cs == [] {
      BeginTrust(c, stale);
    } else {
      var n := |cs| - 1;
      RunTrust(c, stale, cs[..n]);
      Transfer.RunKeeps(c, stale, cs[..n]);
      StepTrust(c, stale == 0, Transfer.Run(c, Begin(c, stale), cs[..n]), cs[n]);
    }
  }

  /** With no ZRINIT left over from before, or with more to send than the window and a
      block, a sender that ends well without being told to skip is right: the receiver has
      the whole file, or could not write it. */
  lemma {:induction false} FinishedIsReceived(c: Conf, stale: nat, cs: seq<Choice>)
    requires c.Valid() && (stale == 0 || Beyond(c))
    ensures !Fooled(c, Transfer.Run(c, Begin(c, stale), cs))
  {
    hide Transfer.Run;
    hide FramesOf;
    RunTrust(c, stale, cs);
    var w := Transfer.Run(c, Begin(c, stale), cs);
    if Satisfied(w) && w.r.place.Complete? {
      CompleteIsWhole(c, stale, cs);
    }
  }

  // ---- and otherwise it can be wrong ----

  /** The sender is under way, nothing has been answered, and what is left fits: the
      receiver has heard nothing at all. */
  ghost predicate Flowing(c: Conf, w: World) {
    var s := w.s.core;
    && Transfer.Inv(c, w) && w.s.mode.Poll? && w.r == R.Begin(c.start)
    && !s.done && !s.skipped && !s.xoff && s.acked == c.start && s.block == c.maxBlock
    && !Beyond(c)
    && (c.fullDuplex ==> s.pos == c.start || s.pos == |c.src| || s.pos + c.maxBlock <= |c.src|)
  }

  lemma GrowMax(c: Conf, s: Core)
    requires s.block == c.maxBlock
    ensures Grow(c, s).block == c.maxBlock
  {}

  lemma SendMax(c: Conf, s: Core, k: nat)
    requires s.pos + k <= |c.src| && s.block == c.maxBlock
    ensures SendBlock(c, s, k).core.block == c.maxBlock
  {
    hide EndFor;
    hide Grow;
    GrowMax(c, Put(c, s, k, EndFor(c, s.pos + k, s.sinceChk + k)));
  }

  lemma OpenMax(s: Core)
    ensures OpenFrame(s).block == s.block && OpenFrame(s).pos == s.pos
  {}

  /** The largest block stays the largest. */
  lemma StaysMax(c: Conf, s: Core, n: nat)
    requires s.pos < |c.src| && !s.done && !s.xoff && !Blocked(c, s) && s.block == c.maxBlock
    ensures Act(c, s, n, true).core.block == c.maxBlock
  {
    hide OpenFrame;
    hide SendBlock;
    OpenMax(s);
    SendMax(c, OpenFrame(s), BlockSize(n, Min(s.block, |c.src| - s.pos)));
  }

  /** In half duplex a block that is not answered is given up on, and the next is sent. */
  lemma GivesUpWaiting(m: State)
    requires m.mode.AckWait? && m.mode.poke == 0 && !m.core.frameOpen
    ensures AckTimeout(m.core, m.mode) == State(m.core.(newFrame := true), Poll)
  {}

  lemma Silent(c: Conf, w: World, n: nat)
    requires w.s.mode.Poll? || w.s.mode.AckWait?
    ensures Transfer.Step(c, w, SenderDoes(Quiet(n, true))) ==
            w.(s := if w.s.mode.Poll? then Act(c, w.s.core, n, true) else AckTimeout(w.s.core, w.s.mode))
  {
    hide Act;
    hide AckTimeout;
  }

  lemma FlowingCore(c: Conf, w: World)
    requires c.Valid() && Flowing(c, w)
    ensures CoreOk(c, w.s.core, true) && w.s.core.pos <= |c.src|
    ensures w.s.core.pos < |c.src| ==> !Blocked(c, w.s.core)
  {
    hide FramesOf;
  }

  /** One more block goes out unheard. */
  lemma Pushes(c: Conf, w: World) returns (cs: seq<Choice>)
    requires c.Valid() && Flowing(c, w) && w.s.core.pos < |c.src|
    ensures var w2 := Transfer.Run(c, w, cs);
            Flowing(c, w2) && w2.back == w.back && w2.s.core.pos > w.s.core.pos
  {
    hide FramesOf;
    hide Transfer.Inv;
    hide CoreOk;
    hide Act;
    hide AckTimeout;
    hide Transfer.Step;
    hide Transfer.Run;
    FlowingCore(c, w);
    var rest := |c.src| - w.s.core.pos;
    var n := if rest <= c.maxBlock then rest else 1;
    var quiet := SenderDoes(Quiet(n, true));
    var k, end := TL.SendsBlock(c, w.s.core, n);
    StaysMax(c, w.s.core, n);
    Silent(c, w, n);
    TL.Keeps(c, w, quiet);
    RunOne(c, w, [], quiet);
    RunNone(c, w);
    cs := [] + [quiet];
    if end == W {
      var w1 := Transfer.Step(c, w, quiet);
      GivesUpWaiting(w1.s);
      Silent(c, w1, n);
      TL.Keeps(c, w1, quiet);
      RunOne(c, w, cs, quiet);
      cs := cs + [quiet];
    }
  }

  lemma {:induction false} RunConcat(c: Conf, w: World, a: seq<Choice>, b: seq<Choice>)
    ensures Transfer.Run(c, Transfer.Run(c, w, a), b) == Transfer.Run(c, w, a + b)
    decreases |b|
  {
    hide Transfer.Step;
    if b == [] {
      assert a + b == a;
    } else {
      assert (a + b)[..|a + b| - 1] == a + b[..|b| - 1];
      RunConcat(c, w, a, b[..|b| - 1]);
    }
  }

  /** All of the file goes out unheard. */
  lemma {:induction false} PushesAll(c: Conf, w: World) returns (cs: seq<Choice>)
    requires c.Valid() && Flowing(c, w)
    ensures var w2 := Transfer.Run(c, w, cs);
            Flowing(c, w2) && w2.back == w.back && w2.s.core.pos == |c.src|
    decreases |c.src| - w.s.core.pos
  {
    hide Flowing;
    hide Transfer.Run;
    FlowingCore(c, w);
    RunNone(c, w);
    cs := [];
    if w.s.core.pos < |c.src| {
      var a := Pushes(c, w);
      FlowingCore(c, Transfer.Run(c, w, a));
      var b := PushesAll(c, Transfer.Run(c, w, a));
      RunConcat(c, w, a, b);
      cs := a + b;
    }
  }

  lemma BeginFlowing(c: Conf, stale: nat)
    requires c.Valid() && !Beyond(c)
    ensures Flowing(c, Begin(c, stale))
  {
    hide Transfer.Inv;
    Transfer.BeginHolds(c, stale);
  }

  lemma AtEnd(c: Conf, w: World)
    requires c.Valid() && Flowing(c, w) && w.s.core.pos == |c.src| && w.back != [] && w.back[0] == Rinit
    ensures var q, a := SenderDoes(Quiet(1, true)), SenderReads(false);
            Fooled(c, Transfer.Step(c, Transfer.Step(c, w, q), a))
  {
    hide Transfer.Inv;
    hide Act;
    hide Next;
    TL.AtEof(c, w.s.core, 1);
    TL.Says(c, w, 1);
    TL.RinitTakes(c, Act(c, w.s.core, 1, true), false);
  }

  /** A run in which one old ZRINIT, or the first of several, is taken for the answer to
      ZEOF, and nothing of the file has arrived. */
  lemma StaleRinitFoolsSender(c: Conf, stale: nat) returns (cs: seq<Choice>)
    requires c.Valid() && stale >= 1 && !Beyond(c)
    ensures Fooled(c, Transfer.Run(c, Begin(c, stale), cs))
  {
    hide Transfer.Run;
    hide Transfer.Step;
    hide Flowing;
    hide Fooled;
    var w := Begin(c, stale);
    BeginFlowing(c, stale);
    cs := PushesAll(c, w);
    assert w.back[0] == Rinit;
    AtEnd(c, Transfer.Run(c, w, cs));
    var q, a := SenderDoes(Quiet(1, true)), SenderReads(false);
    RunOne(c, w, cs, q);
    RunOne(c, w, cs + [q], a);
    cs := cs + [q] + [a];
  }

  /** Exactly when a sender can be wrong: when a ZRINIT is left over, and all it has to
      send fits into what may go out unanswered, as it always does in half duplex. */
  lemma {:induction false} FooledExactly(c: Conf, stale: nat)
    requires c.Valid()
    ensures (exists cs :: Fooled(c, Transfer.Run(c, Begin(c, stale), cs))) <==> stale >= 1 && !Beyond(c)
  {
    hide Transfer.Run;
    hide Fooled;
    hide Beyond;
    if stale >= 1 && !Beyond(c) {
      var cs := StaleRinitFoolsSender(c, stale);
    } else {
      forall cs
        ensures !Fooled(c, Transfer.Run(c, Begin(c, stale), cs))
      {
        FinishedIsReceived(c, stale, cs);
      }
    }
  }
}
