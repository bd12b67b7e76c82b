/** Theorems about whole transfers: every run of the two machines over the faulty
    line of Transfer.dfy. */
module TransferRuns {
  import opened Crc
  import opened Sender
  import opened SenderSafety
  import opened Transfer
  import SR = SenderRuns
  import R = Receiver

  /** Whatever is lost, damaged or repeated: what the receiver has written is the
      source from the start to where it stands, and what the sender counts as acknowledged
      the receiver has. */
  lemma {:induction false} EndToEnd(c: Conf, stale: nat, cs: seq<Choice>)
    requires c.Valid()
    ensures var w := Transfer.Run(c, Begin(c, stale), cs);
            && c.start <= w.s.core.acked <= w.r.rx <= |c.src|
            && w.r.out == c.src[c.start..w.r.rx]
  {
    hide Transfer.Run;
    hide FramesOf;
    hide SenderSafety.Inv;
    Transfer.RunKeeps(c, stale, cs);
    AckedFromStart(c, Transfer.Run(c, Begin(c, stale), cs).s);
  }

  lemma AckedFromStart(c: Conf, m: State)
    requires SenderSafety.Inv(c, m)
    ensures c.start <= m.core.acked
  {
    hide FramesOf;
  }

  lemma {:induction false} ShortIsNotWhole(src: seq<byte>, sent: seq<Token>)
    ensures FramesOf(src, sent).Short? ==> FramesOf(src, sent).size != |src|
    decreases |sent|
  {
    if sent != [] {
      ShortIsNotWhole(src, sent[..|sent| - 1]);
    }
  }

  /** A receiver that ends well has the whole file if and only if the sender's last
      ZEOF did not cut it short where the receiver stands; and a sender that cut it does not
      call it a success. */
  lemma {:induction false} CompleteIsWhole(c: Conf, stale: nat, cs: seq<Choice>)
    requires c.Valid() && Transfer.Run(c, Begin(c, stale), cs).r.place.Complete?
    ensures var w := Transfer.Run(c, Begin(c, stale), cs);
            var cut := FramesOf(c.src, w.s.core.sent) == Short(w.r.rx);
            && (w.r.out == c.src[c.start..] <==> !cut)
            && (c.src[..c.start] + w.r.out == c.src <==> !cut)
            && (cut ==> !Live(w.s.mode))
  {
    hide Transfer.Run;
    hide FramesOf;
    Transfer.RunKeeps(c, stale, cs);
    var w := Transfer.Run(c, Begin(c, stale), cs);
    ShortIsNotWhole(c.src, w.s.core.sent);
    assert c.src[..c.start] + c.src[c.start..] == c.src;
    if w.r.rx == |c.src| {
      assert c.src[c.start..|c.src|] == c.src[c.start..];
    } else {
      assert |w.r.out| == w.r.rx - c.start;
      assert |c.src[..c.start] + w.r.out| == w.r.rx;
    }
  }

  /** The sender can read its file whenever it tries to. */
  predicate AllReadable(cs: seq<Choice>) {
    forall i :: 0 <= i < |cs| && cs[i].SenderDoes? ==> SR.Readable(cs[i].e)
  }

  lemma StepWhole(c: Conf, w: World, ch: Choice)
    requires c.Valid() && Transfer.Inv(c, w) && SR.Whole(c, w.s)
    requires ch.SenderDoes? ==> SR.Readable(ch.e)
    ensures SR.Whole(c, Transfer.Step(c, w, ch).s)
  {
    hide Next;
    hide R.Step;
    hide SR.Whole;
    hide SenderSafety.Inv;
    hide Transfer.InStep;
    match ch
    case SenderDoes(e) => SR.StaysWhole(c, w.s, e);
    case SenderReads(early) =>
      if w.back != [] {
        SR.StaysWhole(c, w.s, Hdr(w.back[0], early));
      }
    case _ =>
  }

  lemma {:induction false} RunWhole(c: Conf, stale: nat, cs: seq<Choice>)
    requires c.Valid() && AllReadable(cs)
    ensures SR.Whole(c, Transfer.Run(c, Begin(c, stale), cs).s)
    decreases |cs|
  {
    hide Transfer.Step;
    hide Transfer.Inv;
    if cs != [] {
      var n := |cs| - 1;
      RunWhole(c, stale, cs[..n]);
      Transfer.RunKeeps(c, stale, cs[..n]);
      StepWhole(c, Transfer.Run(c, Begin(c, stale), cs[..n]), cs[n]);
    }
  }

  /** While the sender can read its file, a receiver that ends well has all of it,
      whatever becomes of the sender. */
  lemma {:induction false} ReadableIsWhole(c: Conf, stale: nat, cs: seq<Choice>)
    requires c.Valid() && AllReadable(cs) && Transfer.Run(c, Begin(c, stale), cs).r.place.Complete?
    ensures Transfer.Run(c, Begin(c, stale), cs).r.out == c.src[c.start..]
  {
    hide Transfer.Run;
    hide FramesOf;
    CompleteIsWhole(c, stale, cs);
    RunWhole(c, stale, cs);
  }

  /** When the very first read fails, the receiver takes the empty rest for the
      whole file: nothing in the protocol tells it otherwise. */
  lemma FailedReadLooksWhole(c: Conf, n: nat)
    requires c.Valid() && c.start < |c.src|
    ensures var a := Arrives(true);
            var w := Transfer.Run(c, Begin(c, 0), [SenderDoes(Quiet(n, false)), a, a, a]);
            w.r.place.Complete? && w.r.out == [] && c.src[c.start..] != []
  {
    hide Transfer.Step;
    hide Transfer.Run;
    var q, a := SenderDoes(Quiet(n, false)), Arrives(true);
    var w0 := Begin(c, 0);
    RunNone(c, w0);
    RunOne(c, w0, [], q);
    RunOne(c, w0, [q], a);
    RunOne(c, w0, [q, a], a);
    RunOne(c, w0, [q, a, a], a);
    assert [] + [q] == [q] && [q] + [a] == [q, a] && [q, a] + [a] == [q, a, a] && [q, a, a] + [a] == [q, a, a, a];
    CutAtOnce(c, n);
    var w1 := Transfer.Step(c, w0, q);
    assert w1 == w0.(s := Next(c, Start(c), Quiet(n, false))) by {
      DoesOne(c, w0, Quiet(n, false));
    }
    FrameOpens(c, w1);
    var w2 := Transfer.Step(c, w1, a);
    FrameCloses(c, w2);
    FileEnds(c, Transfer.Step(c, w2, a));
  }

  lemma RunNone(c: Conf, w: World)
    ensures Transfer.Run(c, w, []) == w
  {}

  lemma DoesOne(c: Conf, w: World, e: Event)
    requires !e.Hdr?
    ensures Transfer.Step(c, w, SenderDoes(e)) == w.(s := Next(c, w.s, e))
  {
    hide Next;
  }

  lemma CutAtOnce(c: Conf, n: nat)
    requires c.Valid() && c.start < |c.src|
    ensures Next(c, Start(c), Quiet(n, false)).core.sent == [TData(c.start), TSub([], E), TEof(c.start)]
  {
    var s1 := OpenFrame(Init(c));
    assert s1.sent == [TData(c.start)];
    assert !Blocked(c, Init(c));
  }

  lemma FrameOpens(c: Conf, w: World)
    requires w.k < |w.s.core.sent| && w.s.core.sent[w.k] == TData(w.r.rx) && w.r.place.Hunt?
    ensures var w2 := Transfer.Step(c, w, Arrives(true));
            w2.s == w.s && w2.k == w.k + 1 && w2.r == w.r.(asked := false, gotData := true, place := R.InFrame)
  {}

  lemma FrameCloses(c: Conf, w: World)
    requires w.k < |w.s.core.sent| && w.s.core.sent[w.k] == TSub([], E) && w.r.place.InFrame?
    ensures var w2 := Transfer.Step(c, w, Arrives(true));
            w2.s == w.s && w2.k == w.k + 1 && w2.r == w.r.(place := R.Hunt)
  {}

  lemma FileEnds(c: Conf, w: World)
    requires w.k < |w.s.core.sent| && w.s.core.sent[w.k] == TEof(w.r.rx) && w.r.place.Hunt?
    ensures Transfer.Step(c, w, Arrives(true)).r == w.r.(place := R.Complete)
  {}

  lemma StepForward(c: Conf, w: World, ch: Choice)
    requires R.Inv(c.start, w.r)
    ensures R.Inv(c.start, Transfer.Step(c, w, ch).r)
    ensures w.r.rx <= Transfer.Step(c, w, ch).r.rx && w.r.out <= Transfer.Step(c, w, ch).r.out
  {
    hide R.Step;
    hide R.Inv;
    hide Next;
    match ch
    case Arrives(written) =>
      if w.k < |w.s.core.sent| {
        R.NextKeeps(c.start, w.r, Hears(w.s.core.sent[w.k], w.r.place.InFrame?, written));
      }
    case Damage(_, _) =>
      R.NextKeeps(c.start, w.r, R.SubError);
      R.NextKeeps(c.start, w.r, R.Damaged);
    case ReceiverWaits => R.NextKeeps(c.start, w.r, R.Silence);
    case StaleOffer(late) => R.NextKeeps(c.start, w.r, R.Got(R.Offer(late)));
    case LinkCut => R.NextKeeps(c.start, w.r, R.Gone);
    case _ =>
  }

  lemma RcvOk(c: Conf, w: World)
    requires Transfer.Inv(c, w)
    ensures R.Inv(c.start, w.r)
  {
    hide SenderSafety.Inv;
    hide FramesOf;
    hide R.Inv;
  }

  /** The receiver never goes back. */
  lemma {:induction false} NeverBack(c: Conf, stale: nat, cs: seq<Choice>, more: seq<Choice>)
    requires c.Valid()
    ensures var w, w2 := Transfer.Run(c, Begin(c, stale), cs), Transfer.Run(c, Begin(c, stale), cs + more);
            w.r.rx <= w2.r.rx && w.r.out <= w2.r.out
    decreases |more|
  {
    hide Transfer.Step;
    hide Transfer.Inv;
    if more == [] {
      assert cs + more == cs;
    } else {
      var n := |more| - 1;
      NeverBack(c, stale, cs, more[..n]);
      assert (cs + more)[..|cs + more| - 1] == cs + more[..n];
      Transfer.RunKeeps(c, stale, cs + more[..n]);
      var w := Transfer.Run(c, Begin(c, stale), cs + more[..n]);
      RcvOk(c, w);
      StepForward(c, w, more[n]);
    }
  }

  /** This receiver asks nothing that is answered inside a frame, so the sender's
      frames reach it unbroken in order: no header of another kind was ever sent in one. */
  lemma {:induction false} FramesUninterrupted(c: Conf, stale: nat, cs: seq<Choice>)
    requires c.Valid()
    ensures SR.Intrusions(c.src, Transfer.Run(c, Begin(c, stale), cs).s.core.sent) == 0
  {
    hide Transfer.Run;
    hide FramesOf;
    hide SenderSafety.Inv;
    hide Transfer.InStep;
    Transfer.RunKeeps(c, stale, cs);
    var sent := Transfer.Run(c, Begin(c, stale), cs).s.core.sent;
    var none: seq<Token> := [];
    assert sent[..|none|] == none;
    SR.PlainTailIntrudes(c.src, none, sent);
  }

  /** None of these faults is ruled out, whatever has happened: any run of tokens may be
      lost, at any time, with or without the receiver hearing of it outside a frame; any answer
      may be lost; a wait may run out, an old offer turn up, the link go. */
  lemma FaultsHappen(c: Conf, w: World, k: nat, i: nat, late: bool)
    requires w.k <= k <= |w.s.core.sent| && i < |w.back|
    ensures exists ch :: Step(c, w, ch) == w.(back := w.back[..i] + w.back[i + 1..])
    ensures exists ch :: Step(c, w, ch) == Takes(w, R.Silence)
    ensures exists ch :: Step(c, w, ch) == Takes(w, R.Got(R.Offer(late)))
    ensures exists ch :: Step(c, w, ch) == Takes(w, R.Gone)
    ensures exists ch :: Step(c, w, ch) == Takes(w.(k := k), if w.r.place.InFrame? then R.SubError else R.Damaged)
    ensures !w.r.place.InFrame? ==> exists ch :: Step(c, w, ch) == w.(k := k)
  {
    hide Takes;
    assert Step(c, w, AnswerLost(i)) == w.(back := w.back[..i] + w.back[i + 1..]);
    assert Step(c, w, ReceiverWaits) == Takes(w, R.Silence);
    assert Step(c, w, StaleOffer(late)) == Takes(w, R.Got(R.Offer(late)));
    assert Step(c, w, LinkCut) == Takes(w, R.Gone);
    assert Step(c, w, Damage(k - w.k, true)) == Takes(w.(k := k), if w.r.place.InFrame? then R.SubError else R.Damaged);
    assert !w.r.place.InFrame? ==> Step(c, w, Damage(k - w.k, false)) == w.(k := k);
  }
}
