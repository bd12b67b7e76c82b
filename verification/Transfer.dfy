/** The two machines with a line between them. Forward the line carries what the
    sender has sent, in order; back it carries what the receiver answers, in order.
    Headers may be lost or damaged either way. Damage inside a frame shows at the
    receiver as a subpacket error and may swallow any run of what follows; a whole
    subpacket never vanishes unnoticed inside a frame, and what passes its CRC is what
    was sent. Waits run out whenever they like. */
module Transfer {
  import opened Crc
  import opened Sender
  import opened SenderSafety
  import SR = SenderRuns
  import R = Receiver

  /** `k` tokens of what the sender sent have left the line; `back` is on its way. */
  datatype World = World(s: State, r: R.Rcv, k: nat, back: seq<Reverse>)

  datatype Choice =
    | SenderDoes(e: Event)          // anything but a header that arrives
    | SenderReads(early: bool)      // the oldest answer arrives
    | AnswerLost(i: nat)
    | Arrives(written: bool)        // the next token arrives whole; `written`: the disk takes the data
    | Damage(n: nat, heard: bool)   // n tokens are lost; `heard`: what is left of them looks like a header
    | ReceiverWaits
    | StaleOffer(late: bool)
    | LinkCut
    | Afterwards(h: Reverse)        // what the receiver's session says once the file is over

  function Hears(t: Token, inFrame: bool, written: bool): R.Input {
    match t
    case TSub(data, end) => R.Sub(data, end, written)
    case TData(p) => if inFrame then R.SubError else R.Got(R.Data(p))
    case TEof(p) => if inFrame then R.SubError else R.Got(R.Eof(p))
    case _ => if inFrame then R.SubError else R.Got(R.Stray)
  }

  function OnLine(a: R.Reply): Reverse {
    if a.AskAt? then Rpos(a.p) else Ack(R.Named(a))
  }

  /** The receiver takes one input; what it answers goes on the line. */
  function Takes(w: World, i: R.Input): World {
    var r := R.Step(w.r, i);
    var said := if |r.replies| > |w.r.replies| then [OnLine(r.replies[|r.replies| - 1])] else [];
    w.(r := r, back := w.back + said)
  }

  /** After the file the session answers ZRINIT; if a write failed, the last flush
      included, ZSKIP first, or ZFERR when the disk is full; and it gives up on an error. */
  predicate Says(p: R.Place, h: Reverse) {
    || ((p.Complete? || p == R.Broke(R.WriteError)) && (h.Rinit? || h.Skip? || h.GiveUp?))
    || (p.Broke? && h.GiveUp?)
  }

  function Step(c: Conf, w: World, ch: Choice): World {
    match ch
    case SenderDoes(e) => if e.Hdr? then w else w.(s := Next(c, w.s, e))
    case SenderReads(early) =>
      if w.back == [] then w
      else w.(s := Next(c, w.s, Hdr(w.back[0], early)), back := w.back[1..])
    case AnswerLost(i) => if i < |w.back| then w.(back := w.back[..i] + w.back[i + 1..]) else w
    case Arrives(written) =>
      if w.k < |w.s.core.sent|
      then Takes(w.(k := w.k + 1), Hears(w.s.core.sent[w.k], w.r.place.InFrame?, written))
      else w
    case Damage(n, heard) =>
      var w1 := w.(k := Max(w.k, Min(w.k + n, |w.s.core.sent|)));
      if w.r.place.InFrame? then Takes(w1, R.SubError)
      else if heard then Takes(w1, R.Damaged)
      else w1
    case ReceiverWaits => Takes(w, R.Silence)
    case StaleOffer(late) => Takes(w, R.Got(R.Offer(late)))
    case LinkCut => Takes(w, R.Gone)
    case Afterwards(h) => if Says(w.r.place, h) then w.(back := w.back + [h]) else w
  }

  function Run(c: Conf, w: World, cs: seq<Choice>): World
    decreases |cs|
  {
    if cs == [] then w else Step(c, Run(c, w, cs[..|cs| - 1]), cs[|cs| - 1])
  }

  lemma RunOne(c: Conf, w: World, cs: seq<Choice>, ch: Choice)
    ensures Run(c, w, cs + [ch]) == Step(c, Run(c, w, cs), ch)
  {
    assert (cs + [ch])[..|cs + [ch]| - 1] == cs;
  }

  /** The receiver has asked for the data from `start` and the sender begins; old
      ZRINITs may still be on their way. */
  function Begin(c: Conf, stale: nat): World {
    World(Start(c), R.Begin(c.start), 0, seq(stale, _ => Rinit))
  }

  // ---- what every step keeps ----

  predicate Plain(sent: seq<Token>) {
    forall i :: 0 <= i < |sent| ==> !SR.Foreign(sent[i])
  }

  /** What may be on its way back: nothing beyond what the receiver has. */
  predicate Owed(h: Reverse, rx: nat) {
    match h
    case Ack(p) => p <= rx
    case Rpos(p) => p <= rx
    case AskCrc(_) => false
    case Challenge(_) => false
    case _ => true
  }

  ghost predicate LineOk(w: World) {
    forall i :: 0 <= i < |w.back| ==> Owed(w.back[i], w.r.rx)
  }

  /** The receiver's data is the source's, it is inside a frame only where the
      sender's stream is, and it ends well only at the end of the file, or where the
      sender's reading of it failed. */
  ghost predicate InStep(c: Conf, w: World) {
    var r, sent := w.r, w.s.core.sent;
    && w.k <= |sent|
    && R.Inv(c.start, r)
    && r.rx <= |c.src| && r.out == c.src[c.start..r.rx]
    && (r.place.InFrame? ==>
          var f := FramesOf(c.src, sent[..w.k]); f.Open? && f.off == r.rx)
    && (r.place.Complete? ==> r.rx == |c.src| || FramesOf(c.src, sent) == Short(r.rx))
  }

  ghost predicate Inv(c: Conf, w: World) {
    && SenderSafety.Inv(c, w.s)
    && Plain(w.s.core.sent)
    && w.s.core.acked <= w.r.rx
    && LineOk(w)
    && InStep(c, w)
  }

  // ---- prefixes of the sender's stream ----

  lemma {:induction false} PrefixNotBroken(src: seq<byte>, sent: seq<Token>, k: nat)
    requires k <= |sent| && !FramesOf(src, sent).Broken?
    ensures !FramesOf(src, sent[..k]).Broken?
    ensures FramesOf(src, sent[..k]).Short? ==> FramesOf(src, sent) == FramesOf(src, sent[..k])
    decreases |sent|
  {
    if k == |sent| {
      assert sent[..k] == sent;
    } else {
      var n := |sent| - 1;
      assert sent[..n][..k] == sent[..k];
      PrefixNotBroken(src, sent[..n], k);
    }
  }

  lemma TokenStep(src: seq<byte>, sent: seq<Token>, k: nat)
    requires k < |sent| && !FramesOf(src, sent).Broken?
    ensures FramesOf(src, sent[..k + 1]) == FramesStep(src, FramesOf(src, sent[..k]), sent[k])
    ensures !FramesOf(src, sent[..k]).Broken? && !FramesOf(src, sent[..k + 1]).Broken?
  {
    hide FramesStep;
    assert sent[..k + 1][..k] == sent[..k];
    PrefixNotBroken(src, sent, k);
    PrefixNotBroken(src, sent, k + 1);
  }

  lemma NeverBroken(c: Conf, m: State)
    requires SenderSafety.Inv(c, m)
    ensures !FramesOf(c.src, m.core.sent).Broken?
  {
    hide FramesOf;
  }

  // ---- the receiver's side ----

  lemma StepSays(r: R.Rcv, i: R.Input)
    requires i != R.Got(R.Sinit)
    ensures var r2 := R.Step(r, i);
            r2.replies == r.replies
            || (|r2.replies| == |r.replies| + 1 && R.Named(r2.replies[|r.replies|]) == r2.rx % U32)
  {}

  lemma TakesLine(w: World, i: R.Input)
    requires i != R.Got(R.Sinit) && LineOk(w) && R.Step(w.r, i).rx < U32 && w.r.rx <= R.Step(w.r, i).rx
    ensures LineOk(Takes(w, i))
  {
    hide R.Step;
    StepSays(w.r, i);
    R.SmallMod(R.Step(w.r, i).rx);
    var w2 := Takes(w, i);
    forall j | 0 <= j < |w2.back|
      ensures Owed(w2.back[j], w2.r.rx)
    {
      if j < |w.back| {
        assert Owed(w.back[j], w.r.rx);
      }
    }
  }

  /** An input that brings no data. */
  lemma QuietInput(r: R.Rcv, i: R.Input)
    requires !i.Sub? && (i.Got? ==> !i.h.Data? && !i.h.Eof?)
    ensures var r2 := R.Step(r, i);
            && r2.rx == r.rx && r2.out == r.out
            && (r2.place.InFrame? ==> r.place.InFrame? && (i.Got? || i.Damaged?))
            && (r2.place.Complete? ==> r.place.Complete?)
  {}

  lemma OutsideFrame(r: R.Rcv, i: R.Input)
    requires !r.place.InFrame? && i.Sub?
    ensures R.Step(r, i) == r
  {}

  lemma TakesKeeps(c: Conf, w: World, k: nat, i: R.Input)
    requires c.Valid() && Inv(c, w) && w.k <= k <= |w.s.core.sent|
    requires !i.Sub? && (i.Got? ==> !i.h.Data? && !i.h.Eof?) && i != R.Got(R.Sinit)
    requires w.r.place.InFrame? && (i.Got? || i.Damaged?) ==> k == w.k
    ensures Inv(c, Takes(w.(k := k), i))
  {
    hide FramesOf;
    hide SenderSafety.Inv;
    hide Plain;
    hide R.Step;
    hide LineOk;
    QuietInput(w.r, i);
    R.NextKeeps(c.start, w.r, i);
    LineAt(w, k);
    TakesLine(w.(k := k), i);
  }

  lemma LineAt(w: World, k: nat)
    requires LineOk(w)
    ensures LineOk(w.(k := k))
  {}

  lemma StepSub(r: R.Rcv, data: seq<byte>, end: End, written: bool)
    requires r.place.InFrame?
    ensures var r2 := R.Step(r, R.Sub(data, end, written));
            && !r2.place.Complete?
            && ((r2.place.Broke? && r2.rx == r.rx && r2.out == r.out)
                || (r2.rx == r.rx + |data| && r2.out == r.out + data
                    && (r2.place.InFrame? ==> end == Q || end == G)))
  {}

  /** A subpacket of the frame the receiver is in. */
  lemma SubArrives(c: Conf, w: World, written: bool)
    requires c.Valid() && Inv(c, w) && w.k < |w.s.core.sent| && w.s.core.sent[w.k].TSub? && w.r.place.InFrame?
    ensures var t := w.s.core.sent[w.k];
            Inv(c, Takes(w.(k := w.k + 1), R.Sub(t.data, t.end, written)))
  {
    hide FramesOf;
    hide SenderSafety.Inv;
    hide Plain;
    hide R.Step;
    hide LineOk;
    hide R.Inv;
    var t := w.s.core.sent[w.k];
    var i := R.Sub(t.data, t.end, written);
    NeverBroken(c, w.s);
    TokenStep(c.src, w.s.core.sent, w.k);
    StepSub(w.r, t.data, t.end, written);
    R.NextKeeps(c.start, w.r, i);
    assert w.r.rx + |t.data| <= |c.src| && t.data == c.src[w.r.rx..w.r.rx + |t.data|];
    assert c.src[c.start..w.r.rx] + t.data == c.src[c.start..w.r.rx + |t.data|] by {
      assert c.start <= w.r.rx by {
        InvRx(c.start, w.r);
      }
    }
    LineAt(w, w.k + 1);
    TakesLine(w.(k := w.k + 1), i);
  }

  lemma InvRx(start: nat, r: R.Rcv)
    requires R.Inv(start, r)
    ensures start <= r.rx
  {}

  lemma StepData(r: R.Rcv, p: nat)
    requires !r.place.InFrame?
    ensures var r2 := R.Step(r, R.Got(R.Data(p)));
            r2.rx == r.rx && r2.out == r.out && (r2.place.InFrame? ==> p == r.rx) && (r2.place.Complete? ==> r.place.Complete?)
  {}

  lemma DataArrives(c: Conf, w: World)
    requires c.Valid() && Inv(c, w) && w.k < |w.s.core.sent| && w.s.core.sent[w.k].TData? && !w.r.place.InFrame?
    ensures Inv(c, Takes(w.(k := w.k + 1), R.Got(R.Data(w.s.core.sent[w.k].pos))))
  {
    hide FramesOf;
    hide SenderSafety.Inv;
    hide Plain;
    hide R.Step;
    hide LineOk;
    hide R.Inv;
    var i := R.Got(R.Data(w.s.core.sent[w.k].pos));
    NeverBroken(c, w.s);
    TokenStep(c.src, w.s.core.sent, w.k);
    StepData(w.r, w.s.core.sent[w.k].pos);
    R.NextKeeps(c.start, w.r, i);
    LineAt(w, w.k + 1);
    TakesLine(w.(k := w.k + 1), i);
  }

  lemma StepEof(r: R.Rcv, p: nat)
    requires !r.place.InFrame?
    ensures var r2 := R.Step(r, R.Got(R.Eof(p)));
            r2.rx == r.rx && r2.out == r.out && !r2.place.InFrame?
            && (r2.place.Complete? ==> r.place.Complete? || p == r.rx)
  {}

  lemma EofArrives(c: Conf, w: World)
    requires c.Valid() && Inv(c, w) && w.k < |w.s.core.sent| && w.s.core.sent[w.k].TEof? && !w.r.place.InFrame?
    ensures Inv(c, Takes(w.(k := w.k + 1), R.Got(R.Eof(w.s.core.sent[w.k].pos))))
  {
    hide FramesOf;
    hide SenderSafety.Inv;
    hide Plain;
    hide R.Step;
    hide LineOk;
    hide R.Inv;
    var p := w.s.core.sent[w.k].pos;
    var i := R.Got(R.Eof(p));
    NeverBroken(c, w.s);
    TokenStep(c.src, w.s.core.sent, w.k);
    PrefixNotBroken(c.src, w.s.core.sent, w.k + 1);
    StepEof(w.r, p);
    R.NextKeeps(c.start, w.r, i);
    LineAt(w, w.k + 1);
    TakesLine(w.(k := w.k + 1), i);
  }

  lemma ArrivesKeeps(c: Conf, w: World, written: bool)
    requires c.Valid() && Inv(c, w)
    ensures Inv(c, Step(c, w, Arrives(written)))
  {
    hide Inv;
    hide Takes;
    if Consumed(c, w) {
      var t := w.s.core.sent[w.k];
      if w.r.place.InFrame? {
        if t.TSub? {
          SubArrives(c, w, written);
        } else {
          TakesKeeps(c, w, w.k + 1, R.SubError);
        }
      } else {
        match t
        case TSub(data, end) => SkipSub(c, w, R.Sub(data, end, written));
        case TData(_) => DataArrives(c, w);
        case TEof(_) => EofArrives(c, w);
        case _ => TakesKeeps(c, w, w.k + 1, R.Got(R.Stray));
      }
    }
  }

  predicate Consumed(c: Conf, w: World) {
    w.k < |w.s.core.sent|
  }

  lemma SkipSub(c: Conf, w: World, i: R.Input)
    requires Inv(c, w) && Consumed(c, w) && i.Sub? && !w.r.place.InFrame?
    ensures Inv(c, Takes(w.(k := w.k + 1), i))
  {
    hide FramesOf;
    hide SenderSafety.Inv;
    hide R.Step;
    OutsideFrame(w.r, i);
    assert w.back + [] == w.back;
  }

  lemma KAt(c: Conf, w: World, k: nat)
    requires Inv(c, w) && w.k <= k <= |w.s.core.sent| && !w.r.place.InFrame?
    ensures Inv(c, w.(k := k))
  {
    hide FramesOf;
    hide SenderSafety.Inv;
  }

  lemma DamageKeeps(c: Conf, w: World, n: nat, heard: bool)
    requires c.Valid() && Inv(c, w)
    ensures Inv(c, Step(c, w, Damage(n, heard)))
  {
    hide Inv;
    hide Takes;
    var k := Max(w.k, Min(w.k + n, |w.s.core.sent|));
    assert w.k <= |w.s.core.sent| by {
      KRange(c, w);
    }
    if w.r.place.InFrame? {
      TakesKeeps(c, w, k, R.SubError);
    } else if heard {
      TakesKeeps(c, w, k, R.Damaged);
    } else {
      KAt(c, w, k);
    }
  }

  lemma KRange(c: Conf, w: World)
    requires Inv(c, w)
    ensures w.k <= |w.s.core.sent|
  {
    hide FramesOf;
  }

  // ---- the sender's side ----

  /** The sender moves; what it had sent stays sent. */
  lemma SenderKeeps(c: Conf, w: World, e: Event)
    requires c.Valid() && Inv(c, w)
    requires e.Hdr? ==> Owed(e.h, w.r.rx)
    ensures Inv(c, w.(s := Next(c, w.s, e)))
  {
    hide FramesOf;
    hide SenderSafety.Inv;
    hide Next;
    hide R.Inv;
    NextKeeps(c, w.s, e);
    SR.SentGrows(c, w.s, e);
    SR.AckedFrom(c, w.s, e);
    StaysPlain(c, w.s, e);
    var sent, sent2 := w.s.core.sent, Next(c, w.s, e).core.sent;
    assert sent2[..w.k] == sent[..w.k];
    NeverBroken(c, Next(c, w.s, e));
    assert sent2[..|sent|] == sent;
    PrefixNotBroken(c.src, sent2, |sent|);
  }

  lemma StaysPlain(c: Conf, m: State, e: Event)
    requires Plain(m.core.sent) && !SR.Asks(e)
    ensures Plain(Next(c, m, e).core.sent)
  {
    hide Next;
    SR.SentGrows(c, m, e);
    var a, b := m.core.sent, Next(c, m, e).core.sent;
    forall i | 0 <= i < |b|
      ensures !SR.Foreign(b[i])
    {
      if i < |a| {
        assert b[i] == b[..|a|][i] == a[i];
      }
    }
  }

  lemma OthersLine(w: World, i: nat)
    requires LineOk(w) && i < |w.back|
    ensures LineOk(w.(back := w.back[..i] + w.back[i + 1..]))
    ensures LineOk(w.(back := w.back[1..]))
  {}

  lemma BackKeeps(c: Conf, w: World, back: seq<Reverse>)
    requires Inv(c, w) && LineOk(w.(back := back))
    ensures Inv(c, w.(back := back))
  {
    hide FramesOf;
    hide SenderSafety.Inv;
    hide R.Inv;
    hide LineOk;
  }

  lemma LineIsOk(c: Conf, w: World)
    requires Inv(c, w)
    ensures LineOk(w)
  {
    hide SenderSafety.Inv;
    hide InStep;
  }

  lemma StepKeeps(c: Conf, w: World, ch: Choice)
    requires c.Valid() && Inv(c, w)
    ensures Inv(c, Step(c, w, ch))
  {
    hide Inv;
    hide Takes;
    hide Next;
    hide LineOk;
    LineIsOk(c, w);
    match ch
    case SenderDoes(e) =>
      if !e.Hdr? {
        SenderKeeps(c, w, e);
      }
    case SenderReads(early) =>
      if w.back != [] {
        OthersLine(w, 0);
        BackKeeps(c, w, w.back[1..]);
        FirstOwed(w);
        SenderKeeps(c, w.(back := w.back[1..]), Hdr(w.back[0], early));
      }
    case AnswerLost(i) =>
      if i < |w.back| {
        OthersLine(w, i);
        BackKeeps(c, w, w.back[..i] + w.back[i + 1..]);
      }
    case Arrives(written) => ArrivesKeeps(c, w, written);
    case Damage(n, heard) => DamageKeeps(c, w, n, heard);
    case ReceiverWaits => Plainly(c, w, R.Silence);
    case StaleOffer(late) => Plainly(c, w, R.Got(R.Offer(late)));
    case LinkCut => Plainly(c, w, R.Gone);
    case Afterwards(h) =>
      if Says(w.r.place, h) {
        MoreLine(w, h);
        BackKeeps(c, w, w.back + [h]);
      }
  }

  lemma FirstOwed(w: World)
    requires LineOk(w) && w.back != []
    ensures Owed(w.back[0], w.r.rx)
  {}

  lemma MoreLine(w: World, h: Reverse)
    requires LineOk(w) && Says(w.r.place, h)
    ensures LineOk(w.(back := w.back + [h]))
  {}

  lemma Plainly(c: Conf, w: World, i: R.Input)
    requires c.Valid() && Inv(c, w)
    requires i.Silence? || i.Gone? || (i.Got? && i.h.Offer?)
    ensures Inv(c, Takes(w, i))
  {
    hide Inv;
    hide Takes;
    KRange(c, w);
    TakesKeeps(c, w, w.k, i);
    assert w.(k := w.k) == w;
  }

  lemma BeginHolds(c: Conf, stale: nat)
    requires c.Valid()
    ensures Inv(c, Begin(c, stale))
  {
    hide SenderSafety.Inv;
    StartHolds(c);
    assert c.src[c.start..c.start] == [];
  }

  lemma {:induction false} RunKeeps(c: Conf, stale: nat, cs: seq<Choice>)
    requires c.Valid()
    ensures Inv(c, Run(c, Begin(c, stale), cs))
    decreases |cs|
  {
    hide Step;
    hide Inv;
    if cs == [] {
      BeginHolds(c, stale);
    } else {
      RunKeeps(c, stale, cs[..|cs| - 1]);
      StepKeeps(c, Run(c, Begin(c, stale), cs[..|cs| - 1]), cs[|cs| - 1]);
    }
  }
}
