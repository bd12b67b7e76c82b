/** The sender ends: against any receiver that eventually falls silent, in a
    number of exchanges bounded by the file size and the number of things the
    receiver, the line and the clock did. */
module SenderEnds {
  import opened Sender
  import opened SenderSafety

  predicate Noisy(e: Event) {
    !e.Quiet?
  }

  /** How many events of a run are something the receiver, the line or the
      clock does, rather than silence. */
  function NoiseIn(es: seq<Event>): nat
    decreases |es|
  {
    if es == [] then 0 else NoiseIn(es[..|es| - 1]) + if Noisy(es[|es| - 1]) then 1 else 0
  }

  const PER_BYTE: nat := 64

  function EchoWeight(c: Conf): nat {
    PER_BYTE * (|c.src| + 1)
  }

  function Rank(c: Conf, s: Core, m: Mode): nat {
    match m
    case Poll => 30 + if s.xoff then 2 else 0
    case Xon => 31
    case AckWait(poke, _, _) => (if c.fullDuplex then 0 else 40) + 6 - Min(poke, 5)
    case EofWait(tries, _, _) => MAX_RETRIES + 1 - Min(tries, MAX_RETRIES)
    case _ => 0
  }

  /** What silence uses up: a pending echo, the bytes still to send, the place
      in the loop. */
  function Measure(c: Conf, m: State): nat {
    var s := m.core;
    if Ended(m.mode) then 0
    else
      (if s.frameOpen && s.echoed then EchoWeight(c) else 0)
      + PER_BYTE * (|c.src| - Min(s.pos, |c.src|)) + Rank(c, s, m.mode)
  }

  function Bound(c: Conf): nat {
    2 * PER_BYTE * (|c.src| + 1)
  }

  lemma MeasureBounds(c: Conf, m: State)
    requires c.Valid() && Inv(c, m)
    ensures Measure(c, m) <= Bound(c)
    ensures !Ended(m.mode) ==> Measure(c, m) > 0
  {
    hide Inv;
    hide Rank;
    hide Min;
    RankBounds(c, m.core, m.mode);
    MinIs(m.core.pos, |c.src|);
  }

  lemma RankBounds(c: Conf, s: Core, m: Mode)
    ensures Rank(c, s, m) < PER_BYTE
    ensures !Ended(m) ==> Rank(c, s, m) > 0
  {}

  /** A block sent, or the file cut short, uses up more than a wait can add. */
  lemma BlockSpends(c: Conf, s: Core, k: nat)
    requires c.Valid() && Streaming(c, s, true) && s.frameOpen && !s.xoff
    requires 0 < k && s.pos + k <= |c.src|
    ensures Measure(c, SendBlock(c, s, k)) < Measure(c, State(s, Poll))
  {
    hide FramesOf;
    hide PutBlock;
    hide EndFor;
    hide Min;
    PutShape(c, s, k, EndFor(c, s.pos + k, s.sinceChk + k));
    MinIs(s.pos, |c.src|);
    MinIs(s.pos + k, |c.src|);
    MinIs(0, 5);
  }

  lemma MinIs(a: nat, b: nat)
    ensures a <= b ==> Min(a, b) == a
    ensures Min(a, b) <= b
  {}

  lemma OpeningIsFree(c: Conf, s: Core)
    ensures Measure(c, State(OpenFrame(s), Poll)) <= Measure(c, State(s, Poll))
  {}

  lemma CutSpends(c: Conf, s: Core)
    requires c.Valid() && Streaming(c, s, true)
    ensures Measure(c, CutFile(s)) < Measure(c, State(s, Poll))
  {
    hide FramesOf;
  }

  lemma ActSpends(c: Conf, s: Core, n: nat, readable: bool)
    requires c.Valid() && CoreOk(c, s, true)
    ensures Measure(c, Act(c, s, n, readable)) < Measure(c, State(s, Poll))
  {
    hide FramesOf;
    hide Streaming;
    hide OpenFrame;
    hide SendBlock;
    hide CutFile;
    Ranges(c, s, true);
    if !s.done && !s.xoff && s.pos < |c.src| && !Blocked(c, s) {
      OpenKeeps(c, s);
      OpeningIsFree(c, s);
      var s1 := OpenFrame(s);
      if readable {
        var k := BlockSize(n, Min(s.block, |c.src| - s.pos));
        assert Min(s.block, |c.src| - s.pos) > 0;
        BlockSpends(c, s1, k);
      } else {
        CutSpends(c, s1);
      }
    }
  }

  lemma TimeoutSpends(c: Conf, s: Core, m: Mode)
    requires c.Valid() && m.AckWait? && Inv(c, State(s, m))
    ensures Measure(c, AckTimeout(s, m)) < Measure(c, State(s, m))
  {
    hide FramesOf;
    hide Streaming;
    hide Rewind;
    Ranges(c, s, true);
    if s.frameOpen && s.echoed {
      RewindSettles(c, s, s.frameAt, true);
    }
  }

  lemma EofSpends(c: Conf, s: Core, m: Mode)
    requires c.Valid() && m.EofWait? && Inv(c, State(s, m))
    ensures Measure(c, EofAgain(s, m)) < Measure(c, State(s, m))
  {
    hide FramesOf;
    hide Streaming;
  }

  /** Silence alone always uses something up. */
  lemma SilenceSpends(c: Conf, m: State, n: nat, readable: bool)
    requires c.Valid() && Inv(c, m) && !Ended(m.mode)
    ensures Measure(c, Next(c, m, Quiet(n, readable))) < Measure(c, m)
  {
    hide FramesOf;
    hide CoreOk;
    hide Act;
    hide AckTimeout;
    hide EofAgain;
    match m.mode
    case Poll => ActSpends(c, m.core, n, readable);
    case Xon =>
    case AckWait(_, _, _) => TimeoutSpends(c, m.core, m.mode);
    case EofWait(_, _, _) => EofSpends(c, m.core, m.mode);
  }

  function Times(n: nat, b: nat): nat {
    n * b
  }

  lemma {:induction false} Spent(c: Conf, es: seq<Event>)
    requires c.Valid() && !Ended(Run(c, Start(c), es).mode)
    ensures Measure(c, Run(c, Start(c), es)) + |es| <= Bound(c) + Times(NoiseIn(es), Bound(c) + 1)
    decreases |es|
  {
    hide Measure;
    hide Inv;
    hide Bound;
    hide Times;
    hide Next;
    RunKeeps(c, es);
    MeasureBounds(c, Run(c, Start(c), es));
    if es != [] {
      var n := |es| - 1;
      var m, e := Run(c, Start(c), es[..n]), es[n];
      RunKeeps(c, es[..n]);
      MeasureBounds(c, m);
      EndedStays(c, m, e);
      Spent(c, es[..n]);
      if Noisy(e) {
        OneMore(NoiseIn(es[..n]), Bound(c) + 1);
      } else {
        SilenceSpends(c, m, e.n, e.readable);
      }
    }
  }

  lemma EndedStays(c: Conf, m: State, e: Event)
    ensures Ended(m.mode) ==> Next(c, m, e) == m
  {}

  lemma OneMore(n: nat, b: nat)
    ensures Times(n + 1, b) == Times(n, b) + b
  {}

  /** Termination, with its bound. */
  lemma {:induction false} SenderAlwaysEnds(c: Conf, es: seq<Event>)
    requires c.Valid()
    requires |es| >= (NoiseIn(es) + 1) * (Bound(c) + 1)
    ensures Ended(Run(c, Start(c), es).mode)
  {
    hide Measure;
    hide Inv;
    hide Run;
    hide Bound;
    var m := Run(c, Start(c), es);
    if !Ended(m.mode) {
      Spent(c, es);
      RunKeeps(c, es);
      MeasureBounds(c, m);
      OneMore(NoiseIn(es), Bound(c) + 1);
    }
  }
}
