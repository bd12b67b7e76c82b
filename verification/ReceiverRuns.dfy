/** What the receiver does with every input, told from the inputs so far: its counters
    and flags do not appear. */
module ReceiverRuns {
  import opened Crc
  import opened Sender
  import opened Receiver

  /** The receiver after the inputs `ins`. */
  function At(start: nat, ins: seq<Input>): Rcv {
    Steps(Begin(start), ins)
  }

  // ---- what the past amounts to ----

  /** The frame at the position reached is opened. */
  predicate Opens(r: Rcv, i: Input) {
    r.place.Hunt? && i == Got(Data(r.rx))
  }

  /** Some frame has been opened. */
  predicate Begun(start: nat, ins: seq<Input>)
    decreases |ins|
  {
    ins != [] && (Begun(start, ins[..|ins| - 1]) || Opens(At(start, ins[..|ins| - 1]), ins[|ins| - 1]))
  }

  /** An error that must be answered: in a frame a damaged subpacket or none in time; outside
      one no header in time, a damaged header or a frame from elsewhere unless a ZRPOS is
      out, a repeated offer unless a frame has been opened. */
  predicate Error(start: nat, ins: seq<Input>, i: Input)
    decreases |ins|, 1
  {
    var r := At(start, ins);
    if r.place.InFrame? then i.SubError? || i.Silence?
    else
      r.place.Hunt? &&
      (|| i.Silence?
       || ((i.Damaged? || (i.Got? && i.h.Data? && i.h.p != r.rx)) && !Pending(start, ins))
       || (i == Got(Offer(true)) && !Begun(start, ins)))
  }

  /** A ZRPOS is out: since the last error, or the beginning, no frame has been opened. */
  predicate Pending(start: nat, ins: seq<Input>)
    decreases |ins|, 0
  {
    ins == [] ||
    var before, i := ins[..|ins| - 1], ins[|ins| - 1];
    Error(start, before, i) || (Pending(start, before) && !Opens(At(start, before), i))
  }

  /** The errors since the last subpacket that brought data. */
  function Errors(start: nat, ins: seq<Input>): nat
    decreases |ins|
  {
    if ins == [] then 0
    else
      var before, i := ins[..|ins| - 1], ins[|ins| - 1];
      if Gain(At(start, before), i) then 0
      else Errors(start, before) + if Error(start, before, i) then 1 else 0
  }

  lemma StepPast(r: Rcv, i: Input, begun: bool, pending: bool, errors: nat)
    requires !Over(r.place) && !Over(Step(r, i).place)
    requires r.gotData == begun && r.asked == pending && r.retries == errors <= MAX_RETRIES
    ensures var r2 := Step(r, i);
            var error := if r.place.InFrame? then i.SubError? || i.Silence?
                         else i.Silence? || ((i.Damaged? || (i.Got? && i.h.Data? && i.h.p != r.rx)) && !pending)
                              || (i == Got(Offer(true)) && !begun);
            && r2.gotData == (begun || Opens(r, i))
            && (r.place.Hunt? || !pending ==> r2.asked == (error || (pending && !Opens(r, i))))
            && r2.retries == (if Gain(r, i) then 0 else errors + if error then 1 else 0) <= MAX_RETRIES
  {}

  /** Counters and flags say what the past amounts to. */
  lemma {:induction false} Past(start: nat, ins: seq<Input>)
    requires !Over(At(start, ins).place)
    ensures var r := At(start, ins);
            && r.gotData == Begun(start, ins) && r.asked == Pending(start, ins)
            && r.retries == Errors(start, ins) <= MAX_RETRIES
    decreases |ins|
  {
    hide Step;
    if ins != [] {
      var before, i := ins[..|ins| - 1], ins[|ins| - 1];
      var r := At(start, before);
      RunKeeps(start, before);
      if Over(r.place) {
        OverStays(r, i);
      }
      Past(start, before);
      StepPast(r, i, Begun(start, before), Pending(start, before), Errors(start, before));
    }
  }

  lemma OverStays(r: Rcv, i: Input)
    requires Over(r.place)
    ensures Step(r, i) == r
  {}

  /** Once it is over, nothing is written or said any more. */
  lemma {:induction false} OverForGood(start: nat, ins: seq<Input>, more: seq<Input>)
    requires Over(At(start, ins).place)
    ensures At(start, ins + more) == At(start, ins)
    decreases |more|
  {
    hide Step;
    if more == [] {
      assert ins + more == ins;
    } else {
      var n := |more| - 1;
      OverForGood(start, ins, more[..n]);
      assert (ins + more)[..|ins + more| - 1] == ins + more[..n];
      OverStays(At(start, ins), more[n]);
    }
  }

  // ---- what each input does ----

  /** What one more input makes it say. */
  function Said(start: nat, ins: seq<Input>, i: Input): seq<Reply> {
    var r, r2 := At(start, ins), At(start, ins + [i]);
    if |r2.replies| >= |r.replies| then r2.replies[|r.replies|..] else r2.replies
  }

  lemma OneMore(said: seq<Reply>, a: Reply)
    ensures (said + [a])[|said|..] == [a] && said[|said|..] == []
  {}

  predicate Wrong(r: Rcv, i: Input) {
    if r.place.InFrame? then i.SubError? || i.Silence?
    else || i.Silence? || (i == Got(Offer(true)) && !r.gotData)
         || ((i.Damaged? || (i.Got? && i.h.Data? && i.h.p != r.rx)) && !r.asked)
  }

  lemma WrongAsks(r: Rcv, i: Input)
    requires !Over(r.place)
    ensures Wrong(r, i) ==> Step(r, i) == Ask(r)
    ensures !Wrong(r, i) ==>
              var r2 := Step(r, i);
              && r2.place != Broke(TooManyErrors)
              && (r2.replies == r.replies
                  || exists a: Reply :: !a.AskAt? && r2.replies == r.replies + [a])
  {
    hide Ask;
    var r2 := Step(r, i);
    if i == Got(Sinit) && r.place.Hunt? {
      assert !Welcome.AskAt? && r2.replies == r.replies + [Welcome];
    } else if i.Sub? && r.place.InFrame? {
      assert !HaveTo(r2.rx % U32).AskAt?;
    }
  }

  lemma StepAsks(r: Rcv, i: Input)
    requires !Over(r.place) && r.retries <= 20
    ensures var r2, asks := Step(r, i), Wrong(r, i) && r.retries < 20;
            && r.replies <= r2.replies
            && (asks ==> r2.replies[|r.replies|..] == [AskAt(r.rx % U32)] && r2.place.Hunt?)
            && ((exists p :: AskAt(p) in r2.replies[|r.replies|..]) <==> asks)
            && (r2.place == Broke(TooManyErrors) <==> Wrong(r, i) && r.retries == 20)
  {
    WrongAsks(r, i);
    hide Step;
    var r2 := Step(r, i);
    if |r2.replies| > |r.replies| {
      OneMore(r.replies, r2.replies[|r.replies|]);
      assert r2.replies == r.replies + [r2.replies[|r.replies|]];
      assert r2.replies[|r.replies|] in r2.replies[|r.replies|..];
    } else {
      OneMore(r.replies, Welcome);
    }
  }

  /** Every error is answered by one ZRPOS for the position reached, and nothing else
      asks; the twenty-first since the last data ends it instead. */
  lemma {:induction false} ErrorsAnswered(start: nat, ins: seq<Input>, i: Input)
    requires !Over(At(start, ins).place)
    ensures var r, r2 := At(start, ins), At(start, ins + [i]);
            var error := Error(start, ins, i);
            && r.replies <= r2.replies
            && (error && Errors(start, ins) < 20 ==>
                  Said(start, ins, i) == [AskAt(r.rx % U32)] && r2.place.Hunt?)
            && ((exists p :: AskAt(p) in Said(start, ins, i)) <==> error && Errors(start, ins) < 20)
            && (r2.place == Broke(TooManyErrors) <==> error && Errors(start, ins) == 20)
  {
    hide Steps;
    Past(start, ins);
    RunOne(Begin(start), ins, i);
    RunKeeps(start, ins);
    StepAsks(At(start, ins), i);
    hide Step;
  }

  /** A subpacket whose data, if there is any, the disk takes. */
  predicate Kept(i: Input) {
    i.Sub? && (i.data == [] || i.written)
  }

  lemma StepAcknowledges(r: Rcv, i: Input, p: nat)
    requires !Over(r.place)
    ensures var r2 := Step(r, i);
            && |r.replies| <= |r2.replies|
            && (HaveTo(p) in r2.replies[|r.replies|..] <==>
                  r.place.InFrame? && Kept(i) && (i.end == Q || i.end == W) && p == r2.rx % U32)
  {
    var r2 := Step(r, i);
    if |r2.replies| > |r.replies| {
      OneMore(r.replies, r2.replies[|r.replies|]);
      assert r2.replies == r.replies + [r2.replies[|r.replies|]];
    } else {
      OneMore(r.replies, Welcome);
    }
  }

  /** Data is acknowledged where the subpacket asks for it, and nowhere else. */
  lemma {:induction false} AcknowledgedWhereAsked(start: nat, ins: seq<Input>, i: Input, p: nat)
    requires !Over(At(start, ins).place)
    ensures HaveTo(p) in Said(start, ins, i) <==>
            At(start, ins).place.InFrame? && Kept(i) && (i.end == Q || i.end == W) && p == At(start, ins + [i]).rx % U32
  {
    hide Steps;
    RunOne(Begin(start), ins, i);
    StepAcknowledges(At(start, ins), i, p);
    hide Step;
  }

  /** What is written is what the subpackets of frames bring, and nothing else. */
  lemma {:induction false} StoredWhatCame(start: nat, ins: seq<Input>, i: Input)
    ensures var r, r2 := At(start, ins), At(start, ins + [i]);
            r2.out == r.out + (if Gain(r, i) then i.data else []) && r2.rx == start + |r2.out|
  {
    hide Steps;
    RunOne(Begin(start), ins, i);
    RunKeeps(start, ins);
    assert At(start, ins).out + [] == At(start, ins).out;
  }

  /** Where it stands after one more input, whatever came before. */
  lemma {:induction false} PlaceExactly(start: nat, ins: seq<Input>, i: Input)
    requires !Over(At(start, ins).place)
    ensures var r, p := At(start, ins), At(start, ins + [i]).place;
            var error := Error(start, ins, i);
            && (p.Complete? <==> r.place.Hunt? && i == Got(Eof(r.rx)))
            && (p.SenderLeft? <==> r.place.Hunt? && i == Got(Fin))
            && (p == Broke(PeerGaveUp) <==> r.place.Hunt? && i == Got(Abort))
            && (p == Broke(LinkGone) <==> i.Gone?)
            && (p == Broke(WriteError) <==> r.place.InFrame? && i.Sub? && !Kept(i))
            && (p.InFrame? <==>
                  || Opens(r, i)
                  || (r.place.InFrame? && !i.Gone? && !error && (i.Sub? ==> Kept(i) && (i.end == Q || i.end == G))))
  {
    hide Steps;
    Past(start, ins);
    RunOne(Begin(start), ins, i);
    RunKeeps(start, ins);
  }
}
