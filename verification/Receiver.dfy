/** The receiving side of one file, as a machine: `Step` is one header or
    subpacket read, or a wait that ran out; `Steps` a whole run. The program that
    follows it is in ReceiverLoop.dfy. */
module Receiver {
  import opened Crc
  import opened Sender

  /** A header from the sender. `late`: a repeated offer that comes long after
      the last ZRPOS went out. */
  datatype Head =
    | Data(p: nat)
    | Eof(p: nat)
    | Offer(late: bool)
    | Abort
    | Fin
    | Sinit
    | Stray

  /** What the outside does where the receiver looks at it. */
  datatype Input =
    | Got(h: Head)
    | Damaged                                    // a header that fails its check
    | Sub(data: seq<byte>, end: End, written: bool)
    | SubError                                   // a subpacket damaged or out of time
    | Silence
    | Gone                                       // cancelled, or the link closed

  datatype Reply =
    | AskAt(p: nat)                              // ZRPOS
    | HaveTo(p: nat)                             // ZACK
    | Welcome                                    // the ZACK that answers a ZSINIT

  datatype Cause = TooManyErrors | WriteError | PeerGaveUp | LinkGone

  datatype Place = Hunt | InFrame | Complete | SenderLeft | Broke(cause: Cause)

  /** `out` is what was written, `replies` everything sent back. `asked` says
      that a ZRPOS is out and no ZDATA at `rx` has answered it yet. */
  datatype Rcv = Rcv(rx: nat, retries: nat, asked: bool, gotData: bool, out: seq<byte>, replies: seq<Reply>,
                     place: Place)

  predicate Over(p: Place) {
    p.Complete? || p.SenderLeft? || p.Broke?
  }

  function Begin(start: nat): Rcv {
    Rcv(start, 0, true, false, [], [AskAt(start % U32)], Hunt)
  }

  function Say(r: Rcv, a: Reply): Rcv {
    r.(replies := r.replies + [a])
  }

  /** An error: ask for the data from the last good offset, but not forever. */
  function Ask(r: Rcv): Rcv {
    if r.retries + 1 > MAX_RETRIES then r.(retries := r.retries + 1, place := Broke(TooManyErrors))
    else Say(r, AskAt(r.rx % U32)).(retries := r.retries + 1, asked := true, place := Hunt)
  }

  function OnHead(r: Rcv, h: Head): Rcv {
    match h
    case Data(p) =>
      if p == r.rx then r.(asked := false, gotData := true, place := InFrame)
      else if r.asked then r
      else Ask(r)
    case Eof(p) => if p == r.rx then r.(place := Complete) else r
    case Offer(late) => if !r.gotData && late then Ask(r) else r
    case Abort => r.(place := Broke(PeerGaveUp))
    case Fin => r.(place := SenderLeft)
    case Sinit => Say(r, Welcome)
    case Stray => r
  }

  function Store(r: Rcv, data: seq<byte>): Rcv {
    if data == [] then r else r.(rx := r.rx + |data|, out := r.out + data, retries := 0)
  }

  function OnSub(r: Rcv, data: seq<byte>, end: End, written: bool): Rcv {
    if data != [] && !written then r.(place := Broke(WriteError))
    else
      var r1 := Store(r, data);
      match end
      case W => Say(r1, HaveTo(r1.rx % U32)).(place := Hunt)
      case Q => Say(r1, HaveTo(r1.rx % U32))
      case E => r1.(place := Hunt)
      case G => r1
  }

  /** What does not fit the place is not seen there: no headers inside a frame,
      no subpackets outside. */
  function Step(r: Rcv, i: Input): Rcv {
    if Over(r.place) then r
    else if i.Gone? then r.(place := Broke(LinkGone))
    else if r.place.Hunt? then
      match i
      case Got(h) => OnHead(r, h)
      case Damaged => if r.asked then r else Ask(r)
      case Silence => Ask(r)
      case _ => r
    else
      match i
      case Sub(data, end, written) => OnSub(r, data, end, written)
      case SubError => Ask(r)
      case Silence => Ask(r)
      case _ => r
  }

  function Steps(r: Rcv, ins: seq<Input>): Rcv
    decreases |ins|
  {
    if ins == [] then r else Step(Steps(r, ins[..|ins| - 1]), ins[|ins| - 1])
  }

  lemma RunOne(r: Rcv, ins: seq<Input>, i: Input)
    ensures Steps(r, ins + [i]) == Step(Steps(r, ins), i)
  {
    assert (ins + [i])[..|ins + [i]| - 1] == ins;
  }

  // ---- what it keeps ----

  ghost predicate Inv(start: nat, r: Rcv) {
    && r.rx == start + |r.out|
    && (!r.place.Broke? ==> r.retries <= MAX_RETRIES)
    && (r.place.InFrame? ==> !r.asked && r.gotData)
  }

  lemma NextKeeps(start: nat, r: Rcv, i: Input)
    requires Inv(start, r)
    ensures Inv(start, Step(r, i))
    ensures r.out <= Step(r, i).out && r.rx <= Step(r, i).rx
  {}

  lemma {:induction false} RunKeeps(start: nat, ins: seq<Input>)
    ensures Inv(start, Steps(Begin(start), ins))
    decreases |ins|
  {
    hide Step;
    hide Inv;
    if ins == [] {
      assert Inv(start, Begin(start)) by {
        BeginHolds(start);
      }
    } else {
      RunKeeps(start, ins[..|ins| - 1]);
      NextKeeps(start, Steps(Begin(start), ins[..|ins| - 1]), ins[|ins| - 1]);
    }
  }

  lemma BeginHolds(start: nat)
    ensures Inv(start, Begin(start))
  {}

  /** Nothing written is ever taken back, and the position is the length of it. */
  lemma {:induction false} OutOnlyGrows(start: nat, ins: seq<Input>, more: seq<Input>)
    ensures var r, r2 := Steps(Begin(start), ins), Steps(Begin(start), ins + more);
            r.out <= r2.out && r.rx <= r2.rx == start + |r2.out|
    decreases |more|
  {
    hide Step;
    RunKeeps(start, ins + more);
    if more == [] {
      assert ins + more == ins;
    } else {
      var n := |more| - 1;
      OutOnlyGrows(start, ins, more[..n]);
      RunKeeps(start, ins + more[..n]);
      assert ins + more == ins + more[..n] + [more[n]];
      RunOne(Begin(start), ins + more[..n], more[n]);
      NextKeeps(start, Steps(Begin(start), ins + more[..n]), more[n]);
    }
  }

  lemma AskPlace(r: Rcv)
    ensures !Ask(r).place.Complete?
  {}

  lemma SubPlace(r: Rcv, data: seq<byte>, end: End, written: bool)
    requires !r.place.Complete?
    ensures !OnSub(r, data, end, written).place.Complete?
  {}

  lemma NextComplete(r: Rcv, i: Input)
    requires Step(r, i).place.Complete? && !r.place.Complete?
    ensures r.place.Hunt? && i == Got(Eof(r.rx)) && Step(r, i) == r.(place := Complete)
  {
    hide Ask;
    hide OnSub;
    AskPlace(r);
    if i.Sub? {
      SubPlace(r, i.data, i.end, i.written);
    }
  }

  /** It ends well only on a ZEOF for exactly the position reached. */
  lemma CompleteOnlyAtEof(start: nat, ins: seq<Input>, i: Input)
    requires Steps(Begin(start), ins + [i]).place.Complete?
    requires !Steps(Begin(start), ins).place.Complete?
    ensures var r := Steps(Begin(start), ins);
            && r.place.Hunt? && i == Got(Eof(r.rx))
            && Steps(Begin(start), ins + [i]) == r.(place := Complete)
  {
    hide Step;
    RunOne(Begin(start), ins, i);
    NextComplete(Steps(Begin(start), ins), i);
  }

  // ---- what it says ----

  /** The position a reply carries: always 1 in the answer to a ZSINIT. */
  function Named(a: Reply): nat {
    match a
    case AskAt(p) => p
    case HaveTo(p) => p
    case Welcome => 1
  }

  /** Every position given, but in an answer to a ZSINIT, stands between the start and
      where the data now is, and no later one is smaller. */
  ghost predicate Honest(start: nat, rx: nat, replies: seq<Reply>) {
    && (forall i :: 0 <= i < |replies| && !replies[i].Welcome? ==> start <= Named(replies[i]) <= rx)
    && (forall i, j :: 0 <= i < j < |replies| && !replies[i].Welcome? && !replies[j].Welcome?
                       ==> Named(replies[i]) <= Named(replies[j]))
  }

  lemma SayHonest(start: nat, r: Rcv, a: Reply)
    requires Honest(start, r.rx, r.replies) && (a.Welcome? || start <= Named(a) == r.rx)
    ensures Honest(start, r.rx, Say(r, a).replies)
  {}

  lemma GrowHonest(start: nat, rx: nat, to: nat, replies: seq<Reply>)
    requires Honest(start, rx, replies) && rx <= to
    ensures Honest(start, to, replies)
  {}

  lemma NextHonest(start: nat, r: Rcv, i: Input)
    requires Inv(start, r) && Honest(start, r.rx, r.replies)
    requires Step(r, i).rx < U32
    ensures Honest(start, Step(r, i).rx, Step(r, i).replies)
  {
    hide Honest;
    NextKeeps(start, r, i);
    SayHonest(start, r, AskAt(r.rx));
    SayHonest(start, r, Welcome);
    SmallMod(r.rx);
    if i.Sub? {
      var r1 := Store(r, i.data);
      GrowHonest(start, r.rx, r1.rx, r.replies);
      SayHonest(start, r1, HaveTo(r1.rx));
      if r1.rx < U32 {
        SmallMod(r1.rx);
      }
    }
  }

  /** A step says at most one thing, and it answers a ZSINIT exactly when it sees one,
      which it does not inside a frame. */
  lemma StepSays(r: Rcv, i: Input)
    ensures var r2 := Step(r, i);
            && (r2.replies == r.replies || (|r2.replies| == |r.replies| + 1 && r2.replies[..|r.replies|] == r.replies))
            && (|r2.replies| > |r.replies| && r2.replies[|r.replies|].Welcome? <==> r.place.Hunt? && i == Got(Sinit))
  {}

  lemma SmallMod(n: nat)
    requires n < U32
    ensures n % U32 == n
  {}

  /** Positions fit the header as long as the data does; every ZRPOS, and every ZACK
      but an answer to a ZSINIT, names a position reached, and they never go back. */
  lemma {:induction false} RepliesHonest(start: nat, ins: seq<Input>)
    requires Steps(Begin(start), ins).rx < U32
    ensures var r := Steps(Begin(start), ins); Honest(start, r.rx, r.replies)
    decreases |ins|
  {
    hide Step;
    hide Inv;
    if ins == [] {
      assert Honest(start, start, [AskAt(start % U32)]) by {
        SmallMod(start);
      }
    } else {
      var n := |ins| - 1;
      var r := Steps(Begin(start), ins[..n]);
      RunKeeps(start, ins[..n]);
      NextKeeps(start, r, ins[n]);
      RepliesHonest(start, ins[..n]);
      NextHonest(start, r, ins[n]);
    }
  }

  /** The ZACK that answers a ZSINIT carries position 1, wherever the data stands. */
  lemma SinitAckIsNoPosition(start: nat)
    requires 1 != start < U32
    ensures var replies := Steps(Begin(start), [Got(Sinit)]).replies;
            |replies| == 2 && Named(replies[0]) == start && Named(replies[1]) == 1 != start
  {
    assert [Got(Sinit)][..0] == [];
    assert Steps(Begin(start), [Got(Sinit)]) == Step(Begin(start), Got(Sinit));
    SmallMod(start);
  }

  // ---- no storm of ZRPOS ----

  function Asks(replies: seq<Reply>): nat
    decreases |replies|
  {
    if replies == [] then 0
    else Asks(replies[..|replies| - 1]) + if replies[|replies| - 1].AskAt? then 1 else 0
  }

  lemma AsksSay(r: Rcv, a: Reply)
    ensures Asks(Say(r, a).replies) == Asks(r.replies) + if a.AskAt? then 1 else 0
  {
    assert (r.replies + [a])[..|r.replies + [a]| - 1] == r.replies;
  }

  /** A ZDATA accepted, a wait for a header that ran out, a repeated offer answered. */
  predicate Excuse(r: Rcv, i: Input) {
    r.place.Hunt? &&
    (i == Got(Data(r.rx)) || i.Silence? || (i == Got(Offer(true)) && !r.gotData))
  }

  function Excuses(start: nat, ins: seq<Input>): nat
    decreases |ins|
  {
    if ins == [] then 0
    else
      var n := |ins| - 1;
      Excuses(start, ins[..n]) + if Excuse(Steps(Begin(start), ins[..n]), ins[n]) then 1 else 0
  }

  lemma NextAsks(start: nat, r: Rcv, i: Input)
    requires Inv(start, r)
    ensures var r2 := Step(r, i);
            Asks(r2.replies) + (if r2.asked then 0 else 1) <=
            Asks(r.replies) + (if r.asked then 0 else 1) + if Excuse(r, i) then 1 else 0
  {
    hide Asks;
    hide Store;
    AsksSay(r, AskAt(r.rx % U32));
    AsksSay(r, Welcome);
    if i.Sub? {
      var r1 := Store(r, i.data);
      StoreShape(r, i.data);
      AsksSay(r1, HaveTo(r1.rx % U32));
    }
  }

  lemma StoreShape(r: Rcv, data: seq<byte>)
    ensures var r1 := Store(r, data);
            r1.replies == r.replies && r1.asked == r.asked && r1.place == r.place
            && r1.retries <= r.retries && (data != [] ==> r1.retries == 0)
  {}

  /** Over any input, the ZRPOS number at most one, and one for each accepted
      ZDATA, each header wait that ran out, and each answered offer: damage is never
      answered by more than the frame it is in. */
  lemma {:induction false} NoStorm(start: nat, ins: seq<Input>)
    ensures var r := Steps(Begin(start), ins);
            Asks(r.replies) + (if r.asked then 0 else 1) <= 1 + Excuses(start, ins)
    decreases |ins|
  {
    hide Step;
    hide Inv;
    if ins == [] {
      assert [AskAt(start % U32)][..0] == [];
      assert Asks([AskAt(start % U32)]) == 1;
    } else {
      var n := |ins| - 1;
      NoStorm(start, ins[..n]);
      RunKeeps(start, ins[..n]);
      NextAsks(start, Steps(Begin(start), ins[..n]), ins[n]);
    }
  }

  /** A subpacket with data in it, accepted. */
  predicate Gain(r: Rcv, i: Input) {
    r.place.InFrame? && i.Sub? && i.data != [] && i.written
  }

  function Gains(start: nat, ins: seq<Input>): nat
    decreases |ins|
  {
    if ins == [] then 0
    else
      var n := |ins| - 1;
      Gains(start, ins[..n]) + if Gain(Steps(Begin(start), ins[..n]), ins[n]) then 1 else 0
  }

  lemma NextRetries(start: nat, r: Rcv, i: Input)
    requires Inv(start, r)
    ensures var r2 := Step(r, i);
            && Asks(r2.replies) - Min(r2.retries, MAX_RETRIES) <=
               Asks(r.replies) - Min(r.retries, MAX_RETRIES) + if Gain(r, i) then MAX_RETRIES else 0
  {
    hide Asks;
    hide Store;
    AsksSay(r, AskAt(r.rx % U32));
    AsksSay(r, Welcome);
    if i.Sub? {
      var r1 := Store(r, i.data);
      StoreShape(r, i.data);
      StoreNothing(r);
      AsksSay(r1, HaveTo(r1.rx % U32));
    }
  }

  lemma StoreNothing(r: Rcv)
    ensures Store(r, []) == r
  {}

  /** And in terms of progress: at most twenty for each subpacket that brought data,
      and twenty more. */
  lemma {:induction false} AsksBounded(start: nat, ins: seq<Input>)
    ensures var r := Steps(Begin(start), ins);
            Asks(r.replies) <= 1 + MAX_RETRIES * Gains(start, ins) + Min(r.retries, MAX_RETRIES)
            && Asks(r.replies) <= 1 + MAX_RETRIES * (Gains(start, ins) + 1)
    decreases |ins|
  {
    hide Step;
    hide Inv;
    if ins == [] {
      assert [AskAt(start % U32)][..0] == [];
      assert Asks([AskAt(start % U32)]) == 1;
    } else {
      var n := |ins| - 1;
      AsksBounded(start, ins[..n]);
      RunKeeps(start, ins[..n]);
      NextRetries(start, Steps(Begin(start), ins[..n]), ins[n]);
    }
  }

  // ---- it gives up ----

  function Silences(n: nat): seq<Input> {
    seq(n, _ => Silence)
  }

  lemma NextSilence(r: Rcv)
    requires !Over(Step(r, Silence).place)
    ensures !Over(r.place) && Step(r, Silence).retries == r.retries + 1
  {}

  /** From any state of any run, waits that all run out end it, after at most
      twenty-one of them. */
  lemma {:induction false} SilenceEnds(start: nat, ins: seq<Input>, n: nat)
    ensures var r := Steps(Begin(start), ins + Silences(n));
            !Over(r.place) ==> n <= r.retries <= MAX_RETRIES
    ensures n > MAX_RETRIES ==> Over(Steps(Begin(start), ins + Silences(n)).place)
    decreases n
  {
    hide Step;
    hide Steps;
    RunKeeps(start, ins + Silences(n));
    if n > 0 {
      assert ins + Silences(n) == ins + Silences(n - 1) + [Silence];
      RunOne(Begin(start), ins + Silences(n - 1), Silence);
      SilenceEnds(start, ins, n - 1);
      if !Over(Steps(Begin(start), ins + Silences(n)).place) {
        NextSilence(Steps(Begin(start), ins + Silences(n - 1)));
      }
    }
  }
}
