/** The sender's program: the loops that send one file. Every exchange with the
    outside is taken in order from `events`; each loop is proved to follow the machine
    of Sender.dfy, so all that is proved of its runs holds of the program. */
module SenderLoop {
  import opened Sender

  lemma ShrinkShape(s: Core)
    ensures Shrink(s).pos == s.pos
  {}

  lemma CloseShape(s: Core)
    ensures CloseFrame(s).pos == s.pos
  {}

  lemma OpenPos(s: Core)
    ensures var r := OpenFrame(s); r.pos == s.pos && r.block == s.block
  {}

  class Stream {
    const c: Conf
    const events: seq<Event>
    var next: nat

    var pos: nat
    var acked: nat
    var block: nat
    var goodRun: nat
    var sinceChk: nat
    var newFrame: bool
    var frameAt: nat
    var dataOut: bool
    var echoed: bool
    var lastRpos: nat
    var sameRpos: nat
    var eofSent: bool
    var done: bool
    var skipped: bool
    var frameOpen: bool
    var xoff: bool
    var minBlock: nat
    var sent: seq<Token>

    /** The variables as a value. */
    function Vars(): (s: Core)
      reads this
    {
      Core(pos, acked, block, goodRun, sinceChk, newFrame, frameAt, dataOut, echoed, lastRpos, sameRpos,
           eofSent, done, skipped, frameOpen, xoff, minBlock, sent)
    }

    ghost predicate Valid()
      reads this
    {
      c.Valid() && next <= |events|
    }

    constructor (c: Conf, events: seq<Event>)
      requires c.Valid()
      ensures Valid() && this.c == c && this.events == events && next == 0
      ensures Vars() == Init(c)
    {
      this.c, this.events, next := c, events, 0;
      pos, acked, block, minBlock, lastRpos := c.start, c.start, c.maxBlock, c.maxBlock, c.start;
      goodRun, sinceChk, sameRpos, frameAt := 0, 0, 0, 0;
      newFrame, dataOut, echoed, eofSent, done, skipped, frameOpen, xoff :=
        true, false, false, false, false, false, false, false;
      sent := [];
    }

    /** The next thing the outside does. */
    method Take() returns (e: Event)
      requires Valid() && next < |events|
      modifies this`next
      ensures Valid() && next == old(next) + 1 && e == events[old(next)]
    {
      e := events[next];
      next := next + 1;
    }

    method SendToken(t: Token)
      modifies this`sent
      ensures Vars() == Send(old(Vars()), t)
    {
      sent := sent + [t];
    }

    /** Data thrown away halves the block. */
    method ShrinkBlock()
      modifies this
      ensures Vars() == Shrink(old(Vars())) && next == old(next)
    {
      block := Max(MIN_SUBPACKET, block / 2);
      minBlock := Min(minBlock, block);
      goodRun := 0;
    }

    /** An open frame ends with an empty subpacket. */
    method EndOpenFrame()
      modifies this
      ensures Vars() == CloseFrame(old(Vars())) && next == old(next)
    {
      if frameOpen {
        SendToken(TSub([], E));
        newFrame := true;
        frameOpen := false;
      }
    }

    /** Restart the data at `p`. */
    method RewindTo(p: nat)
      modifies this
      ensures Vars() == Rewind(old(Vars()), p) && next == old(next)
    {
      hide Shrink;
      hide CloseFrame;
      ShrinkShape(Vars());
      CloseShape(Vars());
      CloseShape(Shrink(Vars()));
      if p < pos {
        ShrinkBlock();
      }
      EndOpenFrame();
      if p < pos {
        pos := p;
        newFrame := true;
      }
    }

    method CountAsked(p: nat)
      modifies this`lastRpos, this`sameRpos
      ensures Vars() == Counted(old(Vars()), p)
    {
      if p == lastRpos {
        sameRpos := sameRpos + 1;
      } else {
        lastRpos := p;
        sameRpos := 0;
      }
    }

    method RestartAt(p: nat)
      modifies this
      ensures Vars() == Restart(old(Vars()), p) && next == old(next)
    {
      hide Rewind;
      RewindTo(p);
      acked := Max(acked, p);
      eofSent := false;
    }

    /** A ZRPOS, already cut to the file's size. */
    method HandleAsked(p: nat, early: bool) returns (mode: Mode)
      modifies this
      ensures State(Vars(), mode) == HandleRpos(old(Vars()), p, early) && next == old(next)
      ensures mode.Poll? || mode.Failed?
    {
      hide Counted;
      hide Restart;
      mode := Poll;
      CountAsked(p);
      if sameRpos > MAX_RETRIES {
        mode := Failed(AskedTooOften);
      } else if frameOpen && p == frameAt && (!dataOut || early) {
        echoed := true;
      } else {
        RestartAt(p);
      }
    }

    /** One header from the receiver; the mode says whether the session fails. */
    method HandleReverse(h: Reverse, early: bool, size: nat) returns (mode: Mode)
      modifies this
      ensures State(Vars(), mode) == Handle(size, old(Vars()), h, early) && next == old(next)
      ensures mode.Poll? || mode.Failed?
    {
      hide HandleRpos;
      mode := Poll;
      match h
      case Ack(p) =>
        if p > acked && p <= pos {
          acked := p;
        }
      case Rpos(p) => mode := HandleAsked(Min(p, size), early);
      case Skip => done, skipped := true, true;
      case Rinit =>
        if eofSent {
          done := true;
        }
      case AskCrc(n) => SendToken(TCrc(n));
      case Challenge(p) => SendToken(TAck(p));
      case GiveUp => mode := Failed(GaveUp);
      case Other =>
    }

    /** Where the program stands after the events taken since `from`. */
    ghost predicate At(m: State, from: nat, mode: Mode)
      reads this
    {
      from <= next <= |events| && State(Vars(), mode) == Run(c, m, events[from..next])
    }

    lemma StepTaken(m: State, from: nat, before: State)
      requires from < next <= |events|
      requires before == Run(c, m, events[from..next - 1])
      ensures Run(c, m, events[from..next]) == Next(c, before, events[next - 1])
    {
      hide Next;
      assert events[from..next][..next - from - 1] == events[from..next - 1];
    }

    // ---- the waits ----

    method XonStep(e: Event) returns (mode: Mode)
      modifies this
      ensures State(Vars(), mode) == Next(c, State(old(Vars()), Xon), e) && next == old(next)
      ensures mode.Xon? || mode.Poll? || Ended(mode)
    {
      hide Handle;
      mode := Xon;
      match e
      case Hdr(h, early) =>
        mode := HandleReverse(h, early, |c.src|);
        if !mode.Failed? {
          mode := if done then Finished else Xon;
        }
      case Flow(off) =>
        xoff := off;
        mode := if off then Xon else Poll;
      case Quiet(_, _) =>
        xoff := false;
        mode := Poll;
      case LinkError => mode := Failed(LinkFailed);
      case BadHdr =>
      case Expired =>
    }

    /** Hold the data until XON, or until the wait runs out. */
    method WaitXon(ghost m: State, ghost from: nat) returns (mode: Mode)
      requires Valid() && At(m, from, Xon)
      modifies this
      ensures Valid() && next >= old(next) && At(m, from, mode)
      ensures Ended(mode) || mode.Poll? || next == |events|
    {
      hide Next;
      hide Run;
      mode := Xon;
      while mode.Xon? && next < |events|
        invariant Valid() && old(next) <= next && At(m, from, mode)
        invariant mode.Xon? || mode.Poll? || Ended(mode)
        decreases |events| - next
      {
        ghost var before := State(Vars(), mode);
        var e := Take();
        mode := XonStep(e);
        StepTaken(m, from, before);
      }
    }

    /** Nothing came while an acknowledgement was awaited. */
    method AckSilence(w: Mode) returns (mode: Mode)
      requires w.AckWait?
      modifies this
      ensures State(Vars(), mode) == AckTimeout(old(Vars()), w) && next == old(next)
      ensures mode.AckWait? || mode.Poll? || Ended(mode)
    {
      hide Rewind;
      if frameOpen && echoed {
        RewindTo(frameAt);
        mode := Poll;
      } else if w.poke >= ACK_POKES {
        mode := Failed(NoAck);
      } else if frameOpen {
        SendToken(TSub([], Q));
        mode := w.(poke := w.poke + 1);
      } else {
        newFrame := true;
        mode := Poll;
      }
    }

    method AckHeader(w: Mode, h: Reverse, early: bool) returns (mode: Mode)
      requires w.AckWait?
      modifies this
      ensures State(Vars(), mode) == OnHeader(c, State(old(Vars()), w), h, early) && next == old(next)
      ensures mode.AckWait? || mode.Poll? || Ended(mode)
    {
      hide Handle;
      mode := HandleReverse(h, early, |c.src|);
      if !mode.Failed? {
        if done {
          mode := Finished;
        } else if acked != w.acked0 || pos != w.pos0 || (h.Ack? && !c.fullDuplex) {
          mode := Poll;
        } else {
          mode := w.(poke := w.poke + 1);
        }
      }
    }

    method AckStep(w: Mode, e: Event) returns (mode: Mode)
      requires w.AckWait?
      modifies this
      ensures State(Vars(), mode) == Next(c, State(old(Vars()), w), e) && next == old(next)
      ensures mode.AckWait? || mode.Poll? || Ended(mode)
    {
      hide OnHeader;
      hide AckTimeout;
      mode := w;
      match e
      case Hdr(h, early) => mode := AckHeader(w, h, early);
      case BadHdr => mode := w.(poke := w.poke + 1);
      case Flow(off) => xoff := off;
      case Quiet(_, _) => mode := AckSilence(w);
      case Expired => mode := Failed(NoAck);
      case LinkError => mode := Failed(LinkFailed);
    }

    /** Wait for the receiver to move the window or answer the block. */
    method WaitAck(ghost m: State, ghost from: nat) returns (mode: Mode)
      requires Valid() && At(m, from, AckWait(0, acked, pos))
      modifies this
      ensures Valid() && next >= old(next) && At(m, from, mode)
      ensures Ended(mode) || mode.Poll? || next == |events|
    {
      hide Next;
      hide Run;
      mode := AckWait(0, acked, pos);
      while mode.AckWait? && next < |events|
        invariant Valid() && old(next) <= next && At(m, from, mode)
        invariant mode.AckWait? || mode.Poll? || Ended(mode)
        decreases |events| - next
      {
        ghost var before := State(Vars(), mode);
        var e := Take();
        mode := AckStep(mode, e);
        StepTaken(m, from, before);
      }
    }

    method PutEof(tries: nat, limit: nat, cut: bool) returns (mode: Mode)
      modifies this
      ensures State(Vars(), mode) == Sender.SendEof(old(Vars()), tries, limit, cut) && next == old(next)
    {
      SendToken(TEof(limit % U32));
      eofSent := true;
      mode := EofWait(tries, limit, cut);
    }

    method EofRetry(w: Mode) returns (mode: Mode)
      requires w.EofWait?
      modifies this
      ensures State(Vars(), mode) == EofAgain(old(Vars()), w) && next == old(next)
      ensures mode.EofWait? || Ended(mode)
    {
      if w.tries + 1 >= MAX_RETRIES {
        mode := Failed(NoEofAck);
      } else {
        mode := PutEof(w.tries + 1, w.limit, w.cut);
      }
    }

    method EofHeader(w: Mode, h: Reverse, early: bool) returns (mode: Mode)
      requires w.EofWait?
      modifies this
      ensures State(Vars(), mode) == OnHeader(c, State(old(Vars()), w), h, early) && next == old(next)
      ensures mode.EofWait? || mode.Poll? || Ended(mode)
    {
      hide Handle;
      mode := HandleReverse(h, early, w.limit);
      if !mode.Failed? {
        if done || !eofSent {
          mode := if w.cut then Failed(ReadFailed) else if done then Finished else Poll;
        } else {
          mode := w;
        }
      }
    }

    method EofStep(w: Mode, e: Event) returns (mode: Mode)
      requires w.EofWait?
      modifies this
      ensures State(Vars(), mode) == Next(c, State(old(Vars()), w), e) && next == old(next)
      ensures mode.EofWait? || mode.Poll? || Ended(mode)
    {
      hide OnHeader;
      hide EofAgain;
      mode := w;
      match e
      case Hdr(h, early) => mode := EofHeader(w, h, early);
      case BadHdr => mode := EofRetry(w);
      case Flow(off) => xoff := off;
      case Quiet(_, _) => mode := EofRetry(w);
      case Expired =>
      case LinkError => mode := Failed(LinkFailed);
    }

    /** After ZEOF: wait for the ZRINIT that ends the file. */
    method WaitEof(w: Mode, ghost m: State, ghost from: nat) returns (mode: Mode)
      requires Valid() && w.EofWait? && At(m, from, w)
      modifies this
      ensures Valid() && next >= old(next) && At(m, from, mode)
      ensures Ended(mode) || mode.Poll? || next == |events|
    {
      hide Next;
      hide Run;
      mode := w;
      while mode.EofWait? && next < |events|
        invariant Valid() && old(next) <= next && At(m, from, mode)
        invariant mode.EofWait? || mode.Poll? || Ended(mode)
        decreases |events| - next
      {
        ghost var before := State(Vars(), mode);
        var e := Take();
        mode := EofStep(mode, e);
        StepTaken(m, from, before);
      }
    }

    // ---- data ----

    method BeginFrame()
      modifies this
      ensures Vars() == OpenFrame(old(Vars())) && next == old(next)
    {
      if newFrame {
        SendToken(TData(pos % U32));
        newFrame, frameOpen, frameAt, dataOut, echoed, sinceChk := false, true, pos, false, false, 0;
      }
    }

    /** The file ends here: its reading failed. */
    method CutShort() returns (mode: Mode)
      modifies this
      ensures State(Vars(), mode) == CutFile(old(Vars())) && next == old(next)
      ensures mode.EofWait?
    {
      if frameOpen {
        SendToken(TSub([], E));
        frameOpen := false;
      }
      mode := PutEof(0, pos, true);
    }

    method GrowBlock()
      modifies this
      ensures Vars() == Grow(c, old(Vars())) && next == old(next)
    {
      goodRun := goodRun + 1;
      if goodRun >= GROW_AFTER && block < c.maxBlock {
        block := Min(block * 2, c.maxBlock);
        goodRun := 0;
      }
    }

    method PutData(k: nat, end: End)
      requires pos + k <= |c.src|
      modifies this
      ensures Vars() == Put(c, old(Vars()), k, end) && next == old(next)
    {
      SendToken(TSub(c.src[pos..pos + k], end));
      sinceChk := if end == Q then 0 else sinceChk + k;
      dataOut := true;
      pos := pos + k;
    }

    /** Send the next `k` bytes and end the frame if they are the last, or if every
        block is answered. */
    method PutNext(k: nat) returns (mode: Mode)
      requires pos + k <= |c.src|
      modifies this
      ensures State(Vars(), mode) == SendBlock(c, old(Vars()), k) && next == old(next)
      ensures mode.AckWait? ==> mode == AckWait(0, acked, pos)
    {
      hide Put;
      hide Grow;
      hide EndFor;
      var end := EndFor(c, pos + k, sinceChk + k);
      PutData(k, end);
      GrowBlock();
      if end == W || end == E {
        newFrame := true;
        frameOpen := false;
      }
      mode := if end == W then AckWait(0, acked, pos) else Poll;
    }

    /** No header is waiting: the main loop does the next thing there is to do. */
    method Turn(n: nat, readable: bool) returns (mode: Mode)
      modifies this
      ensures State(Vars(), mode) == Act(c, old(Vars()), n, readable) && next == old(next)
      ensures mode.AckWait? ==> mode == AckWait(0, acked, pos)
    {
      hide OpenFrame;
      hide CutFile;
      hide SendBlock;
      OpenPos(Vars());
      if done {
        mode := Finished;
      } else if xoff {
        mode := Xon;
      } else if pos >= |c.src| {
        mode := PutEof(0, |c.src|, false);
      } else if c.fullDuplex && pos - acked >= c.window {
        mode := AckWait(0, acked, pos);
      } else {
        BeginFrame();
        if !readable {
          mode := CutShort();
        } else {
          var k := BlockSize(n, Min(block, |c.src| - pos));
          mode := PutNext(k);
        }
      }
    }

    method MainStep(e: Event) returns (mode: Mode)
      modifies this
      ensures State(Vars(), mode) == Next(c, State(old(Vars()), Poll), e) && next == old(next)
      ensures mode.AckWait? ==> mode == AckWait(0, acked, pos)
    {
      hide Handle;
      hide Act;
      mode := Poll;
      match e
      case Hdr(h, early) => mode := HandleReverse(h, early, |c.src|);
      case Flow(off) => xoff := off;
      case Quiet(n, readable) => mode := Turn(n, readable);
      case BadHdr =>
      case Expired =>
      case LinkError => mode := Failed(LinkFailed);
    }

    /** Send one file: the program is where the machine is after all the events it
        has taken, and it stops only when the file has ended or nothing more happens. */
    method StreamFile() returns (mode: Mode)
      requires Valid() && next == 0 && Vars() == Init(c)
      modifies this
      ensures Valid() && State(Vars(), mode) == Run(c, Start(c), events[..next])
      ensures Ended(mode) || next == |events|
    {
      hide Next;
      ghost var m := Start(c);
      mode := Poll;
      assert events[0..0] == [];
      while !Ended(mode) && next < |events|
        invariant Valid() && At(m, 0, mode)
        invariant mode.Poll? || Ended(mode) || next == |events|
        decreases |events| - next
      {
        hide Run;
        ghost var before := State(Vars(), mode);
        var e := Take();
        mode := MainStep(e);
        StepTaken(m, 0, before);
        if mode.Xon? {
          mode := WaitXon(m, 0);
        } else if mode.AckWait? {
          mode := WaitAck(m, 0);
        } else if mode.EofWait? {
          mode := WaitEof(mode, m, 0);
        }
      }
      assert events[0..next] == events[..next];
    }
  }
}
