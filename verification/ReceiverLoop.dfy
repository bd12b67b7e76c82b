/** The receiver's program: the loop that reads headers and, inside it, the loop
    that reads one frame. What the outside does is taken in order from `inputs`; the
    loops are proved to follow the machine of Receiver.dfy. */
module ReceiverLoop {
  import opened Crc
  import opened Sender
  import opened Receiver

  class Receiving {
    const start: nat
    const inputs: seq<Input>
    var next: nat

    var rx: nat
    var retries: nat
    var asked: bool
    var gotData: bool
    var out: seq<byte>
    var replies: seq<Reply>

    /** The variables as a value, with the place the program is at. */
    function At(place: Place): (r: Rcv)
      reads this
    {
      Rcv(rx, retries, asked, gotData, out, replies, place)
    }

    constructor (start: nat, inputs: seq<Input>)
      ensures this.start == start && this.inputs == inputs && next == 0
      ensures At(Hunt) == Begin(start)
    {
      this.start, this.inputs, next := start, inputs, 0;
      rx, retries, asked, gotData := start, 0, true, false;
      out, replies := [], [AskAt(start % U32)];
    }

    /** The next thing the outside does. */
    method Take() returns (i: Input)
      requires next < |inputs|
      modifies this`next
      ensures next == old(next) + 1 && i == inputs[old(next)]
    {
      i := inputs[next];
      next := next + 1;
    }

    method Reply(a: Reply)
      modifies this`replies
      ensures forall p: Place :: At(p) == Say(old(At(p)), a)
    {
      replies := replies + [a];
    }

    /** Ask for the data from the last good offset. */
    method AskAgain(ghost was: Place) returns (place: Place)
      modifies this
      ensures At(place) == Ask(old(At(was))) && next == old(next)
      ensures place.Hunt? || Over(place)
    {
      retries := retries + 1;
      if retries > MAX_RETRIES {
        return Broke(TooManyErrors);
      }
      asked := true;
      Reply(AskAt(rx % U32));
      place := Hunt;
    }

    ghost predicate Followed(place: Place)
      reads this
    {
      next <= |inputs| && At(place) == Steps(Begin(start), inputs[..next])
    }

    lemma StepTaken(before: Rcv)
      requires 0 < next <= |inputs| && before == Steps(Begin(start), inputs[..next - 1])
      ensures Steps(Begin(start), inputs[..next]) == Step(before, inputs[next - 1])
    {
      hide Step;
      assert inputs[..next] == inputs[..next - 1] + [inputs[next - 1]];
      RunOne(Begin(start), inputs[..next - 1], inputs[next - 1]);
    }

    method Write(data: seq<byte>)
      modifies this
      ensures forall p: Place :: At(p) == Store(old(At(p)), data)
      ensures next == old(next)
    {
      if |data| > 0 {
        out := out + data;
        rx := rx + |data|;
        retries := 0;
      }
    }

    method HandleSub(data: seq<byte>, end: End, written: bool) returns (place: Place)
      modifies this
      ensures At(place) == OnSub(old(At(InFrame)), data, end, written) && next == old(next)
      ensures place.InFrame? || place.Hunt? || Over(place)
    {
      hide Store;
      if |data| > 0 && !written {
        return Broke(WriteError);
      }
      StorePlace(At(InFrame), data);
      Write(data);
      place := InFrame;
      match end {
        case W =>
          Reply(HaveTo(rx % U32));
          place := Hunt;
        case Q => Reply(HaveTo(rx % U32));
        case E => place := Hunt;
        case G =>
      }
    }

    method FrameStep(i: Input) returns (place: Place)
      modifies this
      ensures At(place) == Step(old(At(InFrame)), i) && next == old(next)
      ensures place.InFrame? || place.Hunt? || Over(place)
    {
      hide Ask;
      hide OnSub;
      place := InFrame;
      match i
      case Sub(data, end, written) => place := HandleSub(data, end, written);
      case SubError => place := AskAgain(InFrame);
      case Silence => place := AskAgain(InFrame);
      case Gone => place := Broke(LinkGone);
      case Got(_) =>
      case Damaged =>
    }

    /** Read the subpackets of one frame. */
    method ReadFrame() returns (place: Place)
      requires Followed(InFrame)
      modifies this
      ensures next >= old(next) && Followed(place)
      ensures place.Hunt? || Over(place) || next == |inputs|
    {
      hide Step;
      hide Steps;
      place := InFrame;
      while place.InFrame? && next < |inputs|
        invariant old(next) <= next && Followed(place)
        invariant place.InFrame? || place.Hunt? || Over(place)
        decreases |inputs| - next
      {
        ghost var before := At(place);
        var i := Take();
        place := FrameStep(i);
        StepTaken(before);
      }
    }

    method HandleHead(h: Head) returns (place: Place)
      modifies this
      ensures At(place) == OnHead(old(At(Hunt)), h) && next == old(next)
      ensures place.InFrame? || place.Hunt? || Over(place)
    {
      hide Ask;
      place := Hunt;
      match h
      case Data(p) =>
        if p != rx {
          if !asked {
            place := AskAgain(Hunt);
          }
        } else {
          asked, gotData := false, true;
          place := InFrame;
        }
      case Eof(p) =>
        if p == rx {
          place := Complete;
        }
      case Offer(late) =>
        if !gotData && late {
          place := AskAgain(Hunt);
        }
      case Abort => place := Broke(PeerGaveUp);
      case Fin => place := SenderLeft;
      case Sinit => Reply(Welcome);
      case Stray =>
    }

    method HuntStep(i: Input) returns (place: Place)
      modifies this
      ensures At(place) == Step(old(At(Hunt)), i) && next == old(next)
      ensures place.InFrame? || place.Hunt? || Over(place)
    {
      hide Ask;
      hide OnHead;
      place := Hunt;
      match i
      case Got(h) => place := HandleHead(h);
      case Damaged =>
        if !asked {
          place := AskAgain(Hunt);
        }
      case Silence => place := AskAgain(Hunt);
      case Gone => place := Broke(LinkGone);
      case Sub(_, _, _) =>
      case SubError =>
    }

    /** Receive one file's data: the program is where the machine is after all it has
        taken, and it stops only when the file has ended or nothing more happens. */
    method ReceiveData() returns (place: Place)
      requires next == 0 && At(Hunt) == Begin(start)
      modifies this
      ensures Followed(place)
      ensures Over(place) || next == |inputs|
    {
      hide Step;
      place := Hunt;
      while !Over(place) && next < |inputs|
        invariant Followed(place)
        invariant place.Hunt? || Over(place) || next == |inputs|
        decreases |inputs| - next
      {
        hide Steps;
        ghost var before := At(place);
        var i := Take();
        place := HuntStep(i);
        StepTaken(before);
        if place.InFrame? {
          place := ReadFrame();
        }
      }
    }
  }

  lemma StorePlace(r: Rcv, data: seq<byte>)
    ensures Store(r, data).place == r.place
  {}
}
