/** The sending side of one file, as a machine: `Next` is one exchange with the
    outside (a header read, a wait that ran out, an XOFF), `Run` a whole run.
    What the machine keeps in every run is proved in SenderSafety.dfy and
    SenderRuns.dfy, that it ends in SenderEnds.dfy; the program that follows it is in
    SenderLoop.dfy. */
module Sender {
  import opened Crc

  const MIN_SUBPACKET: nat := 32
  const MAX_SUBPACKET: nat := 1024
  const MAX_RETRIES: nat := 20
  const GROW_AFTER: nat := 16
  const ACK_POKES: nat := 4
  const U32: nat := 0x1_0000_0000

  /** What is sent and how: the file, the offset the receiver asked for, and
      what its ZRINIT allows. */
  datatype Conf = Conf(src: seq<byte>, start: nat, window: nat, maxBlock: nat, fullDuplex: bool) {
    predicate Valid() {
      && |src| < U32 && start <= |src|
      && window >= 1
      && MIN_SUBPACKET <= maxBlock <= MAX_SUBPACKET
    }
  }

  datatype End = E | G | Q | W

  /** What goes forward on the line during data. */
  datatype Token =
    | TData(pos: nat)
    | TSub(data: seq<byte>, end: End)
    | TEof(pos: nat)
    | TCrc(n: nat)
    | TAck(p: nat)

  /** A header from the receiver. */
  datatype Reverse =
    | Ack(p: nat)
    | Rpos(p: nat)
    | Skip
    | Rinit
    | AskCrc(n: nat)
    | Challenge(p: nat)
    | GiveUp
    | Other

  /** What the outside does at the point where the sender looks at it. */
  datatype Event =
    | Hdr(h: Reverse, early: bool)   // early: it arrived within the echo time of the frame's first subpacket
    | BadHdr
    | Flow(off: bool)                // raw XOFF (true) or XON
    | Quiet(n: nat, readable: bool)  // nothing came in time; if a block is due, reading the file gives n bytes or fails
    | Expired                        // the overall wait for an acknowledgement ran out
    | LinkError

  datatype Why = GaveUp | AskedTooOften | NoAck | NoEofAck | ReadFailed | LinkFailed

  /** Where the sender waits. */
  datatype Mode =
    | Poll
    | Xon
    | AckWait(poke: nat, acked0: nat, pos0: nat)
    | EofWait(tries: nat, limit: nat, cut: bool)
    | Finished
    | Failed(why: Why)

  /** The sender's variables and everything it has sent. `newFrame` says that a new
      frame must be opened first, `dataOut` that the open frame's first subpacket
      has gone out. */
  datatype Core = Core(
    pos: nat, acked: nat, block: nat, goodRun: nat, sinceChk: nat, newFrame: bool,
    frameAt: nat, dataOut: bool, echoed: bool, lastRpos: nat, sameRpos: nat,
    eofSent: bool, done: bool, skipped: bool, frameOpen: bool,
    xoff: bool, minBlock: nat, sent: seq<Token>)

  datatype State = State(core: Core, mode: Mode)

  predicate Ended(m: Mode) {
    m.Finished? || m.Failed?
  }

  function Min(a: nat, b: nat): nat {
    if a < b then a else b
  }

  function Max(a: nat, b: nat): nat {
    if a < b then b else a
  }

  function Init(c: Conf): Core {
    Core(c.start, c.start, c.maxBlock, 0, 0, true, 0, false, false, c.start, 0,
         false, false, false, false, false, c.maxBlock, [])
  }

  function Send(s: Core, t: Token): Core {
    s.(sent := s.sent + [t])
  }

  // ---- one header ----

  predicate IsEcho(s: Core, p: nat, early: bool) {
    s.frameOpen && p == s.frameAt && (!s.dataOut || early)
  }

  function Halved(block: nat): nat {
    Max(MIN_SUBPACKET, block / 2)
  }

  /** Data thrown away is a line error: shorter blocks from here on. */
  function Shrink(s: Core): Core {
    s.(block := Halved(s.block), minBlock := Min(s.minBlock, Halved(s.block)), goodRun := 0)
  }

  /** An open frame ends with an empty subpacket. */
  function CloseFrame(s: Core): Core {
    if s.frameOpen then Send(s, TSub([], E)).(newFrame := true, frameOpen := false) else s
  }

  /** Restart the data at `p`, if that throws sent data away; an open frame is
      closed in any case. */
  function Rewind(s: Core, p: nat): Core {
    if p < s.pos then CloseFrame(Shrink(s)).(pos := p, newFrame := true) else CloseFrame(s)
  }

  /** Every ZRPOS counts against the retry limit, whatever it leads to. */
  function Counted(s: Core, p: nat): Core {
    s.(lastRpos := p, sameRpos := if p == s.lastRpos then s.sameRpos + 1 else 0)
  }

  function Restart(s: Core, p: nat): Core {
    var r := Rewind(s, p);
    r.(acked := Max(r.acked, p), eofSent := false)
  }

  function HandleRpos(s: Core, p: nat, early: bool): State {
    var s1 := Counted(s, p);
    if s1.sameRpos > MAX_RETRIES then State(s1, Failed(AskedTooOften))
    else if IsEcho(s1, p, early) then State(s1.(echoed := true), Poll)
    else State(Restart(s1, p), Poll)
  }

  /** The effect of a header on the variables; the mode is Failed or says nothing. */
  function Handle(size: nat, s: Core, h: Reverse, early: bool): State {
    match h
    case Ack(p) => State(if s.acked < p <= s.pos then s.(acked := p) else s, Poll)
    case Rpos(p) => HandleRpos(s, Min(p, size), early)
    case Skip => State(s.(done := true, skipped := true), Poll)
    case Rinit => State(if s.eofSent then s.(done := true) else s, Poll)
    case AskCrc(n) => State(Send(s, TCrc(n)), Poll)
    case Challenge(p) => State(Send(s, TAck(p)), Poll)
    case GiveUp => State(s, Failed(GaveUp))
    case Other => State(s, Poll)
  }

  // ---- sending ----

  function SendEof(s: Core, tries: nat, limit: nat, cut: bool): State {
    State(Send(s, TEof(limit % U32)).(eofSent := true), EofWait(tries, limit, cut))
  }

  function OpenFrame(s: Core): Core {
    if s.newFrame then
      Send(s, TData(s.pos % U32)).(newFrame := false, frameOpen := true, frameAt := s.pos, dataOut := false,
                                   echoed := false, sinceChk := 0)
    else s
  }

  /** A read error: the file ends here. */
  function CutFile(s: Core): State {
    var s1 := if s.frameOpen then Send(s, TSub([], E)).(frameOpen := false) else s;
    SendEof(s1, 0, s.pos, true)
  }

  /** How many bytes the block gets: between 1 and what is asked for. */
  function BlockSize(n: nat, limit: nat): nat {
    if 1 <= n <= limit then n else limit
  }

  function EndFor(c: Conf, pos: nat, since: nat): End {
    if !c.fullDuplex then W
    else if pos >= |c.src| then E
    else if since >= c.window / 4 then Q
    else G
  }

  predicate Grows(c: Conf, s: Core) {
    s.goodRun + 1 >= GROW_AFTER && s.block < c.maxBlock
  }

  /** A run of good blocks doubles the block length. */
  function Grow(c: Conf, s: Core): Core {
    s.(block := if Grows(c, s) then Min(2 * s.block, c.maxBlock) else s.block,
       goodRun := if Grows(c, s) then 0 else s.goodRun + 1)
  }

  function Put(c: Conf, s: Core, k: nat, end: End): Core
    requires s.pos + k <= |c.src|
  {
    s.(sent := s.sent + [TSub(c.src[s.pos..s.pos + k], end)],
       sinceChk := if end == Q then 0 else s.sinceChk + k,
       dataOut := true,
       pos := s.pos + k)
  }

  /** One block of `k` bytes goes out. */
  function PutBlock(c: Conf, s: Core, k: nat, end: End): Core
    requires s.pos + k <= |c.src|
  {
    Grow(c, Put(c, s, k, end))
  }

  function EndFrame(s: Core): Core {
    s.(newFrame := true, frameOpen := false)
  }

  function SendBlock(c: Conf, s: Core, k: nat): State
    requires s.pos + k <= |c.src|
  {
    var end := EndFor(c, s.pos + k, s.sinceChk + k);
    var s1 := PutBlock(c, s, k, end);
    if end == W then State(EndFrame(s1), AckWait(0, s1.acked, s1.pos))
    else if end == E then State(EndFrame(s1), Poll)
    else State(s1, Poll)
  }

  predicate Blocked(c: Conf, s: Core) {
    c.fullDuplex && s.pos >= s.acked + c.window
  }

  /** What the main loop does once no header is waiting. */
  function Act(c: Conf, s: Core, n: nat, readable: bool): State {
    if s.done then State(s, Finished)
    else if s.xoff then State(s, Xon)
    else if s.pos >= |c.src| then SendEof(s, 0, |c.src|, false)
    else if Blocked(c, s) then State(s, AckWait(0, s.acked, s.pos))
    else
      var s1 := OpenFrame(s);
      if !readable then CutFile(s1)
      else
        var k := BlockSize(n, Min(s.block, |c.src| - s.pos));
        SendBlock(c, s1, k)
  }

  // ---- waiting ----

  /** After a header in a wait: the mode the wait goes on in, if it goes on. */
  function XonNext(h: State): State {
    if h.mode.Failed? then h else State(h.core, if h.core.done then Finished else Xon)
  }

  function AckNext(c: Conf, h: State, w: Mode, isAck: bool): State
    requires w.AckWait?
  {
    if h.mode.Failed? then h
    else if h.core.done then State(h.core, Finished)
    else if h.core.acked != w.acked0 || h.core.pos != w.pos0 || (isAck && !c.fullDuplex) then State(h.core, Poll)
    else State(h.core, w.(poke := w.poke + 1))
  }

  function EofNext(h: State, w: Mode): State
    requires w.EofWait?
  {
    if h.mode.Failed? then h
    else if h.core.done || !h.core.eofSent then
      State(h.core, if w.cut then Failed(ReadFailed) else if h.core.done then Finished else Poll)
    else State(h.core, w)
  }

  /** The wait for an acknowledgement ran out. */
  function AckTimeout(s: Core, w: Mode): State
    requires w.AckWait?
  {
    if s.frameOpen && s.echoed then State(Rewind(s, s.frameAt), Poll)
    else if w.poke >= ACK_POKES then State(s, Failed(NoAck))
    else if s.frameOpen then State(Send(s, TSub([], Q)), w.(poke := w.poke + 1))
    else State(s.(newFrame := true), Poll)
  }

  function EofAgain(s: Core, w: Mode): State
    requires w.EofWait?
  {
    if w.tries + 1 >= MAX_RETRIES then State(s, Failed(NoEofAck))
    else SendEof(s, w.tries + 1, w.limit, w.cut)
  }

  function Limit(c: Conf, m: Mode): nat {
    if m.EofWait? then m.limit else |c.src|
  }

  function OnHeader(c: Conf, m: State, h: Reverse, early: bool): State {
    var r := Handle(Limit(c, m.mode), m.core, h, early);
    match m.mode
    case Poll => r
    case Xon => XonNext(r)
    case AckWait(_, _, _) => AckNext(c, r, m.mode, h.Ack?)
    case EofWait(_, _, _) => EofNext(r, m.mode)
    case _ => m
  }

  function OnQuiet(c: Conf, m: State, n: nat, readable: bool): State {
    match m.mode
    case Poll => Act(c, m.core, n, readable)
    case Xon => State(m.core.(xoff := false), Poll)
    case AckWait(_, _, _) => AckTimeout(m.core, m.mode)
    case EofWait(_, _, _) => EofAgain(m.core, m.mode)
    case _ => m
  }

  function OnBad(m: State): State {
    match m.mode
    case AckWait(_, _, _) => State(m.core, m.mode.(poke := m.mode.poke + 1))
    case EofWait(_, _, _) => EofAgain(m.core, m.mode)
    case _ => m
  }

  function OnFlow(m: State, off: bool): State {
    State(m.core.(xoff := off), if m.mode.Xon? && !off then Poll else m.mode)
  }

  function Next(c: Conf, m: State, e: Event): State {
    if Ended(m.mode) then m
    else
      match e
      case Hdr(h, early) => OnHeader(c, m, h, early)
      case BadHdr => OnBad(m)
      case Flow(off) => OnFlow(m, off)
      case Quiet(n, readable) => OnQuiet(c, m, n, readable)
      case Expired => if m.mode.AckWait? then State(m.core, Failed(NoAck)) else m
      case LinkError => State(m.core, Failed(LinkFailed))
  }

  /** The state after the events `es`. */
  function Run(c: Conf, m: State, es: seq<Event>): State
    decreases |es|
  {
    if es == [] then m else Next(c, Run(c, m, es[..|es| - 1]), es[|es| - 1])
  }

  function Start(c: Conf): State {
    State(Init(c), Poll)
  }

  lemma {:induction false} RunConcat(c: Conf, m: State, a: seq<Event>, b: seq<Event>)
    ensures Run(c, Run(c, m, a), b) == Run(c, m, a + b)
    decreases |b|
  {
    hide Next;
    if b == [] {
      assert a + b == a;
    } else {
      assert (a + b)[..|a + b| - 1] == a + b[..|b| - 1];
      RunConcat(c, m, a, b[..|b| - 1]);
    }
  }

  // ---- what the receiver's ZRINIT allows ----

  function Clamp(maxSubpacket: int): nat {
    if maxSubpacket <= 0 || maxSubpacket > MAX_SUBPACKET then MAX_SUBPACKET
    else if maxSubpacket < MIN_SUBPACKET then MIN_SUBPACKET
    else maxSubpacket
  }

  /** The sender's options and the receiver's buffer size (0: none given) make
      the window and the block limit. */
  method UseReceiverInit(window: nat, maxSubpacket: int, peerBuffer: nat) returns (w: nat, maxBlock: nat)
    requires window >= 1
    ensures 1 <= w <= window && (peerBuffer > 0 ==> w <= peerBuffer)
    ensures w == window || w == peerBuffer
    ensures MIN_SUBPACKET <= maxBlock <= MAX_SUBPACKET
    ensures 32 <= maxSubpacket <= 1024 && (peerBuffer == 0 || maxSubpacket <= peerBuffer) ==> maxBlock == maxSubpacket
    ensures 0 < maxSubpacket < 32 ==> maxBlock == 32
    ensures (maxSubpacket <= 0 || maxSubpacket > 1024) && (peerBuffer == 0 || peerBuffer >= 1024) ==> maxBlock == 1024
    ensures 32 <= peerBuffer < 1024 && !(0 < maxSubpacket <= peerBuffer) ==> maxBlock == peerBuffer
    ensures 0 < peerBuffer < 32 ==> maxBlock == 32
  {
    w := window;
    if peerBuffer > 0 && peerBuffer < w {
      w := peerBuffer;
    }
    maxBlock := Clamp(maxSubpacket);
    if peerBuffer > 0 && maxBlock > peerBuffer {
      maxBlock := Max(MIN_SUBPACKET, peerBuffer);
    }
  }
}
