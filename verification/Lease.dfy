/** The serial port lent to another program and taken back, and the transfer claim.
    The threads of the session server (the read loop, one handler for each connection,
    shutdown) interleave freely; each step is what one of them does between taking and
    leaving a lock, or one call on a port handle. */
module Lease {
  type Handle = nat
  type Conn = nat

  datatype Option<T> = None | Some(value: T)

  // ---- the lease, section by section ----

  /** The fields under the lease's mutex. `gen` counts the idle channels, `done` says
      that the current one is closed. */
  datatype PortLease = PortLease(port: Option<Handle>, released: bool, closed: bool, gen: nat, done: bool)

  datatype Look = Stop | CloseIt(h: Handle) | Park | ReadFrom(p: Option<Handle>)

  /** One turn of waitPort's loop. */
  function LookAt(l: PortLease): Look {
    if l.closed then Stop
    else if l.released then (if l.port.Some? then CloseIt(l.port.value) else Park)
    else ReadFrom(l.port)
  }

  function AfterLook(l: PortLease): PortLease {
    if LookAt(l).CloseIt? then l.(port := None) else l
  }

  function Current(l: PortLease): Option<Handle> {
    if l.closed || l.released then None else l.port
  }

  datatype Retired = Closing | TakeBack(h: Handle) | GoOn

  function Retire(l: PortLease, h: Handle): Retired {
    if l.closed then Closing
    else if !l.released || l.port != Some(h) then GoOn
    else TakeBack(h)
  }

  function FinishIdle(l: PortLease): PortLease {
    l.(done := true)
  }

  datatype Begun = Refused | Already | Wait(gen: nat)

  function BeginRelease(l: PortLease): Begun {
    if l.closed then Refused else if l.released then Already else Wait(l.gen)
  }

  function Install(l: PortLease, h: Handle): PortLease {
    l.(port := Some(h), released := false, gen := l.gen + 1, done := false)
  }

  function Shut(l: PortLease): PortLease {
    l.(closed := true, port := None, done := true)
  }

  /** The idle channel of generation `g` is closed. */
  predicate IdleClosed(l: PortLease, g: nat) {
    g < l.gen || (g == l.gen && l.done)
  }

  // ---- the threads ----

  /** Where the read loop is; `h` is the handle it closes or reads. */
  datatype Reader =
    | AtTop
    | ToClose(h: Handle)
    | ToFinish
    | Parked
    | Reading(h: Handle)
    | Ended

  /** What the connection that holds writeMu is doing. */
  datatype Stage =
    | WriteLocked
    | Writing(h: Handle)
    | ClaimLocked
    | RelLocked
    | RelChecked
    | RelWait(gen: nat)
    | RelMark
    | AcqLocked
    | AcqOpening
    | AcqOpened(h: Handle)
    | AcqDrop(h: Handle)
    | AcqMark

  datatype Holder = Holder(who: Conn, stage: Stage)

  datatype Ending = Up | ToShut(h: Handle) | Down

  /** `allowed`: connections whose chunk has passed the claim's check and not yet been
      written. `marker`: the port.released file. `late`: chunks of each connection written
      since the claim in force was granted. `past`: what is to be remembered of a release
      that gave up waiting. */
  datatype Sys = Sys(
    lease: PortLease, reader: Reader, holder: Option<Holder>, ending: Ending,
    claim: Option<Conn>, allowed: set<Conn>, late: map<Conn, nat>, marker: bool,
    open: set<Handle>, closed: set<Handle>, twice: bool, next: Handle, past: Past)

  /** `doubt`: a release gave up waiting, and neither has the read loop closed all there
      was to close, nor an acquire found it with nothing to close. `unmarked`: one gave up
      and no acquire has opened the port again. `lost`: handles an acquire put another in
      place of, which nothing will close. */
  datatype Past = Past(doubt: bool, unmarked: bool, lost: set<Handle>)

  datatype Move =
    | ReaderMoves
    | ReadFails
    | Allow(c: Conn)
    | LockToWrite(c: Conn)
    | LockToClaim(c: Conn)
    | LockToRelease(c: Conn)
    | LockToAcquire(c: Conn)
    | HolderMoves
    | OpenFails
    | TimesOut
    | DropClaim(c: Conn)
    | ShutDown

  function Start(): Sys {
    Sys(PortLease(Some(0), false, false, 0, false), AtTop, None, Up, None, {}, map[], false, {0}, {}, false, 1, Past(false, false, {}))
  }

  function CloseHandle(s: Sys, h: Handle): Sys {
    s.(open := s.open - {h}, closed := s.closed + {h}, twice := s.twice || h in s.closed)
  }

  function TopStep(s: Sys): Sys {
    var at := match LookAt(s.lease)
              case Stop => Ended
              case CloseIt(h) => ToClose(h)
              case Park => Parked
              case ReadFrom(p) => if p.Some? then Reading(p.value) else Ended;
    s.(lease := AfterLook(s.lease), reader := at)
  }

  /** The read is over, with data or without. */
  function ReadStep(s: Sys, h: Handle): Sys {
    match Retire(s.lease, h)
    case Closing => s.(reader := Ended)
    case TakeBack(_) => s.(lease := s.lease.(port := None), reader := ToClose(h))
    case GoOn => s.(reader := AtTop)
  }

  predicate OnTheWay(r: Reader) {
    r.ToClose? || r.ToFinish?
  }

  /** The idle channel is closed; if the port is released and closed, that is the truth. */
  function Finished(s: Sys): Sys {
    s.(lease := FinishIdle(s.lease), reader := AtTop,
       past := s.past.(doubt := s.past.doubt && !(s.lease.released && s.lease.port.None?)))
  }

  function ReaderStep(s: Sys): Sys {
    match s.reader
    case AtTop => TopStep(s)
    case ToClose(h) => CloseHandle(s, h).(reader := ToFinish)
    case ToFinish => Finished(s)
    case Parked => s.(reader := AtTop)
    case Reading(h) => ReadStep(s, h)
    case Ended => s
  }

  function Unlock(s: Sys): Sys {
    s.(holder := None)
  }

  function To(s: Sys, c: Conn, stage: Stage): Sys {
    s.(holder := Some(Holder(c, stage)))
  }

  predicate MayWrite(s: Sys, c: Conn) {
    s.claim.None? || s.claim == Some(c)
  }

  function LateOf(s: Sys, c: Conn): nat {
    if c in s.late then s.late[c] else 0
  }

  /** A chunk is on the port. */
  function Wrote(s: Sys, c: Conn): Sys {
    s.(late := s.late[c := LateOf(s, c) + 1])
  }

  function TakeClaim(s: Sys, c: Conn): Sys {
    if s.claim.None? then s.(claim := Some(c), late := map[]) else s
  }

  function Releasing(s: Sys, c: Conn): Sys {
    match BeginRelease(s.lease)
    case Refused => Unlock(s)
    case Already => Unlock(s)
    case Wait(g) => To(s.(lease := s.lease.(released := true)), c, RelWait(g))
  }

  /** A reopened port takes the place of whatever port the lease still has. */
  function Installed(s: Sys, h: Handle): Sys {
    s.(lease := Install(s.lease, h),
       past := Past(s.past.doubt && OnTheWay(s.reader), false,
                    s.past.lost + if s.lease.port.Some? then {s.lease.port.value} else {}))
  }

  function GaveUp(s: Sys): Sys {
    Unlock(s).(past := s.past.(doubt := s.past.doubt || !s.lease.done, unmarked := true))
  }

  function HolderStep(s: Sys, c: Conn, stage: Stage): Sys {
    match stage
    case WriteLocked =>
      var p := Current(s.lease);
      if p.Some? then To(s, c, Writing(p.value)) else Unlock(s)
    case Writing(_) => Unlock(Wrote(s, c))
    case ClaimLocked => Unlock(TakeClaim(s, c))
    case RelLocked => if MayWrite(s, c) then To(s, c, RelChecked) else Unlock(s)
    case RelChecked => Releasing(s, c)
    case RelWait(g) => if IdleClosed(s.lease, g) then To(s, c, RelMark) else s
    case RelMark => Unlock(s.(marker := true))
    case AcqLocked => if s.lease.closed || !s.lease.released then Unlock(s) else To(s, c, AcqOpening)
    case AcqOpening => To(s.(open := s.open + {s.next}, next := s.next + 1), c, AcqOpened(s.next))
    case AcqOpened(h) =>
      if s.lease.closed then To(s, c, AcqDrop(h)) else To(Installed(s, h), c, AcqMark)
    case AcqDrop(h) => Unlock(CloseHandle(s, h))
    case AcqMark => Unlock(s.(marker := false))
  }

  function ShutStep(s: Sys): Sys {
    match s.ending
    case Up =>
      var p := s.lease.port;
      s.(lease := Shut(s.lease), ending := if p.Some? then ToShut(p.value) else Down)
    case ToShut(h) => CloseHandle(s, h).(ending := Down)
    case Down => s
  }

  predicate Busy(s: Sys, c: Conn) {
    s.holder.Some? && s.holder.value.who == c
  }

  function Step(s: Sys, m: Move): Sys {
    match m
    case ReaderMoves => ReaderStep(s)
    case ReadFails => if s.reader.Reading? && Retire(s.lease, s.reader.h).GoOn? then s.(reader := Ended) else s
    case Allow(c) => if MayWrite(s, c) && !Busy(s, c) then s.(allowed := s.allowed + {c}) else s
    case LockToWrite(c) =>
      if s.holder.None? && c in s.allowed then To(s.(allowed := s.allowed - {c}), c, WriteLocked) else s
    case LockToClaim(c) => if s.holder.None? && c !in s.allowed then To(s, c, ClaimLocked) else s
    case LockToRelease(c) => if s.holder.None? && c !in s.allowed then To(s, c, RelLocked) else s
    case LockToAcquire(c) => if s.holder.None? && c !in s.allowed then To(s, c, AcqLocked) else s
    case HolderMoves => if s.holder.Some? then HolderStep(s, s.holder.value.who, s.holder.value.stage) else s
    case OpenFails => if s.holder.Some? && s.holder.value.stage.AcqOpening? then Unlock(s) else s
    case TimesOut =>
      if s.holder.Some? && s.holder.value.stage.RelWait? then GaveUp(s) else s
    case DropClaim(c) => if s.claim == Some(c) then s.(claim := None) else s
    case ShutDown => ShutStep(s)
  }

  function Run(s: Sys, ms: seq<Move>): Sys
    decreases |ms|
  {
    if ms == [] then s else Step(Run(s, ms[..|ms| - 1]), ms[|ms| - 1])
  }

  lemma RunOne(s: Sys, ms: seq<Move>, m: Move)
    ensures Run(s, ms + [m]) == Step(Run(s, ms), m)
  {
    assert (ms + [m])[..|ms + [m]| - 1] == ms;
  }
}
