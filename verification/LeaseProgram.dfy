/** The objects whose fields the mutexes guard: each method is what one thread does
    while it holds the mutex, proved to be the step the machine of Lease.dfy takes. */
module LeaseProgram {
  import opened Lease

  class LeaseObject {
    var port: Option<Handle>
    var released: bool
    var closed: bool
    var gen: nat
    var done: bool

    function View(): PortLease
      reads this
    {
      PortLease(port, released, closed, gen, done)
    }

    constructor (h: Handle)
      ensures View() == PortLease(Some(h), false, false, 0, false)
    {
      port, released, closed, gen, done := Some(h), false, false, 0, false;
    }

    /** One turn of the read loop's wait: which handle to read or to close, or none. */
    method WaitPort() returns (r: Look)
      modifies this`port
      ensures r == LookAt(old(View())) && View() == AfterLook(old(View()))
      ensures r.CloseIt? ==> old(port) == Some(r.h) && port.None?
    {
      if closed {
        return Stop;
      }
      if released {
        if port.Some? {
          var h := port.value;
          port := None;
          return CloseIt(h);
        }
        return Park;
      }
      r := ReadFrom(port);
    }

    /** The port to write to. */
    method CurrentPort() returns (p: Option<Handle>)
      ensures p == Current(View())
      ensures p.Some? ==> p == port && !closed && !released
    {
      if closed || released {
        return None;
      }
      p := port;
    }

    /** A read of `h` has returned. */
    method RetirePort(h: Handle) returns (r: Retired)
      modifies this`port
      ensures r == Retire(old(View()), h)
      ensures View() == if r.TakeBack? then old(View()).(port := None) else old(View())
    {
      if closed {
        return Closing;
      }
      if !released || port != Some(h) {
        return GoOn;
      }
      port := None;
      r := TakeBack(h);
    }

    /** The idle channel is closed once. */
    method Finish() returns (first: bool)
      modifies this`done
      ensures View() == FinishIdle(old(View())) && first == !old(done)
    {
      if done {
        return false;
      }
      done := true;
      first := true;
    }

    method StartRelease() returns (r: Begun)
      modifies this`released
      ensures r == BeginRelease(old(View()))
      ensures View() == if r.Wait? then old(View()).(released := true) else old(View())
    {
      if closed {
        return Refused;
      }
      if released {
        return Already;
      }
      released := true;
      r := Wait(gen);
    }

    /** A reopened port, unless the session closed meanwhile. */
    method TakePort(h: Handle) returns (ok: bool)
      modifies this
      ensures ok == !old(closed)
      ensures View() == if ok then Install(old(View()), h) else old(View())
    {
      if closed {
        return false;
      }
      port, released, gen, done := Some(h), false, gen + 1, false;
      ok := true;
    }

    /** Shutdown; the handle to close comes back, but only to the first caller. */
    method Close() returns (p: Option<Handle>)
      modifies this
      ensures p == if old(closed) then None else old(port)
      ensures View() == if old(closed) then old(View()) else Shut(old(View()))
    {
      if closed {
        return None;
      }
      closed := true;
      p := port;
      port := None;
      var first := Finish();
    }
  }

  class ClaimObject {
    var owner: Option<Conn>

    constructor ()
      ensures owner.None?
    {
      owner := None;
    }

    method Take(c: Conn) returns (ok: bool)
      modifies this
      ensures ok == (old(owner).None? || old(owner) == Some(c))
      ensures owner == if ok then Some(c) else old(owner)
      ensures forall s: Sys :: s.claim == old(owner) ==> TakeClaim(s, c).claim == owner && ok == MayWrite(s, c)
    {
      if owner.Some? && owner != Some(c) {
        return false;
      }
      owner := Some(c);
      ok := true;
    }

    method Release(c: Conn)
      modifies this
      ensures owner == if old(owner) == Some(c) then None else old(owner)
      ensures forall s: Sys :: s.claim == old(owner) ==> Step(s, DropClaim(c)).claim == owner
    {
      if owner == Some(c) {
        owner := None;
      }
    }

    method Allows(c: Conn) returns (ok: bool)
      ensures ok == (owner.None? || owner == Some(c))
      ensures forall s: Sys :: s.claim == owner ==> ok == MayWrite(s, c)
    {
      ok := owner.None? || owner == Some(c);
    }
  }
}
