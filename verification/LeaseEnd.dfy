/** The lease from end to end: a release and an acquire with nothing in their way, and
    shutdown. */
module LeaseEnd {
  import opened Lease
  import opened LeaseSafety
  import opened LeaseTruth

  // ---- the read loop goes on ----

  lemma ReaderLoops(s: Sys)
    requires FlagsOk(s) && (s.reader.Ended? ==> s.lease.closed)
    ensures ReaderStep(s).reader.Ended? ==> ReaderStep(s).lease.closed
  {}

  lemma HolderLeavesReader(s: Sys, c: Conn, stage: Stage)
    ensures HolderStep(s, c, stage).reader == s.reader && HolderStep(s, c, stage).lease.closed == s.lease.closed
  {
    hide Wrote;
    hide TakeClaim;
    WroteIs(s, c);
    TakeIs(s, c);
  }

  lemma ReaderGoesOn(s: Sys, m: Move)
    requires FlagsOk(s) && (s.reader.Ended? ==> s.lease.closed) && m != ReadFails
    ensures Step(s, m).reader.Ended? ==> Step(s, m).lease.closed
  {
    hide FlagsOk;
    hide ReaderStep;
    hide HolderStep;
    match m
    case ReaderMoves => ReaderLoops(s);
    case HolderMoves =>
      if s.holder.Some? {
        HolderLeavesReader(s, s.holder.value.who, s.holder.value.stage);
      }
    case _ =>
  }

  /** While no read fails the read loop runs until shutdown, released or not. */
  lemma {:induction false} ReaderEndsByShutdown(ms: seq<Move>)
    requires ReadFails !in ms
    ensures var s := Run(Start(), ms); s.reader.Ended? ==> s.lease.closed
    decreases |ms|
  {
    hide Step;
    hide Accounted;
    hide FlagsOk;
    hide MarkerOk;
    if ms == [] {
      StartReads();
    } else {
      var n := |ms| - 1;
      ReaderEndsByShutdown(ms[..n]);
      RunHonest(ms[..n]);
      ReaderGoesOn(Run(Start(), ms[..n]), ms[n]);
    }
  }

  lemma StartReads()
    ensures !Start().reader.Ended?
  {}

  /** A read that fails ends it, unless the port is being released or the session shut
      down: then the failure was meant, and the loop goes on to what was asked for. */
  lemma FailedRead(s: Sys, h: Handle)
    requires s.reader == Reading(h)
    ensures var meant := s.lease.closed || (s.lease.released && s.lease.port == Some(h));
            Step(s, ReadFails) == if meant then s else s.(reader := Ended)
  {}

  // ---- shutdown ----

  lemma ThreeMoves(s: Sys)
    ensures Run(s, ReaderRuns(3)) == ReaderStep(ReaderStep(ReaderStep(s)))
  {
    hide ReaderStep;
    RunShift(s, 2);
    RunShift(ReaderStep(s), 1);
    RunShift(ReaderStep(ReaderStep(s)), 0);
    RunNothing(ReaderStep(ReaderStep(ReaderStep(s))));
  }

  lemma ClosedReader(s: Sys)
    requires s.lease.closed
    ensures var r := ReaderStep(s);
            && r.lease.closed && r.lease.port == s.lease.port && r.holder == s.holder
            && (match s.reader
                case ToClose(h) => r.reader.ToFinish? && r.open == s.open - {h}
                case ToFinish => r.reader.AtTop? && r.open == s.open
                case Parked => r.reader.AtTop? && r.open == s.open
                case _ => r.reader.Ended? && r.open == s.open)
  {}

  /** After shutdown the read loop ends within three steps, closing what it has still
      to close. */
  lemma {:induction false} ShutdownEndsReader(s: Sys)
    requires s.lease.closed
    ensures var r := Run(s, ReaderRuns(3));
            r.reader.Ended? && r.lease.closed && r.open == (if s.reader.ToClose? then s.open - {s.reader.h} else s.open)
  {
    hide ReaderStep;
    hide Run;
    ThreeMoves(s);
    ClosedReader(s);
    ClosedReader(ReaderStep(s));
    ClosedReader(ReaderStep(ReaderStep(s)));
  }

  lemma StepClosed(s: Sys, m: Move)
    requires s.lease.closed && s.lease.port.None? && s.lease.done
    ensures var r := Step(s, m).lease; r.closed && r.port.None? && r.done
    ensures Step(s, m).lease.released == s.lease.released
  {
    hide Wrote;
    hide TakeClaim;
    if s.holder.Some? {
      WroteIs(s, s.holder.value.who);
      TakeIs(s, s.holder.value.who);
    }
  }

  ghost predicate Shutting(s: Sys) {
    s.lease.closed ==> s.lease.port.None? && s.lease.done
  }

  lemma StepShutting(s: Sys, m: Move)
    requires Shutting(s)
    ensures Shutting(Step(s, m))
  {
    hide Wrote;
    hide TakeClaim;
    if s.lease.closed {
      StepClosed(s, m);
    } else if s.holder.Some? {
      WroteIs(s, s.holder.value.who);
      TakeIs(s, s.holder.value.who);
    }
  }

  lemma {:induction false} RunShutting(ms: seq<Move>)
    ensures Shutting(Run(Start(), ms))
    decreases |ms|
  {
    hide Step;
    if ms != [] {
      RunShutting(ms[..|ms| - 1]);
      StepShutting(Run(Start(), ms[..|ms| - 1]), ms[|ms| - 1]);
    }
  }

  /** Shutdown is for good: the port is neither released nor opened again, and a release
      that waits is answered at once. */
  lemma {:induction false} ShutdownIsFinal(ms: seq<Move>, more: seq<Move>)
    requires Run(Start(), ms).lease.closed
    ensures var s, r := Run(Start(), ms), Run(Start(), ms + more);
            && r.lease.closed && r.lease.port.None? && r.lease.released == s.lease.released
            && (Waiting(r) ==> IdleClosed(r.lease, r.holder.value.stage.gen))
    decreases |more|
  {
    hide Step;
    RunShutting(ms + more);
    RunLocked(ms + more);
    if more == [] {
      assert ms + more == ms;
    } else {
      var n := |more| - 1;
      ShutdownIsFinal(ms, more[..n]);
      assert ms + more == ms + more[..n] + [more[n]];
      RunOne(Start(), ms + more[..n], more[n]);
      RunShutting(ms + more[..n]);
      StepClosed(Run(Start(), ms + more[..n]), more[n]);
    }
  }

  /** When all threads have come to their end, nothing of the lease is open but what an
      acquire has put another handle in place of. */
  lemma {:induction false} ShutdownFrees(ms: seq<Move>, h: Handle)
    requires var s := Run(Start(), ms); s.ending.Down? && s.reader.Ended? && s.holder.None?
    ensures var s := Run(Start(), ms); h in s.open ==> h in s.past.lost
  {
    hide Run;
    RunHonest(ms);
    RunHandles(ms);
    RunShutting(ms);
  }

  /** Shutdown takes two steps: it takes the handle out of the lease, and closes it. */
  lemma ShutdownCloses(ms: seq<Move>)
    requires !Run(Start(), ms).lease.closed
    ensures var s, r := Run(Start(), ms), Run(Start(), ms + [ShutDown] + [ShutDown]);
            && r.ending.Down? && r.lease.closed && r.lease.port.None?
            && r.open == (if s.lease.port.Some? then s.open - {s.lease.port.value} else s.open)
  {
    RunOne(Start(), ms, ShutDown);
    RunOne(Start(), ms + [ShutDown], ShutDown);
    RunHandles(ms);
    hide Run;
    hide Places;
  }

  // ---- release and acquire ----

  /** The port is open and being read, nobody holds writeMu, and `c` may release. */
  predicate Usual(s: Sys, c: Conn, h: Handle) {
    && s.lease == PortLease(Some(h), false, false, s.lease.gen, false) && s.reader == Reading(h)
    && s.holder.None? && MayWrite(s, c) && c !in s.allowed
  }

  function ReleaseMoves(c: Conn): seq<Move> {
    [LockToRelease(c), HolderMoves, HolderMoves, ReaderMoves, ReaderMoves, ReaderMoves, HolderMoves, HolderMoves]
  }

  /** A release on its own: the read that goes on returns, the read loop closes the handle
      and says so, and the client is answered with the port closed and marked. */
  lemma ReleaseAlone(s: Sys, c: Conn, h: Handle)
    requires Usual(s, c, h)
    ensures var l := s.lease;
            Run(s, ReleaseMoves(c)) ==
            s.(lease := PortLease(None, true, false, l.gen, true), reader := AtTop, marker := true,
               open := s.open - {h}, closed := s.closed + {h}, twice := s.twice || h in s.closed,
               past := s.past.(doubt := false))
  {
    var l := s.lease;
    var a1 := To(s, c, RelLocked);
    var a2 := To(s, c, RelChecked);
    var a3 := To(s.(lease := l.(released := true)), c, RelWait(l.gen));
    var a4 := a3.(lease := a3.lease.(port := None), reader := ToClose(h));
    var a5 := CloseHandle(a4, h).(reader := ToFinish);
    var a6 := a5.(lease := a5.lease.(done := true), reader := AtTop, past := s.past.(doubt := false));
    var a7 := To(a6, c, RelMark);
    hide Step;
    BeginsAlone(s, c, h);
    ClosesAlone(a3, c, h);
    MarksAlone(a6, c);
    EightSteps(s, ReleaseMoves(c), a1, a2, a3, a4, a5, a6, a7, a6.(holder := None, marker := true));
  }

  lemma BeginsAlone(s: Sys, c: Conn, h: Handle)
    requires Usual(s, c, h)
    ensures Step(s, LockToRelease(c)) == To(s, c, RelLocked) && Step(To(s, c, RelLocked), HolderMoves) == To(s, c, RelChecked)
    ensures Step(To(s, c, RelChecked), HolderMoves) == To(s.(lease := s.lease.(released := true)), c, RelWait(s.lease.gen))
  {}

  lemma MarksAlone(s: Sys, c: Conn)
    ensures Step(To(s, c, RelMark), HolderMoves) == s.(holder := None, marker := true)
  {}

  /** The read returns, and the handle is closed. */
  lemma ClosesAlone(a3: Sys, c: Conn, h: Handle)
    requires a3.reader == Reading(h) && a3.lease == PortLease(Some(h), true, false, a3.lease.gen, false)
    requires a3.holder == Some(Holder(c, RelWait(a3.lease.gen)))
    ensures var a4 := a3.(lease := a3.lease.(port := None), reader := ToClose(h));
            var a5 := CloseHandle(a4, h).(reader := ToFinish);
            var a6 := a5.(lease := a5.lease.(done := true), reader := AtTop, past := a3.past.(doubt := false));
            && Step(a3, ReaderMoves) == a4 && Step(a4, ReaderMoves) == a5 && Step(a5, ReaderMoves) == a6
            && Step(a6, HolderMoves) == To(a6, c, RelMark)
  {}

  lemma EightSteps(s: Sys, ms: seq<Move>, a1: Sys, a2: Sys, a3: Sys, a4: Sys, a5: Sys, a6: Sys, a7: Sys, a8: Sys)
    requires |ms| == 8 && Step(s, ms[0]) == a1 && Step(a1, ms[1]) == a2 && Step(a2, ms[2]) == a3 && Step(a3, ms[3]) == a4
    requires Step(a4, ms[4]) == a5 && Step(a5, ms[5]) == a6 && Step(a6, ms[6]) == a7 && Step(a7, ms[7]) == a8
    ensures Run(s, ms) == a8
  {
    hide Step;
    assert ms[..0] == [] && ms[..8] == ms;
    forall i | 0 <= i < 8
      ensures ms[..i + 1] == ms[..i] + [ms[i]]
    {
    }
    RunOne(s, ms[..0], ms[0]);
    RunOne(s, ms[..1], ms[1]);
    RunOne(s, ms[..2], ms[2]);
    RunOne(s, ms[..3], ms[3]);
    RunOne(s, ms[..4], ms[4]);
    RunOne(s, ms[..5], ms[5]);
    RunOne(s, ms[..6], ms[6]);
    RunOne(s, ms[..7], ms[7]);
    assert Run(s, []) == s;
  }

  function AcquireMoves(c: Conn): seq<Move> {
    [LockToAcquire(c), HolderMoves, HolderMoves, HolderMoves, HolderMoves]
  }

  /** An acquire on its own, after that: a new handle is the port, the marker is gone, and
      releases wait on a new channel. */
  lemma AcquireAlone(s: Sys, c: Conn)
    requires s.lease.released && !s.lease.closed && s.lease.port.None? && s.holder.None? && c !in s.allowed
    requires !OnTheWay(s.reader) && s.past == Past(false, false, s.past.lost)
    ensures var r := Run(s, AcquireMoves(c));
            r == s.(lease := PortLease(Some(s.next), false, false, s.lease.gen + 1, false), marker := false,
                    open := s.open + {s.next}, next := s.next + 1)
  {
    var a1 := To(s, c, AcqLocked);
    var a2 := To(s, c, AcqOpening);
    var reopened := s.(open := s.open + {s.next}, next := s.next + 1);
    var a3 := To(reopened, c, AcqOpened(s.next));
    var usual := reopened.(lease := PortLease(Some(s.next), false, false, s.lease.gen + 1, false));
    var a4 := To(usual, c, AcqMark);
    assert Step(s, LockToAcquire(c)) == a1;
    assert Step(a1, HolderMoves) == a2 && Step(a2, HolderMoves) == a3;
    InstallAlone(a3, c, s.next);
    assert Step(a4, HolderMoves) == usual.(marker := false);
    hide Step;
    FiveSteps(s, AcquireMoves(c), a1, a2, a3, a4, usual.(marker := false));
  }

  lemma InstallAlone(s: Sys, c: Conn, h: Handle)
    requires s.holder == Some(Holder(c, AcqOpened(h))) && !s.lease.closed && s.lease.port.None?
    requires !OnTheWay(s.reader) && s.past == Past(false, false, s.past.lost)
    ensures Step(s, HolderMoves) == To(s.(lease := PortLease(Some(h), false, false, s.lease.gen + 1, false)), c, AcqMark)
  {
    assert s.past.lost + {} == s.past.lost;
  }

  lemma FiveSteps(s: Sys, ms: seq<Move>, a1: Sys, a2: Sys, a3: Sys, a4: Sys, a5: Sys)
    requires |ms| == 5 && Step(s, ms[0]) == a1 && Step(a1, ms[1]) == a2 && Step(a2, ms[2]) == a3
    requires Step(a3, ms[3]) == a4 && Step(a4, ms[4]) == a5
    ensures Run(s, ms) == a5
  {
    hide Step;
    assert ms[..0] == [] && ms[..5] == ms;
    forall i | 0 <= i < 5
      ensures ms[..i + 1] == ms[..i] + [ms[i]]
    {
    }
    RunOne(s, ms[..0], ms[0]);
    RunOne(s, ms[..1], ms[1]);
    RunOne(s, ms[..2], ms[2]);
    RunOne(s, ms[..3], ms[3]);
    RunOne(s, ms[..4], ms[4]);
    assert Run(s, []) == s;
  }

  /** An acquire whose opening fails leaves everything as it was: the port is still
      released, and another may try. */
  lemma AcquireFails(s: Sys, c: Conn)
    requires s.lease.released && !s.lease.closed && s.holder.None? && c !in s.allowed
    ensures Run(s, [LockToAcquire(c), HolderMoves, OpenFails]) == s
  {
    var a1 := To(s, c, AcqLocked);
    var a2 := To(s, c, AcqOpening);
    assert Step(s, LockToAcquire(c)) == a1;
    assert Step(a1, HolderMoves) == a2;
    assert Step(a2, OpenFails) == s;
    hide Step;
    var ms := [LockToAcquire(c), HolderMoves, OpenFails];
    assert ms[..2][..1] == [LockToAcquire(c)] && ms[..2][1] == HolderMoves;
    RunOne(s, [], LockToAcquire(c));
    assert [] + [LockToAcquire(c)] == [LockToAcquire(c)];
    RunOne(s, [LockToAcquire(c)], HolderMoves);
    RunOne(s, [LockToAcquire(c)] + [HolderMoves], OpenFails);
    assert [LockToAcquire(c)] + [HolderMoves] + [OpenFails] == ms;
  }

  // ---- the claim ----

  /** A claim is granted to who holds writeMu for it, if it is free, and kept until it is
      dropped; a chunk of another connection is let through only while it is not. */
  lemma ClaimExactly(s: Sys, m: Move)
    ensures Step(s, m).claim ==
            if m.HolderMoves? && s.holder.Some? && s.holder.value.stage.ClaimLocked? && s.claim.None?
            then Some(s.holder.value.who)
            else if m.DropClaim? && s.claim == Some(m.c) then None
            else s.claim
    ensures forall c: Conn :: c in Step(s, m).allowed && c !in s.allowed ==> m == Allow(c) && MayWrite(s, c)
    ensures forall c: Conn :: m == Allow(c) && MayWrite(s, c) && !Busy(s, c) ==> c in Step(s, m).allowed
  {
    hide Wrote;
    if s.holder.Some? {
      WroteIs(s, s.holder.value.who);
    }
  }
}
