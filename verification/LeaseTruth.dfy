/** What a client may believe after a release, and when it may not. */
module LeaseTruth {
  import opened Lease
  import opened LeaseSafety

  predicate Waiting(s: Sys) {
    s.holder.Some? && s.holder.value.stage.RelWait?
  }

  /** Every open handle is in its place or lost, and not both. */
  ghost predicate Accounted(s: Sys) {
    && (forall h :: h in s.open ==>
          || s.lease.port == Some(h) || ReaderSlot(s.reader) == Some(h)
          || ShutSlot(s.ending) == Some(h) || HolderSlot(s.holder) == Some(h) || h in s.past.lost)
    && (forall h :: h in s.past.lost ==>
          && h < s.next && s.lease.port != Some(h) && ReaderSlot(s.reader) != Some(h)
          && ShutSlot(s.ending) != Some(h) && HolderSlot(s.holder) != Some(h))
  }

  /** What the lease's flags say is so. */
  ghost predicate FlagsTrue(s: Sys) {
    && (OnTheWay(s.reader) ==> Waiting(s) && s.lease.released && s.lease.port.None? && !s.lease.done)
    && (s.lease.released && !Waiting(s) ==> s.lease.done)
    && (s.lease.done ==> s.lease.port.None? && s.lease.released)
    && (!s.lease.released ==> s.lease.port.Some?)
    && (s.lease.released && !s.lease.done ==> s.lease.port.Some? || OnTheWay(s.reader))
  }

  /** In doubt there is something that is not closed, or not yet said to be. */
  ghost predicate FlagsOk(s: Sys) {
    !s.lease.closed ==>
      if s.past.doubt then
        (s.lease.released ==> s.lease.port.Some? || OnTheWay(s.reader)) && (!s.lease.released ==> s.lease.port.Some?)
      else FlagsTrue(s)
  }

  /** A change of the marker is under way. */
  predicate Marking(s: Sys) {
    s.holder.Some? && (s.holder.value.stage.RelWait? || s.holder.value.stage.RelMark? || s.holder.value.stage.AcqMark?)
  }

  /** The marker is right but after a release that gave up. */
  ghost predicate MarkerOk(s: Sys) {
    && (s.past.unmarked ==> s.lease.released && !Marking(s))
    && (!Marking(s) ==> s.marker == (s.lease.released && !s.past.unmarked))
    && (Waiting(s) ==> !s.marker)
  }

  ghost predicate Honest(s: Sys) {
    Accounted(s) && FlagsOk(s) && MarkerOk(s)
  }

  // ---- the read loop ----

  lemma TopHonest(s: Sys)
    requires Honest(s) && s.reader.AtTop?
    ensures Honest(TopStep(s))
  {}

  lemma ReadHonest(s: Sys, h: Handle)
    requires Honest(s) && s.reader == Reading(h)
    ensures Honest(ReadStep(s, h))
  {}

  lemma CloseHonest(s: Sys, h: Handle)
    requires Honest(s) && s.reader == ToClose(h)
    ensures Honest(CloseHandle(s, h).(reader := ToFinish))
  {}

  lemma RestHonest(s: Sys)
    requires Honest(s) && (s.reader.ToFinish? || s.reader.Parked? || s.reader.Ended?)
    ensures Honest(ReaderStep(s))
  {}

  lemma ReaderHonest(s: Sys)
    requires Honest(s)
    ensures Honest(ReaderStep(s))
  {
    hide Honest;
    match s.reader
    case AtTop => TopHonest(s);
    case Reading(h) => ReadHonest(s, h);
    case ToClose(h) => CloseHonest(s, h);
    case _ => RestHonest(s);
  }

  // ---- the holder of writeMu ----

  lemma WriteHonest(s: Sys, c: Conn, stage: Stage)
    requires Honest(s) && s.holder == Some(Holder(c, stage))
    requires stage.WriteLocked? || stage.Writing? || stage.ClaimLocked?
    ensures Honest(HolderStep(s, c, stage))
  {
    hide Wrote;
    hide TakeClaim;
    WroteIs(s, c);
    TakeIs(s, c);
  }

  lemma ReleaseHonest(s: Sys, c: Conn, stage: Stage)
    requires Honest(s) && Locked(s) && s.holder == Some(Holder(c, stage))
    requires stage.RelLocked? || stage.RelChecked? || stage.RelWait? || stage.RelMark?
    ensures Honest(HolderStep(s, c, stage))
  {}

  lemma GaveUpHonest(s: Sys)
    requires Honest(s) && Locked(s) && Waiting(s)
    ensures Honest(GaveUp(s))
  {}

  lemma AcquireHonest(s: Sys, c: Conn, stage: Stage)
    requires Honest(s) && Locked(s) && s.holder == Some(Holder(c, stage))
    requires stage.AcqLocked? || stage.AcqOpening? || stage.AcqMark?
    ensures Honest(HolderStep(s, c, stage))
  {}

  lemma InstallHonest(s: Sys, c: Conn, h: Handle)
    requires Honest(s) && Locked(s) && Handles(s) && s.holder == Some(Holder(c, AcqOpened(h)))
    ensures Honest(HolderStep(s, c, AcqOpened(h)))
  {}

  lemma DropHonest(s: Sys, c: Conn, h: Handle)
    requires Honest(s) && Locked(s) && s.holder == Some(Holder(c, AcqDrop(h)))
    ensures Honest(HolderStep(s, c, AcqDrop(h)))
  {}

  lemma HolderHonest(s: Sys, c: Conn, stage: Stage)
    requires Honest(s) && Locked(s) && Handles(s) && s.holder == Some(Holder(c, stage))
    ensures Honest(HolderStep(s, c, stage))
  {
    hide Honest;
    hide Handles;
    hide Locked;
    hide HolderStep;
    if stage.WriteLocked? || stage.Writing? || stage.ClaimLocked? {
      WriteHonest(s, c, stage);
    } else if stage.RelLocked? || stage.RelChecked? || stage.RelWait? || stage.RelMark? {
      ReleaseHonest(s, c, stage);
    } else if stage.AcqOpened? {
      InstallHonest(s, c, stage.h);
    } else if stage.AcqDrop? {
      DropHonest(s, c, stage.h);
    } else {
      AcquireHonest(s, c, stage);
    }
  }

  lemma ShutHonest(s: Sys)
    requires Honest(s) && Handles(s)
    ensures Honest(ShutStep(s))
  {
    hide Places;
  }

  /** Taking and leaving the lock, and what the claim and its users do. */
  lemma LockHonest(s: Sys, m: Move)
    requires Honest(s)
    requires !m.ReaderMoves? && !m.HolderMoves? && !m.ShutDown? && !m.TimesOut?
    ensures Honest(Step(s, m))
  {}

  lemma StepHonest(s: Sys, m: Move)
    requires Honest(s) && Locked(s) && Handles(s)
    ensures Honest(Step(s, m))
  {
    hide Handles;
    hide Locked;
    hide Honest;
    hide ReaderStep;
    hide HolderStep;
    hide ShutStep;
    hide GaveUp;
    match m
    case ReaderMoves => ReaderHonest(s);
    case HolderMoves =>
      if s.holder.Some? {
        HolderHonest(s, s.holder.value.who, s.holder.value.stage);
      }
    case ShutDown => ShutHonest(s);
    case TimesOut =>
      if Waiting(s) {
        GaveUpHonest(s);
      }
    case _ => LockHonest(s, m);
  }

  lemma StartHonest()
    ensures Honest(Start())
  {}

  lemma {:induction false} RunHonest(ms: seq<Move>)
    ensures Honest(Run(Start(), ms))
    decreases |ms|
  {
    hide Step;
    hide Honest;
    hide Locked;
    hide Handles;
    if ms == [] {
      StartHonest();
    } else {
      var n := |ms| - 1;
      RunHonest(ms[..n]);
      RunLocked(ms[..n]);
      RunHandles(ms[..n]);
      StepHonest(Run(Start(), ms[..n]), ms[n]);
    }
  }

  /** Nothing that the lease has had is open, but what it has lost, and what an acquire
      has opened and not yet installed. */
  ghost predicate Free(s: Sys) {
    forall h :: h in s.open ==> HolderSlot(s.holder) == Some(h) || h in s.past.lost
  }

  /** A released port is closed exactly when there is no doubt left of a release that gave
      up, or the read loop has only to say so; while the session is not closing and no release
      is waiting. So after a release that answered OK, the first or a repeated one, the other
      program can have the port. */
  lemma {:induction false} ReleasedIsFree(ms: seq<Move>)
    requires var s := Run(Start(), ms); !s.lease.closed && s.lease.released && !Waiting(s)
    ensures var s := Run(Start(), ms);
            && (Free(s) <==> !s.past.doubt || (s.lease.port.None? && s.reader.ToFinish?))
            && (!s.past.doubt ==> s.lease.port.None? && s.lease.done && !OnTheWay(s.reader))
  {
    hide Run;
    RunHonest(ms);
    RunHandles(ms);
    var s := Run(Start(), ms);
    if s.lease.port.Some? {
      assert s.lease.port.value in s.open;
    }
    if s.reader.ToClose? {
      assert s.reader.h in s.open;
    }
  }

  lemma {:induction false} NothingForgotten(ms: seq<Move>)
    requires TimesOut !in ms
    ensures var s := Run(Start(), ms); s.past == Past(false, false, {})
    decreases |ms|
  {
    hide Step;
    hide Honest;
    if ms != [] {
      var n := |ms| - 1;
      NothingForgotten(ms[..n]);
      RunHonest(ms[..n]);
      RunLocked(ms[..n]);
      StepForgets(Run(Start(), ms[..n]), ms[n]);
    }
  }

  lemma StepForgets(s: Sys, m: Move)
    requires Honest(s) && Locked(s) && s.past == Past(false, false, {}) && !m.TimesOut?
    ensures Step(s, m).past == Past(false, false, {})
  {
    hide Accounted;
    hide MarkerOk;
    hide Wrote;
    hide TakeClaim;
    if s.holder.Some? {
      WroteIs(s, s.holder.value.who);
      TakeIs(s, s.holder.value.who);
    }
  }

  /** So while no release has timed out, a released port is free, whatever else happens. */
  lemma {:induction false} FreeWithoutTimeouts(ms: seq<Move>, h: Handle)
    requires var s := Run(Start(), ms); !s.lease.closed && s.lease.released && !Waiting(s)
    requires TimesOut !in ms
    ensures var s := Run(Start(), ms); h in s.open ==> HolderSlot(s.holder) == Some(h)
  {
    hide Run;
    NothingForgotten(ms);
    ReleasedIsFree(ms);
  }

  /** Whenever no connection holds writeMu, the marker file says what the lease says,
      exactly unless a release gave up waiting and no acquire has opened the port since;
      shutdown does not change that. */
  lemma {:induction false} MarkerAgrees(ms: seq<Move>)
    requires Run(Start(), ms).holder.None?
    ensures var s := Run(Start(), ms); s.marker == s.lease.released <==> !s.past.unmarked
  {
    hide Run;
    hide Accounted;
    hide FlagsOk;
    RunHonest(ms);
  }

  // ---- claims against releases ----

  /** The port has been asked for, and is not yet closed or not yet said to be. */
  predicate UnderWay(s: Sys) {
    OnTheWay(s.reader) || (s.lease.released && (s.lease.port.Some? || !s.lease.done))
  }

  /** The read loop closes the port only for a release that waits, while no other connection
      holds the claim, if there is no doubt left of a release that gave up. And a claim can
      be granted in the middle of a release exactly if there is, and the port is released or
      being closed. */
  lemma {:induction false} ReleaseAgainstClaim(ms: seq<Move>)
    requires !Run(Start(), ms).lease.closed
    ensures var s := Run(Start(), ms);
            && (OnTheWay(s.reader) && !s.past.doubt ==> Waiting(s) && MayWrite(s, s.holder.value.who))
            && (s.holder.Some? && s.holder.value.stage.ClaimLocked? ==>
                  (UnderWay(s) <==> s.past.doubt && (s.lease.released || OnTheWay(s.reader))))
  {
    hide Run;
    RunHonest(ms);
    RunLocked(ms);
  }

  // ---- a release gets its answer ----

  function ReaderRuns(n: nat): seq<Move> {
    seq(n, _ => ReaderMoves)
  }

  /** How far the read loop is from closing the idle channel. */
  function Distance(s: Sys): nat {
    match s.reader
    case ToFinish => 1
    case ToClose(_) => 2
    case AtTop => 3
    case Parked => 4
    case Reading(h) => if s.lease.port == Some(h) then 3 else 4
    case Ended => 5
  }

  ghost predicate MustFinish(s: Sys) {
    && !s.lease.closed && s.lease.released && !s.reader.Ended?
    && (s.lease.done || s.lease.port.Some? || OnTheWay(s.reader))
  }

  lemma ReaderCloser(s: Sys)
    requires MustFinish(s) && !s.lease.done
    ensures var s2 := ReaderStep(s);
            && s2.lease.gen == s.lease.gen && MustFinish(s2)
            && (s2.lease.done || Distance(s2) < Distance(s))
  {
    hide CloseHandle;
    if s.reader.ToClose? {
      ClosedRest(s, s.reader.h);
    }
  }

  lemma ClosedRest(s: Sys, h: Handle)
    ensures CloseHandle(s, h).lease == s.lease
  {}

  lemma {:induction false} ReaderFinishes(s: Sys, n: nat)
    requires MustFinish(s) && (s.lease.done || Distance(s) <= n)
    ensures exists k :: 0 <= k <= n && Run(s, ReaderRuns(k)).lease.done && Run(s, ReaderRuns(k)).lease.gen == s.lease.gen
    decreases n
  {
    hide ReaderStep;
    hide Run;
    RunNothing(s);
    if s.lease.done {
      assert Run(s, ReaderRuns(0)).lease.done;
    } else if n > 0 {
      ReaderCloser(s);
      ReaderFinishes(ReaderStep(s), n - 1);
      var k :| 0 <= k <= n - 1 && Run(ReaderStep(s), ReaderRuns(k)).lease.done
               && Run(ReaderStep(s), ReaderRuns(k)).lease.gen == s.lease.gen;
      RunShift(s, k);
      assert Run(s, ReaderRuns(k + 1)).lease.done;
    } else {
      assert false;
    }
  }

  lemma RunNothing(s: Sys)
    ensures Run(s, ReaderRuns(0)) == s
  {}

  lemma {:induction false} RunShift(s: Sys, k: nat)
    ensures Run(s, ReaderRuns(k + 1)) == Run(ReaderStep(s), ReaderRuns(k))
    decreases k
  {
    hide ReaderStep;
    assert ReaderRuns(k + 1) == ReaderRuns(k) + [ReaderMoves];
    RunOne(s, ReaderRuns(k), ReaderMoves);
    if k > 0 {
      RunShift(s, k - 1);
      assert ReaderRuns(k) == ReaderRuns(k - 1) + [ReaderMoves];
      RunOne(ReaderStep(s), ReaderRuns(k - 1), ReaderMoves);
    }
  }

  /** A waiting release is answered as soon as the read loop gets to run: after at
      most four of its steps the channel it waits on is closed. */
  lemma {:induction false} ReleaseIsAnswered(ms: seq<Move>)
    requires var s := Run(Start(), ms);
             !s.lease.closed && Waiting(s) && !s.reader.Ended?
    ensures var s := Run(Start(), ms);
            exists k :: 0 <= k <= 4 && IdleClosed(Run(s, ReaderRuns(k)).lease, s.holder.value.stage.gen)
  {
    hide Run;
    RunHonest(ms);
    RunLocked(ms);
    var s := Run(Start(), ms);
    ReaderFinishes(s, 4);
    var k :| 0 <= k <= 4 && Run(s, ReaderRuns(k)).lease.done && Run(s, ReaderRuns(k)).lease.gen == s.lease.gen;
    assert IdleClosed(Run(s, ReaderRuns(k)).lease, s.holder.value.stage.gen);
  }
}
