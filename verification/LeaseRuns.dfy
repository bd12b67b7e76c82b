/** Runs of the lease in which what one would like to be true is not. */
module LeaseRuns {
  import opened Lease

  /** One more step of a run whose state is known. */
  lemma Then(ms: seq<Move>, s: Sys, m: Move, s2: Sys)
    requires Run(Start(), ms) == s && Step(s, m) == s2
    ensures Run(Start(), ms + [m]) == s2
  {
    hide Step;
    RunOne(Start(), ms, m);
  }

  /** The bound on late chunks is reached: a chunk checked just before the claim. */
  lemma OneLateChunkHappens()
    ensures var s := Run(Start(), [Allow(1), LockToClaim(2), HolderMoves, LockToWrite(1), HolderMoves, HolderMoves]);
            s.claim == Some(2) && LateOf(s, 1) == 1
  {
    hide Run;
    var s0 := Start();
    RunNothingYet();
    var s1 := s0.(allowed := {1});
    Then([], s0, Allow(1), s1);
    var s2 := To(s1, 2, ClaimLocked);
    Then([] + [Allow(1)], s1, LockToClaim(2), s2);
    var s3 := s1.(claim := Some(2));
    Then([] + [Allow(1)] + [LockToClaim(2)], s2, HolderMoves, s3);
    var s4 := To(s3.(allowed := {}), 1, WriteLocked);
    Then([] + [Allow(1)] + [LockToClaim(2)] + [HolderMoves], s3, LockToWrite(1), s4);
    var s5 := To(s3.(allowed := {}), 1, Writing(0));
    Then([] + [Allow(1)] + [LockToClaim(2)] + [HolderMoves] + [LockToWrite(1)], s4, HolderMoves, s5);
    var s6 := s3.(allowed := {}, late := map[1 := 1]);
    Then([] + [Allow(1)] + [LockToClaim(2)] + [HolderMoves] + [LockToWrite(1)] + [HolderMoves], s5, HolderMoves, s6);
    assert [] + [Allow(1)] + [LockToClaim(2)] + [HolderMoves] + [LockToWrite(1)] + [HolderMoves] + [HolderMoves]
        == [Allow(1), LockToClaim(2), HolderMoves, LockToWrite(1), HolderMoves, HolderMoves];
  }

  lemma RunNothingYet()
    ensures Run(Start(), []) == Start()
  {}

  /** The lease after a release of connection 1 that gave up while the port is idle. */
  function TimedOut(): Sys {
    Start().(lease := PortLease(Some(0), true, false, 0, false), past := Past(true, true, {}))
  }

  lemma TimesOutOnce() returns (ms: seq<Move>)
    ensures Run(Start(), ms) == TimedOut()
  {
    hide Run;
    var s0 := Start();
    RunNothingYet();
    ms := [];
    var s1 := To(s0, 1, RelLocked);
    Then(ms, s0, LockToRelease(1), s1);
    ms := ms + [LockToRelease(1)];
    var s2 := To(s0, 1, RelChecked);
    Then(ms, s1, HolderMoves, s2);
    ms := ms + [HolderMoves];
    var s3 := To(s0.(lease := s0.lease.(released := true)), 1, RelWait(0));
    Then(ms, s2, HolderMoves, s3);
    ms := ms + [HolderMoves];
    Then(ms, s3, TimesOut, TimedOut());
    ms := ms + [TimesOut];
  }

  /** After a release that timed out the next one finds the port released already and
      answers OK at once, with the handle still open and no marker written. */
  lemma SecondReleaseLies()
    ensures exists ms :: var s := Run(Start(), ms);
              && s.past.doubt && s.lease.released && !s.lease.closed && s.holder.None?
              && s.open == {0} && !s.marker
              && BeginRelease(s.lease).Already?
  {
    hide Run;
    var ms := TimesOutOnce();
    assert Run(Start(), ms) == TimedOut();
  }

  /** And a claim is granted while the port is still to be closed, which then happens
      under the claim. */
  lemma ClosedUnderAClaim()
    ensures exists ms :: var s := Run(Start(), ms);
              && s.claim == Some(2) && s.open == {0} && s.reader == ToClose(0)
              && Step(s, ReaderMoves).claim == Some(2) && Step(s, ReaderMoves).open == {}
  {
    hide Run;
    var ms := TimesOutOnce();
    var t := TimedOut();
    var t1 := To(t, 2, ClaimLocked);
    Then(ms, t, LockToClaim(2), t1);
    ms := ms + [LockToClaim(2)];
    var t2 := t.(claim := Some(2));
    Then(ms, t1, HolderMoves, t2);
    ms := ms + [HolderMoves];
    var t3 := t2.(lease := t2.lease.(port := None), reader := ToClose(0));
    Then(ms, t2, ReaderMoves, t3);
    ms := ms + [ReaderMoves];
    assert Run(Start(), ms) == t3;
    assert {0} - {0} == {};
  }

  /** And an acquire puts a new port in place of the old one, which nothing closes. */
  lemma OldHandleIsLost()
    ensures exists ms :: var s := Run(Start(), ms);
              s.holder.None? && s.lease.port == Some(1) && s.open == {0, 1} && s.past.lost == {0} && !s.past.doubt
  {
    hide Run;
    var ms := TimesOutOnce();
    var t := TimedOut();
    var t1 := To(t, 1, AcqLocked);
    Then(ms, t, LockToAcquire(1), t1);
    ms := ms + [LockToAcquire(1)];
    var t2 := To(t, 1, AcqOpening);
    Then(ms, t1, HolderMoves, t2);
    ms := ms + [HolderMoves];
    var t3 := To(t.(open := {0, 1}, next := 2), 1, AcqOpened(1));
    assert {0} + {1} == {0, 1};
    Then(ms, t2, HolderMoves, t3);
    ms := ms + [HolderMoves];
    assert {} + {0} == {0};
    var t4 := t.(open := {0, 1}, next := 2, lease := PortLease(Some(1), false, false, 1, false), past := Past(false, false, {0}));
    Then(ms, t3, HolderMoves, To(t4, 1, AcqMark));
    ms := ms + [HolderMoves];
    Then(ms, To(t4, 1, AcqMark), HolderMoves, t4);
    ms := ms + [HolderMoves];
    assert Run(Start(), ms) == t4;
  }

  /** Worse: when the read loop closes the old handle only after an acquire has opened
      a new one, it closes the new idle channel, and a later release, with no timeout of its
      own, answers OK while the new handle is open and being read. */
  lemma LateCloseFoolsNextRelease()
    ensures exists ms :: var s := Run(Start(), ms);
              && s.lease.released && !s.lease.closed && s.holder == Some(Holder(1, RelMark))
              && s.lease.port == Some(1) && s.open == {1}
  {
    hide Run;
    var s0 := Start();
    RunNothingYet();
    var ms: seq<Move> := [];
    var s1 := To(s0, 1, RelLocked);
    Then(ms, s0, LockToRelease(1), s1);
    ms := ms + [LockToRelease(1)];
    var s2 := To(s0, 1, RelChecked);
    Then(ms, s1, HolderMoves, s2);
    ms := ms + [HolderMoves];
    var s3 := To(s0.(lease := s0.lease.(released := true)), 1, RelWait(0));
    Then(ms, s2, HolderMoves, s3);
    ms := ms + [HolderMoves];
    var s4 := s3.(lease := s3.lease.(port := None), reader := ToClose(0));
    Then(ms, s3, ReaderMoves, s4);
    ms := ms + [ReaderMoves];
    var s5 := s4.(holder := None, past := Past(true, true, {}));
    Then(ms, s4, TimesOut, s5);
    ms := ms + [TimesOut];
    var s6 := To(s5, 1, AcqLocked);
    Then(ms, s5, LockToAcquire(1), s6);
    ms := ms + [LockToAcquire(1)];
    var s7 := To(s5, 1, AcqOpening);
    Then(ms, s6, HolderMoves, s7);
    ms := ms + [HolderMoves];
    AndAgain(ms, s5);
  }

  /** Reopened while the read loop still has the old handle to close. */
  function Reopened(): Sys {
    Start().(lease := PortLease(Some(1), false, false, 1, false), reader := ToClose(0),
             past := Past(true, false, {}), open := {0, 1}, next := 2)
  }

  function ClosedLate(): Sys {
    Reopened().(lease := PortLease(Some(1), false, false, 1, true), reader := AtTop, open := {1}, closed := {0})
  }

  lemma Reopens(before: seq<Move>, s5: Sys) returns (ms: seq<Move>)
    requires s5 == Start().(lease := PortLease(None, true, false, 0, false), reader := ToClose(0),
                            past := Past(true, true, {}))
    requires Run(Start(), before) == To(s5, 1, AcqOpening)
    ensures Run(Start(), ms) == Reopened()
  {
    hide Run;
    ms := before;
    var t1 := To(s5.(open := {0, 1}, next := 2), 1, AcqOpened(1));
    assert {0} + {1} == {0, 1};
    Then(ms, To(s5, 1, AcqOpening), HolderMoves, t1);
    ms := ms + [HolderMoves];
    var t2 := To(Reopened(), 1, AcqMark);
    Then(ms, t1, HolderMoves, t2);
    ms := ms + [HolderMoves];
    Then(ms, t2, HolderMoves, Reopened());
    ms := ms + [HolderMoves];
  }

  lemma ClosesLate(before: seq<Move>) returns (ms: seq<Move>)
    requires Run(Start(), before) == Reopened()
    ensures Run(Start(), ms) == ClosedLate()
  {
    hide Run;
    ms := before;
    var t := Reopened().(reader := ToFinish, open := {1}, closed := {0});
    assert {0, 1} - {0} == {1};
    assert {} + {0} == {0};
    Then(ms, Reopened(), ReaderMoves, t);
    ms := ms + [ReaderMoves];
    Then(ms, t, ReaderMoves, ClosedLate());
    ms := ms + [ReaderMoves];
  }

  /** The new handle, the late close, the next release. */
  lemma AndAgain(before: seq<Move>, s5: Sys)
    requires s5 == Start().(lease := PortLease(None, true, false, 0, false), reader := ToClose(0),
                            past := Past(true, true, {}))
    requires Run(Start(), before) == To(s5, 1, AcqOpening)
    ensures exists ms :: var s := Run(Start(), ms);
              && s.lease.released && !s.lease.closed && s.holder == Some(Holder(1, RelMark))
              && s.lease.port == Some(1) && s.open == {1}
  {
    hide Run;
    var first := Reopens(before, s5);
    var ms := ClosesLate(first);
    var t5 := ClosedLate();
    var t6 := To(t5, 1, RelLocked);
    Then(ms, t5, LockToRelease(1), t6);
    ms := ms + [LockToRelease(1)];
    var t7 := To(t5, 1, RelChecked);
    Then(ms, t6, HolderMoves, t7);
    ms := ms + [HolderMoves];
    var t8 := To(t5.(lease := t5.lease.(released := true)), 1, RelWait(1));
    Then(ms, t7, HolderMoves, t8);
    ms := ms + [HolderMoves];
    var t9 := To(t5.(lease := t5.lease.(released := true)), 1, RelMark);
    Then(ms, t8, HolderMoves, t9);
    ms := ms + [HolderMoves];
    assert Run(Start(), ms) == t9;
  }
}
