/** What the lease and the claim keep over every interleaving. */
module LeaseSafety {
  import opened Lease

  // ---- handles ----

  /** Where the read loop holds a handle it is about to close; likewise shutdown and
      an acquire. */
  function ReaderSlot(r: Reader): Option<Handle> {
    if r.ToClose? then Some(r.h) else None
  }

  function ShutSlot(e: Ending): Option<Handle> {
    if e.ToShut? then Some(e.h) else None
  }

  function HolderSlot(o: Option<Holder>): Option<Handle> {
    match o
    case None => None
    case Some(Holder(_, AcqOpened(h))) => Some(h)
    case Some(Holder(_, AcqDrop(h))) => Some(h)
    case _ => None
  }

  ghost predicate Alive(s: Sys, p: Option<Handle>) {
    p.Some? ==> p.value in s.open && p.value !in s.closed && p.value < s.next
  }

  predicate Apart(p: Option<Handle>, q: Option<Handle>) {
    p.None? || p != q
  }

  /** Each handle is in one place that may close it, and open as long as it is there. */
  ghost predicate Places(s: Sys, p: Option<Handle>, r: Option<Handle>, t: Option<Handle>, a: Option<Handle>) {
    && Alive(s, p) && Alive(s, r) && Alive(s, t) && Alive(s, a)
    && Apart(p, r) && Apart(p, t) && Apart(p, a) && Apart(r, t) && Apart(r, a) && Apart(t, a)
    && (forall h :: h in s.closed ==> h < s.next)
    && !s.twice
  }

  ghost predicate Handles(s: Sys) {
    && Places(s, s.lease.port, ReaderSlot(s.reader), ShutSlot(s.ending), HolderSlot(s.holder))
    && (s.ending.Up? <==> !s.lease.closed)
  }

  /** The places depend on the three sets and `twice` only. */
  lemma SamePlaces(s: Sys, s2: Sys, p: Option<Handle>, r: Option<Handle>, t: Option<Handle>, a: Option<Handle>)
    requires Places(s, p, r, t, a)
    requires s2.open == s.open && s2.closed == s.closed && s2.next == s.next && s2.twice == s.twice
    ensures Places(s2, p, r, t, a)
    ensures Places(s2, None, r, t, a) && Places(s2, p, None, t, a) && Places(s2, p, r, None, a) && Places(s2, p, r, t, None)
    ensures r.None? ==> Places(s2, None, p, t, a)
    ensures t.None? ==> Places(s2, None, r, p, a)
    ensures Places(s2, a, r, t, None)
  {}

  lemma ClosePlaces(s: Sys, h: Handle, p: Option<Handle>, r: Option<Handle>, t: Option<Handle>, a: Option<Handle>)
    requires Places(s, p, r, t, a)
    ensures r == Some(h) ==> Places(CloseHandle(s, h), p, None, t, a)
    ensures t == Some(h) ==> Places(CloseHandle(s, h), p, r, None, a)
    ensures a == Some(h) ==> Places(CloseHandle(s, h), p, r, t, None)
  {}

  lemma OpenPlaces(s: Sys, p: Option<Handle>, r: Option<Handle>, t: Option<Handle>)
    requires Places(s, p, r, t, None)
    ensures Places(s.(open := s.open + {s.next}, next := s.next + 1), p, r, t, Some(s.next))
  {}

  /** Nothing about handles changes. */
  lemma SameHandles(s: Sys, s2: Sys)
    requires Handles(s)
    requires s2.open == s.open && s2.closed == s.closed && s2.next == s.next && s2.twice == s.twice
    requires s2.lease.port == s.lease.port && s2.lease.closed == s.lease.closed && s2.ending == s.ending
    requires ReaderSlot(s2.reader) == ReaderSlot(s.reader)
    requires HolderSlot(s2.holder) == HolderSlot(s.holder) || HolderSlot(s2.holder).None?
    ensures Handles(s2)
  {
    hide Places;
    SamePlaces(s, s2, s.lease.port, ReaderSlot(s.reader), ShutSlot(s.ending), HolderSlot(s.holder));
  }

  /** The port may pass to the read loop. */
  lemma TakenByReader(s: Sys, s2: Sys)
    requires Handles(s) && ReaderSlot(s.reader).None?
    requires s2 == s.(lease := s2.lease, reader := s2.reader) && s2.lease.closed == s.lease.closed
    requires || (s2.lease.port == s.lease.port && ReaderSlot(s2.reader).None?)
             || (s2.lease.port.None? && ReaderSlot(s2.reader) == s.lease.port)
    ensures Handles(s2)
  {
    hide Places;
    SamePlaces(s, s2, s.lease.port, None, ShutSlot(s.ending), HolderSlot(s.holder));
  }

  lemma ReaderCloses(s: Sys, h: Handle)
    requires Handles(s) && s.reader == ToClose(h)
    ensures Handles(CloseHandle(s, h).(reader := ToFinish))
  {
    hide Places;
    var p, t, a := s.lease.port, ShutSlot(s.ending), HolderSlot(s.holder);
    ClosePlaces(s, h, p, Some(h), t, a);
    SamePlaces(CloseHandle(s, h), CloseHandle(s, h).(reader := ToFinish), p, None, t, a);
  }

  lemma ReaderHandles(s: Sys)
    requires Handles(s)
    ensures Handles(ReaderStep(s))
  {
    hide Handles;
    match s.reader
    case AtTop => TakenByReader(s, TopStep(s));
    case Reading(h) => TakenByReader(s, ReadStep(s, h));
    case ToClose(h) => ReaderCloses(s, h);
    case _ => SameHandles(s, ReaderStep(s));
  }

  lemma Opens(s: Sys, c: Conn)
    requires Handles(s) && s.holder == Some(Holder(c, AcqOpening))
    ensures Handles(HolderStep(s, c, AcqOpening))
  {
    hide Places;
    var p, r, t := s.lease.port, ReaderSlot(s.reader), ShutSlot(s.ending);
    OpenPlaces(s, p, r, t);
    SamePlaces(s.(open := s.open + {s.next}, next := s.next + 1), HolderStep(s, c, AcqOpening), p, r, t, Some(s.next));
  }

  lemma Installs(s: Sys, c: Conn, h: Handle)
    requires Handles(s) && s.holder == Some(Holder(c, AcqOpened(h)))
    ensures Handles(HolderStep(s, c, AcqOpened(h)))
  {
    hide Places;
    SamePlaces(s, HolderStep(s, c, AcqOpened(h)), s.lease.port, ReaderSlot(s.reader), ShutSlot(s.ending), Some(h));
  }

  lemma Drops(s: Sys, c: Conn, h: Handle)
    requires Handles(s) && s.holder == Some(Holder(c, AcqDrop(h)))
    ensures Handles(HolderStep(s, c, AcqDrop(h)))
  {
    hide Places;
    var p, r, t := s.lease.port, ReaderSlot(s.reader), ShutSlot(s.ending);
    ClosePlaces(s, h, p, r, t, Some(h));
    SamePlaces(CloseHandle(s, h), HolderStep(s, c, AcqDrop(h)), p, r, t, None);
  }

  lemma HolderHandles(s: Sys, c: Conn, stage: Stage)
    requires Handles(s) && s.holder == Some(Holder(c, stage))
    ensures Handles(HolderStep(s, c, stage))
  {
    hide Handles;
    match stage
    case AcqOpening => Opens(s, c);
    case AcqOpened(h) => Installs(s, c, h);
    case AcqDrop(h) => Drops(s, c, h);
    case _ => OtherHandles(s, c, stage);
  }

  /** Nothing that matters to handles changes. */
  ghost predicate Calm(s: Sys, s2: Sys) {
    && s2.open == s.open && s2.closed == s.closed && s2.next == s.next && s2.twice == s.twice
    && s2.lease.port == s.lease.port && s2.lease.closed == s.lease.closed && s2.ending == s.ending
    && s2.reader == s.reader && HolderSlot(s2.holder).None?
  }

  lemma WriteCalm(s: Sys, c: Conn, stage: Stage)
    requires stage.WriteLocked? || stage.Writing? || stage.ClaimLocked?
    ensures Calm(s, HolderStep(s, c, stage))
  {
    hide Wrote;
    hide TakeClaim;
    WroteIs(s, c);
    TakeIs(s, c);
  }

  lemma ReleaseCalm(s: Sys, c: Conn, stage: Stage)
    requires stage.RelLocked? || stage.RelChecked? || stage.RelWait? || stage.RelMark?
    requires s.holder == Some(Holder(c, stage))
    ensures Calm(s, HolderStep(s, c, stage))
  {}

  lemma AcquireCalm(s: Sys, c: Conn, stage: Stage)
    requires stage.AcqLocked? || stage.AcqMark?
    ensures Calm(s, HolderStep(s, c, stage))
  {}

  lemma OtherHandles(s: Sys, c: Conn, stage: Stage)
    requires Handles(s) && s.holder == Some(Holder(c, stage))
    requires !stage.AcqOpening? && !stage.AcqOpened? && !stage.AcqDrop?
    ensures Handles(HolderStep(s, c, stage))
  {
    hide Handles;
    hide HolderStep;
    if stage.WriteLocked? || stage.Writing? || stage.ClaimLocked? {
      WriteCalm(s, c, stage);
    } else if stage.AcqLocked? || stage.AcqMark? {
      AcquireCalm(s, c, stage);
    } else {
      ReleaseCalm(s, c, stage);
    }
    SameHandles(s, HolderStep(s, c, stage));
  }

  lemma WroteIs(s: Sys, c: Conn)
    ensures Wrote(s, c) == s.(late := Wrote(s, c).late)
  {}

  lemma TakeIs(s: Sys, c: Conn)
    ensures TakeClaim(s, c) == s.(claim := TakeClaim(s, c).claim, late := TakeClaim(s, c).late)
  {}

  lemma ShutHandles(s: Sys)
    requires Handles(s)
    ensures Handles(ShutStep(s))
  {
    hide Places;
    var s2 := ShutStep(s);
    var p, r, t, a := s.lease.port, ReaderSlot(s.reader), ShutSlot(s.ending), HolderSlot(s.holder);
    match s.ending
    case Up => SamePlaces(s, s2, p, r, t, a);
    case ToShut(h) =>
      ClosePlaces(s, h, p, r, t, a);
      SamePlaces(CloseHandle(s, h), s2, p, r, None, a);
    case Down =>
  }

  lemma StepHandles(s: Sys, m: Move)
    requires Handles(s)
    ensures Handles(Step(s, m))
  {
    hide Handles;
    hide ReaderStep;
    hide HolderStep;
    hide ShutStep;
    match m
    case ReaderMoves => ReaderHandles(s);
    case HolderMoves =>
      if s.holder.Some? {
        HolderHandles(s, s.holder.value.who, s.holder.value.stage);
      }
    case ShutDown => ShutHandles(s);
    case _ => SameHandles(s, Step(s, m));
  }

  lemma StartHandles()
    ensures Handles(Start())
  {}

  lemma {:induction false} RunHandles(ms: seq<Move>)
    ensures Handles(Run(Start(), ms))
    decreases |ms|
  {
    hide Step;
    hide Handles;
    if ms == [] {
      StartHandles();
    } else {
      RunHandles(ms[..|ms| - 1]);
      StepHandles(Run(Start(), ms[..|ms| - 1]), ms[|ms| - 1]);
    }
  }

  /** Over every interleaving, also with releases that time out and with shutdown:
      no handle is closed twice, and none that is in use by the lease is closed. */
  lemma {:induction false} ClosedAtMostOnce(ms: seq<Move>)
    ensures var s := Run(Start(), ms);
            !s.twice && (s.lease.port.Some? ==> s.lease.port.value in s.open && s.lease.port.value !in s.closed)
  {
    hide Run;
    RunHandles(ms);
  }

  // ---- writes, claims and releases ----

  predicate InRelease(stage: Stage) {
    stage.RelChecked? || stage.RelWait? || stage.RelMark?
  }

  /** A write uses the port the lease still has; a release runs only while no other
      connection holds the claim. */
  ghost predicate Locked(s: Sys) {
    s.holder.Some? ==>
      var c, stage := s.holder.value.who, s.holder.value.stage;
      && (stage.Writing? && !s.lease.closed ==> s.lease.port == Some(stage.h) && !s.lease.released)
      && (InRelease(stage) ==> MayWrite(s, c))
      && (stage.RelWait? ==> s.lease.released && stage.gen == s.lease.gen)
      && (stage.AcqOpening? || stage.AcqOpened? ==> s.lease.released || s.lease.closed)
      && (stage.AcqMark? ==> !s.lease.released)
      && (stage.RelMark? ==> s.lease.released)
  }

  lemma StepLocked(s: Sys, m: Move)
    requires Locked(s)
    ensures Locked(Step(s, m))
  {
    hide Wrote;
    hide LateOf;
    match m
    case ReaderMoves => ReaderLocked(s);
    case HolderMoves =>
      if s.holder.Some? {
        HolderLocked(s, s.holder.value.who, s.holder.value.stage);
      }
    case _ =>
  }

  lemma ReaderLocked(s: Sys)
    requires Locked(s)
    ensures Locked(ReaderStep(s))
  {}

  lemma HolderLocked(s: Sys, c: Conn, stage: Stage)
    requires Locked(s) && s.holder == Some(Holder(c, stage))
    ensures Locked(HolderStep(s, c, stage))
  {
    hide Wrote;
    hide TakeClaim;
  }

  lemma {:induction false} RunLocked(ms: seq<Move>)
    ensures Locked(Run(Start(), ms))
    decreases |ms|
  {
    hide Step;
    hide Locked;
    if ms == [] {
      assert Locked(Start()) by {
        StartLocked();
      }
    } else {
      RunLocked(ms[..|ms| - 1]);
      StepLocked(Run(Start(), ms[..|ms| - 1]), ms[|ms| - 1]);
    }
  }

  lemma StartLocked()
    ensures Locked(Start())
  {}

  /** While a chunk is being written, its handle is the one the lease has; the read
      loop is not about to close it, and it is closed by nothing but shutdown. */
  lemma {:induction false} WriteIsUndisturbed(ms: seq<Move>)
    requires var s := Run(Start(), ms); s.holder.Some? && s.holder.value.stage.Writing? && !s.lease.closed
    ensures var s := Run(Start(), ms);
            var h := s.holder.value.stage.h;
            && s.lease.port == Some(h) && h in s.open && h !in s.closed
            && ReaderSlot(s.reader) != Some(h) && !s.lease.released
    ensures var s := Run(Start(), ms);
            var h := s.holder.value.stage.h;
            h in Step(s, ReaderMoves).open
  {
    hide Run;
    RunLocked(ms);
    RunHandles(ms);
  }

  // ---- chunks that arrive late ----

  /** Chunks of `c` that are past the check and not yet written. */
  function Pending(s: Sys, c: Conn): nat {
    if c in s.allowed || (Busy(s, c) && (s.holder.value.stage.WriteLocked? || s.holder.value.stage.Writing?))
    then 1 else 0
  }

  ghost predicate FewLate(s: Sys) {
    && (forall c: Conn :: c in s.allowed ==> !Busy(s, c))
    && (s.claim.Some? ==> forall c: Conn :: s.claim != Some(c) ==> LateOf(s, c) + Pending(s, c) <= 1)
  }

  lemma StepLate(s: Sys, m: Move, c: Conn)
    requires FewLate(s)
    ensures var s2 := Step(s, m);
            && (c in s2.allowed ==> !Busy(s2, c))
            && (s2.claim.Some? && s2.claim != Some(c) ==> LateOf(s2, c) + Pending(s2, c) <= 1)
  {
    hide HolderStep;
    hide ReaderStep;
    hide ShutStep;
    match m
    case ReaderMoves => ReaderLate(s);
    case ShutDown => ShutLate(s);
    case HolderMoves =>
      if s.holder.Some? {
        HolderLate(s, s.holder.value.who, s.holder.value.stage, c);
      }
    case _ =>
  }

  ghost predicate SameLate(s: Sys, s2: Sys) {
    s2.claim == s.claim && s2.allowed == s.allowed && s2.late == s.late && s2.holder == s.holder
  }

  lemma ReaderLate(s: Sys)
    ensures SameLate(s, ReaderStep(s))
  {}

  lemma ShutLate(s: Sys)
    ensures SameLate(s, ShutStep(s))
  {}

  lemma ReleasingLate(s: Sys, w: Conn)
    ensures var s2 := Releasing(s, w);
            && s2.claim == s.claim && s2.allowed == s.allowed && s2.late == s.late
            && (s2.holder.None? || (s2.holder.value.who == w && s2.holder.value.stage.RelWait?))
  {}

  /** The steps that neither write nor claim. */
  ghost predicate Aside(s: Sys, s2: Sys, w: Conn) {
    && s2.claim == s.claim && s2.allowed == s.allowed && s2.late == s.late
    && (s2.holder.Some? ==> s2.holder.value.who == w && !s2.holder.value.stage.WriteLocked?
                            && !s2.holder.value.stage.Writing?)
  }

  lemma ReleaseAside(s: Sys, w: Conn, stage: Stage)
    requires s.holder == Some(Holder(w, stage))
    requires stage.RelLocked? || stage.RelChecked? || stage.RelWait? || stage.RelMark?
    ensures Aside(s, HolderStep(s, w, stage), w)
  {
    hide Releasing;
    ReleasingLate(s, w);
  }

  lemma AcquireAside(s: Sys, w: Conn, stage: Stage)
    requires s.holder == Some(Holder(w, stage))
    requires stage.AcqLocked? || stage.AcqOpening? || stage.AcqOpened? || stage.AcqDrop? || stage.AcqMark?
    ensures Aside(s, HolderStep(s, w, stage), w)
  {
    hide CloseHandle;
    hide Install;
    if stage.AcqDrop? {
      CloseLate(s, stage.h);
    }
  }

  lemma AsideLate(s: Sys, s2: Sys, w: Conn, stage: Stage, c: Conn)
    requires FewLate(s) && s.holder == Some(Holder(w, stage)) && Aside(s, s2, w)
    ensures c in s2.allowed ==> !Busy(s2, c)
    ensures s2.claim.Some? && s2.claim != Some(c) ==> LateOf(s2, c) + Pending(s2, c) <= 1
  {
    assert Busy(s, w);
  }

  lemma WriteLate(s: Sys, w: Conn, stage: Stage, c: Conn)
    requires FewLate(s) && s.holder == Some(Holder(w, stage))
    requires stage.WriteLocked? || stage.Writing? || stage.ClaimLocked?
    ensures var s2 := HolderStep(s, w, stage);
            && (c in s2.allowed ==> !Busy(s2, c))
            && (s2.claim.Some? && s2.claim != Some(c) ==> LateOf(s2, c) + Pending(s2, c) <= 1)
  {
    assert Busy(s, w);
  }

  lemma HolderLate(s: Sys, w: Conn, stage: Stage, c: Conn)
    requires FewLate(s) && s.holder == Some(Holder(w, stage))
    ensures var s2 := HolderStep(s, w, stage);
            && (c in s2.allowed ==> !Busy(s2, c))
            && (s2.claim.Some? && s2.claim != Some(c) ==> LateOf(s2, c) + Pending(s2, c) <= 1)
  {
    hide HolderStep;
    hide FewLate;
    hide Aside;
    hide Pending;
    if stage.WriteLocked? || stage.Writing? || stage.ClaimLocked? {
      WriteLate(s, w, stage, c);
    } else {
      if stage.RelLocked? || stage.RelChecked? || stage.RelWait? || stage.RelMark? {
        ReleaseAside(s, w, stage);
      } else {
        AcquireAside(s, w, stage);
      }
      AsideLate(s, HolderStep(s, w, stage), w, stage, c);
    }
  }

  lemma CloseLate(s: Sys, h: Handle)
    ensures SameLate(s, CloseHandle(s, h))
  {}

  lemma {:induction false} RunLate(ms: seq<Move>)
    ensures FewLate(Run(Start(), ms))
    decreases |ms|
  {
    hide Step;
    if ms != [] {
      var n := |ms| - 1;
      RunLate(ms[..n]);
      var s := Run(Start(), ms[..n]);
      forall c: Conn
        ensures var s2 := Step(s, ms[n]);
                && (c in s2.allowed ==> !Busy(s2, c))
                && (s2.claim.Some? && s2.claim != Some(c) ==> LateOf(s2, c) + Pending(s2, c) <= 1)
      {
        StepLate(s, ms[n], c);
      }
    }
  }

  /** After a claim is granted, each other connection gets at most one more chunk to
      the port while the claim is held. */
  lemma {:induction false} AtMostOneLateChunk(ms: seq<Move>, c: Conn)
    requires var s := Run(Start(), ms); s.claim.Some? && s.claim != Some(c)
    ensures LateOf(Run(Start(), ms), c) <= 1
  {
    hide Run;
    RunLate(ms);
  }
}
