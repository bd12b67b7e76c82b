/** What a session does to the files that are there, told by policy and option: which
    stay, which are replaced, and where the data goes otherwise. */
module ResumePolicy {
  import opened Crc
  import opened Sender
  import opened Resume
  import R = Receiver

  // ---- what the user or the sender wants ----

  /** The user's policy decides; without one the sender's option does, if it has one. */
  predicate Replaces(src: seq<byte>, have: seq<byte>, s: Session) {
    match s.policy
    case Some(p) => p.Overwrite?
    case None =>
      match s.offer.management
      case Clobber => true
      case IfNewer => s.offer.newer
      case NewerOrLonger => s.offer.newer || |have| < |src|
      case IfDiffers => s.offer.differs || |have| != |src|
      case _ => false
  }

  predicate Adds(s: Session) {
    s.policy.None? && s.offer.management.Appending?
  }

  /** An existing file is compared, and only one that is the same is good enough. */
  predicate Compares(s: Session) {
    match s.policy
    case Some(p) => p.SkipIdentical?
    case None => s.offer.management.NoOption? || s.offer.management.CompareCrc?
  }

  /** A second file is wanted beside an existing one. */
  predicate WantsAnother(src: seq<byte>, have: seq<byte>, s: Session) {
    || s.policy == Some(Rename)
    || (s.policy.None? && s.offer.management.ChangeName?)
    || (Compares(s) && !(CanTell(s) && |have| == |src| && (s.first.Cut? || (s.first.Answered? && have == src))))
  }

  /** The offer says that the sender answers questions about its file. */
  predicate CanTell(s: Session) {
    s.offer.resume || s.offer.management == CompareCrc
  }

  /** The first numbered name that is free. */
  ghost predicate FirstFree(files: map<Path, seq<byte>>, i: nat) {
    i >= 1 && Numbered(i) !in files && forall j :: 1 <= j < i ==> Numbered(j) in files
  }

  lemma OneIsFirst(files: map<Path, seq<byte>>, i: nat, j: nat)
    requires FirstFree(files, i) && FirstFree(files, j)
    ensures i == j
  {}

  /** A CRC that was told and matches means the same bytes, for a file of the same length. */
  lemma SameMeansEqual(sum: seq<byte> -> int, src: seq<byte>, have: seq<byte>, check: Check)
    requires Faithful(sum, src)
    ensures Same(sum, src, have, check) <==> check.Answered? && have <= src
  {
    if have <= src {
      assert have == src[..|have|];
    }
  }

  /** Where the data of a session goes, if anywhere. */
  lemma Goes(sum: seq<byte> -> int, src: seq<byte>, files: map<Path, seq<byte>>, s: Session)
    requires Faithful(sum, src)
    ensures var a := Decide(sum, src, files, s);
            if Target !in files then
              a == if s.policy.None? && s.offer.onlyIfPresent then Keep else Write(Target)
            else
              var have := files[Target];
              && (a == Write(Target) <==> Replaces(src, have, s))
              && (a.Append? <==> Adds(s)) && (a.Append? ==> a.to == Target)
              && (a.Write? && a.to != Target <==> WantsAnother(src, have, s))
              && (a.Write? && a.to != Target ==> a.to.Numbered? && FirstFree(files, a.to.i))
  {
    if Target in files {
      SameMeansEqual(sum, src, files[Target], s.first);
    }
  }

  // ---- how a session goes ----

  /** The data of a session that writes to `p` came whole and was stored. */
  predicate Arrives(sum: seq<byte> -> int, src: seq<byte>, d: Disk, s: Session, a: Action) {
    && s.opens && s.closes && !(Resumable(src, d, s, a) && s.second.Cut?)
    && Received(src, |Kept(sum, src, d, s, a)|, s).place.Complete?
  }

  /** What a session does to the files, by what it does to the data. */
  lemma FilesAfter(sum: seq<byte> -> int, src: seq<byte>, d: Disk, s: Session)
    requires Faithful(sum, src) && ConfOk(src, s)
    ensures var a := Decide(sum, src, d.files, s);
            var d2 := After(sum, src, d, s);
            if a.Keep? || !Arrives(sum, src, d, s, a) then d2.files == d.files
            else if a.Write? then d2.files == if s.commits then d.files[a.to := src] else d.files
            else Target in d.files && a.to == Target
                 && d2.files == d.files[Target := d.files[Target] + if s.commits then src else src[..Min(s.copied, |src|)]]
  {
    hide Received;
    hide Same;
    var a := Decide(sum, src, d.files, s);
    if !a.Keep? {
      var kept := Kept(sum, src, d, s, a);
      KeptIsPrefix(sum, src, d, s, a);
      ReceivedIsSource(src, kept, s);
      WhenItAppends(sum, src, d.files, s);
    }
  }

  /** Exactly when an existing file changes, and to what. It is replaced if the policy, or
      without one the sender's option, says so; it grows if the sender asks for that and
      there is no policy; else its bytes stay, however the session goes. */
  lemma {:induction false} ExistingChangesExactly(sum: seq<byte> -> int, src: seq<byte>, d: Disk, s: Session)
    requires Faithful(sum, src) && ConfOk(src, s) && Target in d.files
    ensures var had, d2 := d.files[Target], After(sum, src, d, s);
            && Target in d2.files
            && (Replaces(src, had, s) && s.commits && Arrives(sum, src, d, s, Write(Target)) ==> d2.files[Target] == src)
            && (Adds(s) && Arrives(sum, src, d, s, Append(Target)) ==>
                  d2.files[Target] == had + if s.commits then src else src[..Min(s.copied, |src|)])
            && (d2.files[Target] != had <==>
                  || (Replaces(src, had, s) && s.commits && Arrives(sum, src, d, s, Write(Target)) && src != had)
                  || (Adds(s) && Arrives(sum, src, d, s, Append(Target)) && src != [] && (s.commits || s.copied > 0)))
  {
    hide Decide;
    hide After;
    hide Arrives;
    Goes(sum, src, d.files, s);
    FilesAfter(sum, src, d, s);
    var had := d.files[Target];
    var more := if s.commits then src else src[..Min(s.copied, |src|)];
    assert |had + more| == |had| + |more|;
  }

  /** So a file the user asked to keep is kept: under every policy but Overwrite, whatever
      the sender wants. */
  lemma {:induction false} KeptFilesStay(sum: seq<byte> -> int, src: seq<byte>, d: Disk, s: Session)
    requires Faithful(sum, src) && ConfOk(src, s) && Target in d.files
    requires s.policy.Some? && s.policy != Some(Overwrite)
    ensures After(sum, src, d, s).files[Target] == d.files[Target]
  {
    hide After;
    ExistingChangesExactly(sum, src, d, s);
  }

  /** Every file that appears: the target, if it was not there and is wanted all the
      same, or a second file under the first free numbered name, if one is wanted; whole. */
  lemma {:induction false} NewFileExactly(sum: seq<byte> -> int, src: seq<byte>, d: Disk, s: Session, p: Path)
    requires Faithful(sum, src) && ConfOk(src, s) && p !in d.files
    ensures var d2 := After(sum, src, d, s);
            && (p in d2.files ==> d2.files[p] == src)
            && (p in d2.files <==>
                  && s.commits && Arrives(sum, src, d, s, Write(p))
                  && if Target !in d.files then p == Target && !(s.policy.None? && s.offer.onlyIfPresent)
                     else WantsAnother(src, d.files[Target], s) && p.Numbered? && FirstFree(d.files, p.i))
  {
    hide Decide;
    hide After;
    hide Arrives;
    Goes(sum, src, d.files, s);
    FilesAfter(sum, src, d, s);
    if p.Numbered? && FirstFree(d.files, p.i) && Decide(sum, src, d.files, s).Write? && Target in d.files {
      var to := Decide(sum, src, d.files, s).to;
      if to.Numbered? {
        OneIsFirst(d.files, p.i, to.i);
      }
    }
  }

  /** No other file is touched. */
  lemma {:induction false} OthersStay(sum: seq<byte> -> int, src: seq<byte>, d: Disk, s: Session, p: Path)
    requires Faithful(sum, src) && ConfOk(src, s) && p in d.files && p != Target
    ensures var d2 := After(sum, src, d, s); p in d2.files && d2.files[p] == d.files[p]
  {
    hide Decide;
    hide After;
    hide Arrives;
    Goes(sum, src, d.files, s);
    FilesAfter(sum, src, d, s);
  }

  // ---- the partial file ----

  /** The sender is asked about a partial file exactly when it offers to resume and the file
      has some, but not all, of as many bytes. A transfer starts after what is already there
      exactly when the sender, so asked, tells a CRC that finds it a first part of the
      source. */
  lemma ResumesExactly(sum: seq<byte> -> int, src: seq<byte>, d: Disk, s: Session, p: Path)
    requires Faithful(sum, src)
    ensures Resumable(src, d, s, Write(p)) <==> s.offer.resume && p in d.parts && d.parts[p] != [] && |d.parts[p]| < |src|
    ensures Kept(sum, src, d, s, Append(p)) == []
    ensures var kept := Kept(sum, src, d, s, Write(p));
            if s.offer.resume && s.second.Answered? && p in d.parts && 0 < |d.parts[p]| < |src| && d.parts[p] <= src
            then kept == d.parts[p] else kept == []
  {
    if p in d.parts {
      SameMeansEqual(sum, src, d.parts[p], s.second);
    }
  }

  /** What a session that cannot finish leaves: a partial file with as much of the source
      as reached the disk; none after a failed write on a disk with room. */
  lemma {:induction false} CutLeavesPart(sum: seq<byte> -> int, src: seq<byte>, d: Disk, s: Session)
    requires Faithful(sum, src) && ConfOk(src, s)
    requires var a := Decide(sum, src, d.files, s);
             !a.Keep? && s.opens && !(Resumable(src, d, s, a) && s.second.Cut?) && !Arrives(sum, src, d, s, a)
    ensures var a := Decide(sum, src, d.files, s);
            var d2, kept := After(sum, src, d, s), Kept(sum, src, d, s, a);
            var r := Received(src, |kept|, s);
            if (r.place.Complete? || r.place == R.Broke(R.WriteError)) && !s.diskFull then d2.parts == d.parts - {a.to}
            else |kept| + Min(s.flushed, |r.out|) <= |src|
                 && d2.parts == d.parts[a.to := src[..|kept| + Min(s.flushed, |r.out|)]]
  {
    hide Received;
    hide Decide;
    hide Same;
    var a := Decide(sum, src, d.files, s);
    var kept := Kept(sum, src, d, s, a);
    KeptIsPrefix(sum, src, d, s, a);
    ReceivedIsSource(src, kept, s);
    var r := Received(src, |kept|, s);
    var part := kept + r.out[..Min(s.flushed, |r.out|)];
    assert Written(kept, r, s) == part && |part| == |kept| + Min(s.flushed, |r.out|);
    assert part == src[..|part|];
  }

  /** And a finished one: no partial file once it is committed, all of it otherwise. */
  lemma {:induction false} FinishedPart(sum: seq<byte> -> int, src: seq<byte>, d: Disk, s: Session)
    requires Faithful(sum, src) && ConfOk(src, s)
    requires var a := Decide(sum, src, d.files, s); !a.Keep? && Arrives(sum, src, d, s, a)
    ensures var to := Decide(sum, src, d.files, s).to;
            After(sum, src, d, s).parts == if s.commits then d.parts - {to} else d.parts[to := src]
  {
    hide Received;
    hide Decide;
    hide Same;
    var a := Decide(sum, src, d.files, s);
    var kept := Kept(sum, src, d, s, a);
    KeptIsPrefix(sum, src, d, s, a);
    ReceivedIsSource(src, kept, s);
  }

  /** A session that is refused, cut while comparing, or cannot open its file leaves the disk
      as it was. */
  lemma {:induction false} NothingHappens(sum: seq<byte> -> int, src: seq<byte>, d: Disk, s: Session)
    requires var a := Decide(sum, src, d.files, s);
             a.Keep? || !s.opens || (Resumable(src, d, s, a) && s.second.Cut?)
    ensures After(sum, src, d, s) == d
  {
    hide Received;
    hide Decide;
    hide Kept;
  }
}
