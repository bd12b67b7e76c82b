/** Receiving one file over any number of sessions: what is done about a file that is
    already there, the partial file that a cut leaves and a later session resumes, and
    the rename at the end. Each session's data comes through the transfer of
    Transfer.dfy, cut wherever it is cut. */
module Resume {
  import opened Crc
  import opened Sender
  import opened Transfer
  import TR = TransferRuns
  import R = Receiver

  datatype Path = Target | Numbered(i: nat)

  datatype Option<T> = None | Some(value: T)

  /** The files of the directory, and the partial file beside each. */
  datatype Disk = Disk(files: map<Path, seq<byte>>, parts: map<Path, seq<byte>>)

  /** The sender's management option; `newer`, `differs`: how its date compares. */
  datatype Management =
    | NoOption | NewerOrLonger | CompareCrc | Appending | Clobber | IfNewer | IfDiffers | Protect | ChangeName

  datatype Offer = Offer(resume: bool, management: Management, onlyIfPresent: bool, newer: bool, differs: bool)

  datatype Policy = SkipIdentical | Overwrite | SkipExisting | Rename

  /** What becomes of a request for the CRC of a prefix. */
  datatype Check = Cut | Unanswered | Answered

  /** One session: the offer, the local policy if there is one, the answers to the
      two CRC requests, the line, and how the disk and the process hold out. */
  datatype Session = Session(
    offer: Offer, policy: Option<Policy>, first: Check, second: Check,
    window: nat, maxBlock: nat, fullDuplex: bool, stale: nat, cs: seq<Choice>,
    opens: bool, flushed: nat, closes: bool, diskFull: bool, commits: bool, copied: nat)

  datatype Action =
    | Write(to: Path)
    | Append(to: Path)
    | Keep              // the file is refused, or the session ends here

  // ---- a name that is free ----

  predicate Lowest(files: map<Path, seq<byte>>, i: nat) {
    i >= 1 && Numbered(i) !in files && forall j :: 1 <= j < i ==> Numbered(j) in files
  }

  lemma {:induction false} NamesTaken(keys: set<Path>, i: nat)
    requires i >= 1 && forall j :: 1 <= j < i ==> Numbered(j) in keys
    ensures i - 1 <= |keys|
    decreases i
  {
    if i > 1 {
      var rest := keys - {Numbered(i - 1)};
      NamesTaken(rest, i - 1);
      assert keys == rest + {Numbered(i - 1)};
    }
  }

  function Free(files: map<Path, seq<byte>>, i: nat): (r: nat)
    requires i >= 1 && forall j :: 1 <= j < i ==> Numbered(j) in files
    ensures Lowest(files, r)
    decreases |files.Keys| + 1 - i
  {
    NamesTaken(files.Keys, i);
    if Numbered(i) !in files then i
    else
      NamesTaken(files.Keys, i + 1);
      Free(files, i + 1)
  }

  /** The first numbered name that is free. */
  method RenamedPath(files: map<Path, seq<byte>>) returns (i: nat)
    ensures Lowest(files, i) && i == Free(files, 1)
  {
    i := 1;
    while Numbered(i) in files
      invariant i >= 1 && forall j :: 1 <= j < i ==> Numbered(j) in files
      invariant Free(files, 1) == Free(files, i)
      decreases |files.Keys| + 1 - i
    {
      NamesTaken(files.Keys, i + 1);
      i := i + 1;
    }
  }

  // ---- what to do about an existing file ----

  predicate MayCompare(o: Offer) {
    o.resume || o.management.CompareCrc?
  }

  predicate Explicit(s: Session) {
    s.policy.Some?
  }

  /** Without an explicit policy the sender's option counts. */
  function Managed(s: Session): Management {
    if Explicit(s) then NoOption else s.offer.management
  }

  /** The sender tells its CRC of the first n bytes, if it answers. */
  predicate Same(sum: seq<byte> -> int, src: seq<byte>, have: seq<byte>, check: Check) {
    check.Answered? && |have| <= |src| && sum(have) == sum(src[..|have|])
  }

  function ByDefault(sum: seq<byte> -> int, src: seq<byte>, files: map<Path, seq<byte>>, s: Session): Action
    requires Target in files
  {
    if s.policy == Some(Overwrite) then Write(Target)
    else if s.policy == Some(SkipExisting) then Keep
    else if s.policy == Some(Rename) then Write(Numbered(Free(files, 1)))
    else if MayCompare(s.offer) && |files[Target]| == |src| && s.first.Cut? then Keep
    else if MayCompare(s.offer) && |files[Target]| == |src| && Same(sum, src, files[Target], s.first) then Keep
    else Write(Numbered(Free(files, 1)))
  }

  function Decide(sum: seq<byte> -> int, src: seq<byte>, files: map<Path, seq<byte>>, s: Session): Action {
    if Target !in files then
      if !Explicit(s) && s.offer.onlyIfPresent then Keep else Write(Target)
    else
      var have := files[Target];
      match Managed(s)
      case NewerOrLonger => if s.offer.newer || |src| > |have| then Write(Target) else Keep
      case Appending => Append(Target)
      case Clobber => Write(Target)
      case IfNewer => if s.offer.newer then Write(Target) else Keep
      case IfDiffers => if |src| != |have| || s.offer.differs then Write(Target) else Keep
      case Protect => Keep
      case ChangeName => Write(Numbered(Free(files, 1)))
      case _ => ByDefault(sum, src, files, s)
  }

  // ---- one session ----

  predicate Resumable(src: seq<byte>, d: Disk, s: Session, a: Action) {
    a.Write? && s.offer.resume && a.to in d.parts && 0 < |d.parts[a.to]| < |src|
  }

  /** How much of the partial file counts: all of it if the sender's CRC matches,
      else none. */
  function Kept(sum: seq<byte> -> int, src: seq<byte>, d: Disk, s: Session, a: Action): (r: seq<byte>) {
    if Resumable(src, d, s, a) && Same(sum, src, d.parts[a.to], s.second) then d.parts[a.to] else []
  }

  predicate ConfOk(src: seq<byte>, s: Session) {
    |src| < U32 && s.window >= 1 && MIN_SUBPACKET <= s.maxBlock <= MAX_SUBPACKET && TR.AllReadable(s.cs)
  }

  function ConfFor(src: seq<byte>, start: nat, s: Session): Conf {
    Conf(src, start, s.window, s.maxBlock, s.fullDuplex)
  }

  function Received(src: seq<byte>, start: nat, s: Session): R.Rcv {
    var c := ConfFor(src, start, s);
    Transfer.Run(c, Begin(c, s.stale), s.cs).r
  }

  /** The partial file once the data is over, however it ended: all of it if the
      disk kept up, some first part of it otherwise. */
  function Written(kept: seq<byte>, r: R.Rcv, s: Session): seq<byte> {
    if r.place.Complete? && s.closes then kept + r.out
    else kept + r.out[..Min(s.flushed, |r.out|)]
  }

  function Commit(d: Disk, a: Action, part: seq<byte>, s: Session): Disk
    requires !a.Keep?
  {
    match a
    case Write(p) =>
      if s.commits then Disk(d.files[p := part], d.parts - {p}) else Disk(d.files, d.parts[p := part])
    case Append(p) =>
      var had := if p in d.files then d.files[p] else [];
      if s.commits then Disk(d.files[p := had + part], d.parts - {p})
      else Disk(d.files[p := had + part[..Min(s.copied, |part|)]], d.parts[p := part])
  }

  /** The disk after one session. */
  function After(sum: seq<byte> -> int, src: seq<byte>, d: Disk, s: Session): Disk {
    var a := Decide(sum, src, d.files, s);
    if a.Keep? || !s.opens || (Resumable(src, d, s, a) && s.second.Cut?) then d
    else
      var kept := Kept(sum, src, d, s, a);
      var r := Received(src, |kept|, s);
      var part := Written(kept, r, s);
      if r.place.Complete? && s.closes then Commit(d, a, part, s)
      else if (r.place.Complete? || r.place == R.Broke(R.WriteError)) && !s.diskFull then
        Disk(d.files, d.parts - {a.to})
      else Disk(d.files, d.parts[a.to := part])
  }

  function AfterAll(sum: seq<byte> -> int, src: seq<byte>, d: Disk, ss: seq<Session>): Disk
    decreases |ss|
  {
    if ss == [] then d else After(sum, src, AfterAll(sum, src, d, ss[..|ss| - 1]), ss[|ss| - 1])
  }

  // ---- what is on the disk ----

  /** A CRC that matches means the bytes match. */
  ghost predicate Faithful(sum: seq<byte> -> int, src: seq<byte>) {
    forall x :: |x| <= |src| && sum(x) == sum(src[..|x|]) ==> x == src[..|x|]
  }

  /** Every file is the source, or what it was; every partial file is a first part of
      the source, or what it was. */
  ghost predicate Sound(src: seq<byte>, was: Disk, d: Disk) {
    && (forall p :: p in d.files ==> d.files[p] == src || (p in was.files && d.files[p] == was.files[p]))
    && (forall p :: p in d.parts ==> d.parts[p] <= src || (p in was.parts && d.parts[p] == was.parts[p]))
    && was.files.Keys <= d.files.Keys
  }

  lemma KeptIsPrefix(sum: seq<byte> -> int, src: seq<byte>, d: Disk, s: Session, a: Action)
    requires Faithful(sum, src)
    ensures Kept(sum, src, d, s, a) <= src
  {}

  lemma ReceivedIsSource(src: seq<byte>, kept: seq<byte>, s: Session)
    requires ConfOk(src, s) && kept <= src
    ensures var r := Received(src, |kept|, s);
            && Written(kept, r, s) <= src
            && (r.place.Complete? && s.closes ==> Written(kept, r, s) == src)
  {
    hide Transfer.Run;
    var c := ConfFor(src, |kept|, s);
    TR.EndToEnd(c, s.stale, s.cs);
    var r := Received(src, |kept|, s);
    assert kept + src[|kept|..] == src;
    assert kept + r.out == src[..r.rx];
    assert kept + r.out[..Min(s.flushed, |r.out|)] == src[..|kept| + Min(s.flushed, |r.out|)];
    if r.place.Complete? {
      TR.ReadableIsWhole(c, s.stale, s.cs);
    }
  }

  lemma SessionSound(sum: seq<byte> -> int, src: seq<byte>, was: Disk, d: Disk, s: Session)
    requires Faithful(sum, src) && ConfOk(src, s) && Sound(src, was, d)
    requires !Decide(sum, src, d.files, s).Append?
    ensures Sound(src, was, After(sum, src, d, s))
  {
    hide Received;
    hide Decide;
    hide Kept;
    hide Written;
    hide Resumable;
    hide Faithful;
    var a := Decide(sum, src, d.files, s);
    var kept := Kept(sum, src, d, s, a);
    KeptIsPrefix(sum, src, d, s, a);
    ReceivedIsSource(src, kept, s);
  }

  /** No session appends to a file that is there. */
  predicate NeverAppends(sum: seq<byte> -> int, src: seq<byte>, d: Disk, ss: seq<Session>)
    decreases |ss|
  {
    ss == [] ||
    (NeverAppends(sum, src, d, ss[..|ss| - 1])
     && !Decide(sum, src, AfterAll(sum, src, d, ss[..|ss| - 1]).files, ss[|ss| - 1]).Append?)
  }

  predicate AllOk(src: seq<byte>, ss: seq<Session>) {
    forall i :: 0 <= i < |ss| ==> ConfOk(src, ss[i])
  }

  /** Whatever was on the disk, however often the line, the disk or the process
      failed and wherever: every file is the whole source or untouched, and every partial
      file is a first part of the source or untouched. */
  lemma {:induction false} ResumeIsSound(sum: seq<byte> -> int, src: seq<byte>, d: Disk, ss: seq<Session>)
    requires Faithful(sum, src) && AllOk(src, ss) && NeverAppends(sum, src, d, ss)
    ensures Sound(src, d, AfterAll(sum, src, d, ss))
    decreases |ss|
  {
    hide After;
    hide Decide;
    hide Faithful;
    if ss != [] {
      var n := |ss| - 1;
      ResumeIsSound(sum, src, d, ss[..n]);
      SessionSound(sum, src, d, AfterAll(sum, src, d, ss[..n]), ss[n]);
    }
  }

  /** So a target that was not there is absent until it is complete. */
  lemma {:induction false} TargetIsWhole(sum: seq<byte> -> int, src: seq<byte>, d: Disk, ss: seq<Session>)
    requires Faithful(sum, src) && AllOk(src, ss) && NeverAppends(sum, src, d, ss)
    requires Target !in d.files
    ensures var d2 := AfterAll(sum, src, d, ss); Target in d2.files ==> d2.files[Target] == src
  {
    hide AfterAll;
    ResumeIsSound(sum, src, d, ss);
  }

  // ---- appending ----

  /** Only the sender's append option, with no local policy against it and a file
      already there, appends. */
  lemma WhenItAppends(sum: seq<byte> -> int, src: seq<byte>, files: map<Path, seq<byte>>, s: Session)
    ensures Decide(sum, src, files, s).Append? <==>
            Target in files && s.policy.None? && s.offer.management.Appending?
  {}

  /** And then the source follows what was there: a second copy of it if it was the
      source itself. */
  lemma {:induction false} AppendAdds(sum: seq<byte> -> int, src: seq<byte>, d: Disk, s: Session)
    requires ConfOk(src, s) && Decide(sum, src, d.files, s).Append?
    requires s.opens && s.closes && s.commits && Received(src, 0, s).place.Complete?
    ensures Target in d.files
    ensures After(sum, src, d, s).files == d.files[Target := d.files[Target] + src]
  {
    hide Received;
    ReceivedIsSource(src, [], s);
  }

  /** Exactly: a session that completes leaves the file it wrote equal to the source
      if and only if it did not append to one that had bytes in it. */
  lemma {:induction false} CompletedIsSource(sum: seq<byte> -> int, src: seq<byte>, d: Disk, s: Session)
    requires Faithful(sum, src) && ConfOk(src, s)
    requires var a := Decide(sum, src, d.files, s);
             && !a.Keep? && s.opens && s.closes && s.commits
             && !(Resumable(src, d, s, a) && s.second.Cut?)
             && Received(src, |Kept(sum, src, d, s, a)|, s).place.Complete?
    ensures var a := Decide(sum, src, d.files, s);
            var d2 := After(sum, src, d, s);
            && a.to in d2.files && a.to !in d2.parts
            && (d2.files[a.to] == src <==> !(a.Append? && d.files[a.to] != []))
  {
    hide Received;
    var a := Decide(sum, src, d.files, s);
    if a.Append? {
      AppendAdds(sum, src, d, s);
      assert |d.files[Target] + src| == |d.files[Target]| + |src|;
      if d.files[Target] == [] {
        assert [] + src == src;
      }
    } else {
      KeptIsPrefix(sum, src, d, s, a);
      ReceivedIsSource(src, Kept(sum, src, d, s, a), s);
    }
  }

  // ---- nothing is lost by a cut ----

  /** A write failed, and not because the disk is full: the partial file goes. */
  predicate Discards(src: seq<byte>, start: nat, s: Session) {
    var place := Received(src, start, s).place;
    !s.diskFull && ((place.Complete? && !s.closes) || place == R.Broke(R.WriteError))
  }

  /** A session that resumes keeps at least what the partial file was worth, wherever
      it is cut: the next one starts no earlier. */
  lemma {:induction false} CutKeepsPrefix(sum: seq<byte> -> int, src: seq<byte>, d: Disk, s: Session, p: Path)
    requires Faithful(sum, src) && ConfOk(src, s)
    requires p in d.parts && 0 < |d.parts[p]| < |src| && d.parts[p] <= src
    requires s.offer.resume && s.second.Answered? && s.opens && Decide(sum, src, d.files, s) == Write(p)
    ensures var d2 := After(sum, src, d, s);
            if Discards(src, |d.parts[p]|, s) then p !in d2.parts && d2.files == d.files
            else (p in d2.parts && d.parts[p] <= d2.parts[p] <= src) || (p in d2.files && d2.files[p] == src)
  {
    hide Received;
    hide Decide;
    var kept := Kept(sum, src, d, s, Write(p));
    assert d.parts[p] == src[..|d.parts[p]|];
    assert kept == d.parts[p];
    ReceivedIsSource(src, kept, s);
  }

  // ---- the program ----

  /** The receiver's directory, and what one offer does to it step by step. */
  class Folder {
    var files: map<Path, seq<byte>>
    var parts: map<Path, seq<byte>>

    function Contents(): Disk
      reads this
    {
      Disk(files, parts)
    }

    constructor (d: Disk)
      ensures Contents() == d
    {
      files, parts := d.files, d.parts;
    }

    /** What to do about an existing target. */
    method Choose(sum: seq<byte> -> int, src: seq<byte>, s: Session) returns (a: Action)
      ensures a == Decide(sum, src, files, s)
    {
      hide Same;
      var management := if s.policy.Some? then NoOption else s.offer.management;
      if s.policy.None? && s.offer.onlyIfPresent && Target !in files {
        return Keep;
      }
      if Target !in files {
        return Write(Target);
      }
      var have := files[Target];
      match management {
        case NewerOrLonger => return if s.offer.newer || |src| > |have| then Write(Target) else Keep;
        case Appending => return Append(Target);
        case Clobber => return Write(Target);
        case IfNewer => return if s.offer.newer then Write(Target) else Keep;
        case IfDiffers => return if |src| != |have| || s.offer.differs then Write(Target) else Keep;
        case Protect => return Keep;
        case ChangeName =>
          var i := RenamedPath(files);
          return Write(Numbered(i));
        case NoOption =>
        case CompareCrc =>
      }
      if s.policy == Some(Overwrite) {
        return Write(Target);
      }
      if s.policy == Some(SkipExisting) {
        return Keep;
      }
      var i := RenamedPath(files);
      if s.policy == Some(Rename) {
        return Write(Numbered(i));
      }
      if MayCompare(s.offer) && |have| == |src| {
        if s.first.Cut? || Same(sum, src, have, s.first) {
          return Keep;
        }
      }
      a := Write(Numbered(i));
    }

    /** The partial file becomes the file, or its bytes go to the end of it. */
    method CommitPart(a: Action, s: Session)
      requires !a.Keep? && a.to in parts
      modifies this
      ensures Contents() == Commit(Disk(old(files), old(parts)), a, old(parts)[a.to], s)
    {
      var part := parts[a.to];
      match a
      case Write(p) =>
        if s.commits {
          files := files[p := part];
          parts := parts - {p};
        } else {
          assert parts == parts[p := part];
        }
      case Append(p) =>
        var had := if p in files then files[p] else [];
        if s.commits {
          files := files[p := had + part];
          parts := parts - {p};
        } else {
          files := files[p := had + part[..Min(s.copied, |part|)]];
          assert parts == parts[p := part];
        }
    }

    /** One offer, to the end of its session. */
    method ReceiveFile(sum: seq<byte> -> int, src: seq<byte>, s: Session)
      requires ConfOk(src, s)
      modifies this
      ensures Contents() == After(sum, src, old(Contents()), s)
    {
      hide Decide;
      hide Received;
      hide Same;
      ghost var d := Contents();
      var a := Choose(sum, src, s);
      if a.Keep? {
        return;
      }
      var kept: seq<byte> := [];
      if a.Write? && s.offer.resume && a.to in parts && 0 < |parts[a.to]| < |src| {
        if s.second.Cut? {
          return;
        }
        if Same(sum, src, parts[a.to], s.second) {
          kept := parts[a.to];
        }
      }
      if !s.opens {
        return;
      }
      parts := parts[a.to := kept];
      var r := Received(src, |kept|, s);
      var whole := r.place.Complete? && s.closes;
      parts := parts[a.to := kept + if whole then r.out else r.out[..Min(s.flushed, |r.out|)]];
      assert parts == d.parts[a.to := Written(kept, r, s)];
      if whole {
        CommitIgnoresPart(d, a, Written(kept, r, s), s);
        CommitPart(a, s);
      } else if (r.place.Complete? || r.place == R.Broke(R.WriteError)) && !s.diskFull {
        parts := parts - {a.to};
        assert parts == d.parts - {a.to};
      }
    }
  }

  lemma CommitIgnoresPart(d: Disk, a: Action, part: seq<byte>, s: Session)
    requires !a.Keep?
    ensures Commit(Disk(d.files, d.parts[a.to := part]), a, part, s) == Commit(d, a, part, s)
  {
    var parts := d.parts[a.to := part];
    assert parts - {a.to} == d.parts - {a.to};
    assert parts[a.to := part] == parts;
  }
}
