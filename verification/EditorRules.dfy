/** What reaches the device and what stays in the editor: the keys that are not editing,
    the timers, completion, and the lending of the port. */
module EditorRules {
  import opened Crc
  import opened LineEditor
  import opened Editing

  /** The bytes go out after the line so far, and the editor starts on an empty line. */
  ghost predicate SentAtOnce(e: Ed, r: Ed, data: Text) {
    && r.out == e.out + e.buf.line + data
    && r.buf == Buf([], 0, e.buf.history, |e.buf.history|, [], e.buf.choice)
    && r == e.(out := r.out, buf := r.buf, escGen := r.escGen, esc := [], capture := None, captureGen := r.captureGen)
  }

  lemma SendsAfterLine(e: Ed, data: Text)
    ensures e.out + (e.buf.line + data) == e.out + e.buf.line + data
  {}

  // ---- what is passed on ----

  /** A sequence that is no key goes to the device whole. */
  lemma UnknownIsPassed(e: Ed, bracket: byte, key: byte)
    requires Listening(e) && Introduces(bracket)
    requires key !in {UP, DOWN, RIGHT, LEFT} && (e.buf.menu != [] ==> key != BACKTAB)
    ensures SentAtOnce(e, Run(e, CursorKey(bracket, key)), [ESCAPE, bracket, key])
  {
    hide Run;
    Sequence(e, bracket, key);
    SendsAfterLine(e, [ESCAPE, bracket, key]);
  }

  lemma TwoKeys(e: Ed, ch: byte)
    ensures Run(e, Pressed([ESCAPE, ch])) == Key(Key(e, ESCAPE, Fresh), ch, Fresh)
  {
    hide Key;
    assert Pressed([ESCAPE, ch]) == [] + [Typed(ESCAPE, Fresh)] + [Typed(ch, Fresh)];
    RunOne(e, [], Typed(ESCAPE, Fresh));
    RunOne(e, [] + [Typed(ESCAPE, Fresh)], Typed(ch, Fresh));
    assert Run(e, []) == e;
  }

  /** So does Escape with any key that begins no sequence. */
  lemma EscapedKeyIsPassed(e: Ed, ch: byte)
    requires Listening(e) && ch != 0x5b && ch != 0x4f
    ensures SentAtOnce(e, Run(e, Pressed([ESCAPE, ch])), [ESCAPE, ch])
  {
    hide Run;
    TwoKeys(e, ch);
    var e1 := Key(e, ESCAPE, Fresh);
    assert e1 == e.(escGen := e.escGen + 1, esc := [ESCAPE]);
    assert [ESCAPE] + [ch] == [ESCAPE, ch];
    SendsAfterLine(e, [ESCAPE, ch]);
  }

  lemma TimerAfter(e: Ed, keys: Text, gen: nat)
    ensures Run(e, Pressed(keys) + [EscapeTimer(gen)]) == OnEscapeTimer(Run(e, Pressed(keys)), gen)
  {
    hide OnEscapeTimer;
    RunOne(e, Pressed(keys), EscapeTimer(gen));
  }

  /** Escape alone goes to the device when nothing follows in time, or else closes the
      menu that is open; a timer of another generation does nothing. */
  lemma EscapeAlone(e: Ed, gen: nat)
    requires Listening(e)
    ensures var r := Run(e, Pressed([ESCAPE]) + [EscapeTimer(gen)]);
            if gen != e.escGen + 1 then r == e.(escGen := e.escGen + 1, esc := [ESCAPE])
            else if e.buf.menu == [] then SentAtOnce(e, r, [ESCAPE])
            else r == e.(escGen := e.escGen + 1, buf := e.buf.(menu := []))
  {
    hide Run;
    TimerAfter(e, [ESCAPE], gen);
    OneKey(e, ESCAPE);
    SendsAfterLine(e, [ESCAPE]);
  }

  /** And so does the beginning of a sequence. */
  lemma BeginningAlone(e: Ed, bracket: byte)
    requires Listening(e) && Introduces(bracket)
    ensures SentAtOnce(e, Run(e, Pressed([ESCAPE, bracket]) + [EscapeTimer(e.escGen + 2)]), [ESCAPE, bracket])
  {
    hide Run;
    TimerAfter(e, [ESCAPE, bracket], e.escGen + 2);
    TwoKeys(e, bracket);
    FirstKey(e);
    SecondKey(e.(escGen := e.escGen + 1, esc := [ESCAPE]), bracket);
    SendsAfterLine(e, [ESCAPE, bracket]);
  }

  /** The timer of a sequence that has ended is void, even if another has begun since. */
  lemma EndedTimerIsVoid(e: Ed, ch: byte)
    requires Listening(e) && ch != 0x5b && ch != 0x4f
    ensures var r := Run(e, Pressed([ESCAPE, ch]));
            Step(r, EscapeTimer(e.escGen + 1)) == r
    ensures var r := Run(e, Pressed([ESCAPE, ch]));
            var again := Key(r, ESCAPE, Fresh); Step(again, EscapeTimer(e.escGen + 1)) == again
  {
    hide Run;
    EscapedKeyIsPassed(e, ch);
    TwoKeys(e, ch);
    var e1 := e.(escGen := e.escGen + 1, esc := [ESCAPE]);
    assert Key(e, ESCAPE, Fresh) == e1;
    assert Key(e1, ch, Fresh).escGen == e.escGen + 2;
  }

  /** Control keys without a meaning of their own go out at once. */
  lemma ControlIsPassed(e: Ed, ch: byte)
    requires Listening(e) && ch < 0x20
    requires ch !in {ENTER, NEWLINE, BS, TAB_KEY, ESCAPE, CONTROL_C, CONTROL_L}
    requires ch == CONTROL_S || ch == CONTROL_R ==> e.lending.Never? || e.transfer
    ensures SentAtOnce(e, Run(e, Pressed([ch])), [ch])
  {
    hide Run;
    OneKey(e, ch);
    SendsAfterLine(e, [ch]);
  }

  /** With raw keys on, every byte goes to the device as it is, and nothing else happens. */
  lemma RawIsPassed(e: Ed, ch: byte, again: Again)
    requires !e.closed && e.rawKeys
    ensures Step(e, Typed(ch, again)) == e.(out := e.out + [ch])
    ensures forall raw: bool :: Step(e, Raw(raw)) == e.(rawKeys := raw, esc := [], escGen := e.escGen + 1)
  {}

  // ---- keys in the line ----

  /** A printable key goes in at the cursor, and closes the menu. */
  lemma PrintableGoesIn(e: Ed, ch: byte)
    requires Listening(e) && Printable(ch) && e.buf.cursor <= |e.buf.line|
    ensures var b, r := e.buf, Run(e, Pressed([ch]));
            && OnlyEdits(e, r) && r.buf.menu == [] && r.buf.index == |b.history|
            && r.buf.line == b.line[..b.cursor] + [ch] + b.line[b.cursor..] && r.buf.cursor == b.cursor + 1
  {
    hide Run;
    OneKey(e, ch);
  }

  /** Backspace, in either form, takes out the key before the cursor, if there is one, and
      closes the menu. */
  lemma BackspaceTakesOut(e: Ed, ch: byte)
    requires Listening(e) && (ch == 0x08 || ch == 0x7f) && e.buf.cursor <= |e.buf.line|
    ensures var b, r := e.buf, Run(e, Pressed([ch]));
            && OnlyEdits(e, r)
            && (b.cursor == 0 ==> r.buf == b)
            && (b.cursor > 0 ==> r.buf.menu == [] && r.buf.cursor == b.cursor - 1
                                 && r.buf.line == b.line[..b.cursor - 1] + b.line[b.cursor..])
  {
    hide Run;
    OneKey(e, ch);
  }

  const SPACES: Text := [0x09, 0x0a, 0x0b, 0x0c, 0x0d, 0x20]

  /** Enter sends the line. The history keeps it as its newest entry, unless it is empty
      but for spaces or the newest already; and it keeps the five hundred newest. */
  lemma EnterKeeps(e: Ed, ch: byte)
    requires Listening(e) && !e.released && e.buf.menu == [] && (ch == 0x0d || ch == 0x0a)
    ensures var b, r := e.buf, Run(e, Pressed([ch]));
            var before, after := b.history, r.buf.history;
            && r.out == e.out + b.line + [0x0a]
            && r.buf.line == [] && r.buf.cursor == 0 && r.buf.index == |after| && r.capture.None?
            && (if (forall c :: c in b.line ==> c in SPACES) || (before != [] && before[|before| - 1] == b.line)
                then after == before
                else && after != [] && after[|after| - 1] == b.line
                     && |after| == (if |before| < 500 then |before| + 1 else 500)
                     && after[..|after| - 1] == before[|before| + 1 - |after|..])
  {
    hide Run;
    hide Commit;
    EnterIs(e, ch);
    CommitIs(e.buf.history, e.buf.line);
    SendsAfterLine(e, [0x0a]);
  }

  lemma EnterIs(e: Ed, ch: byte)
    requires Listening(e) && !e.released && e.buf.menu == [] && (ch == 0x0d || ch == 0x0a)
    ensures Run(e, Pressed([ch])) == Enter(e)
  {
    hide Run;
    hide Enter;
    hide Tab;
    hide Drop;
    hide Immediate;
    OneKey(e, ch);
  }

  lemma CommitIs(before: seq<Text>, line: Text)
    ensures var after := Commit(before, line);
            if (forall c :: c in line ==> c in SPACES) || (before != [] && before[|before| - 1] == line) then after == before
            else && after != [] && after[|after| - 1] == line
                 && |after| == (if |before| < 500 then |before| + 1 else 500)
                 && after[..|after| - 1] == before[|before| + 1 - |after|..]
  {
    hide Blank;
    BlankIs(line);
  }

  lemma BlankIs(line: Text)
    ensures Blank(line) <==> forall c :: c in line ==> c in SPACES
  {
    if forall c :: c in line ==> c in SPACES {
      forall i | 0 <= i < |line|
        ensures line[i] in {0x20, 0x09, 0x0a, 0x0b, 0x0c, 0x0d}
      {
        assert line[i] in line;
      }
    }
  }

  /** Ctrl+L closes the menu and leaves the line. */
  lemma ClearKeepsLine(e: Ed)
    requires Listening(e)
    ensures Run(e, Pressed([CONTROL_L])) == if e.transfer then e else e.(escGen := e.escGen + 1, buf := e.buf.(menu := []))
  {
    hide Run;
    OneKey(e, CONTROL_L);
  }

  // ---- Ctrl+C ----

  /** The editor sees a Ctrl+C for what it is. */
  predicate Sees(e: Ed) {
    !e.closed && !e.rawKeys && e.esc == []
  }

  /** A Ctrl+C has been seen since transfers last began or ended, and none during one. */
  predicate Warned(e: Ed, evs: seq<Event>)
    decreases |evs|
  {
    evs != [] &&
    var n := |evs| - 1;
    match evs[n]
    case Transfer(_) => false
    case Typed(ch, _) => if ch == CONTROL_C && Sees(Run(e, evs[..n])) then !Run(e, evs[..n]).transfer else Warned(e, evs[..n])
    case _ => Warned(e, evs[..n])
  }

  lemma EscapeAside(e: Ed, ch: byte)
    ensures var r := EscapeKey(e, ch);
            r.released == e.released && r.transfer == e.transfer && r.lending == e.lending && r.request == e.request
            && r.closed == e.closed && r.interrupted == e.interrupted && r.hinted == e.hinted
  {
    hide Arrow;
    hide Begins;
    var e1 := CancelEscape(e).(esc := []);
    ImmediateAside(e1, e.esc + [ch]);
    if Arrow(e1, ch).Some? {
      ArrowCalm(e1, ch);
      ArrowHint(e1, ch);
    }
  }

  lemma ArrowHint(e: Ed, key: byte)
    ensures Arrow(e, key).Some? ==> Arrow(e, key).value.hinted == e.hinted
  {
    hide HistoryUp;
    hide HistoryDown;
    hide MoveMenu;
    hide Suggestion;
  }

  /** Ctrl+C, seen and not in a transfer. */
  lemma InterruptIs(e: Ed, again: Again)
    ensures var r := Interrupt(e, again);
            && r.interrupted && (r.closed <==> e.closed || (e.interrupted && again.Quick?))
            && r.released == e.released && r.lending == e.lending && r.request == e.request
            && (r.hinted ==> e.hinted || e.released) && (e.hinted ==> r.hinted)
  {
    hide Plain;
    var e1 := Discard(e).(interrupted := true);
    PlainCalm(e1, CONTROL_C);
    PlainHint(e1, CONTROL_C);
  }

  lemma PlainHint(e: Ed, ch: byte)
    ensures (e.hinted ==> Plain(e, ch).hinted) && (Plain(e, ch).hinted ==> e.hinted || e.released)
  {
    hide Insert;
    hide Erase;
    hide AcceptMenu;
    hide Enter;
    hide Tab;
    hide Drop;
    hide Immediate;
    EnterHint(e);
    TabHint(e);
    DropFlags(e);
    ImmediateFlags(e, [ch]);
  }

  lemma EnterHint(e: Ed)
    ensures Enter(e).hinted == e.hinted
  {
    hide Committed;
  }

  lemma TabHint(e: Ed)
    ensures Tab(e).hinted == e.hinted
  {
    hide MoveMenu;
    hide OpenMenu;
    hide HasSpace;
    hide Candidates;
  }

  /** A key that is neither Ctrl+C nor for lending. */
  lemma OtherKey(e: Ed, ch: byte, again: Again)
    requires !e.closed && !e.rawKeys && e.esc == [] && ch != CONTROL_C
    requires ch == CONTROL_S || ch == CONTROL_R ==> e.lending.Never? || e.transfer
    ensures var r := FreshKey(e, ch, again);
            && r.released == e.released && r.lending == e.lending && r.request == e.request
            && r.closed == e.closed && r.interrupted == e.interrupted && (e.hinted ==> r.hinted)
  {
    hide Plain;
    hide NoMenu;
    PlainCalm(e, ch);
    PlainHint(e, ch);
  }

  /** What a key may do to the flags. */
  lemma KeyFlags(e: Ed, ch: byte, again: Again)
    ensures var r := Key(e, ch, again);
            var lend := ch == CONTROL_S && Lends(e) && !e.released;
            var take := ch == CONTROL_R && Lends(e) && e.released;
            && r.lending == e.lending && r.released == (lend || e.released)
            && r.request == (if lend then Some(true) else if take then Some(false) else e.request)
            && r.interrupted == (if ch == CONTROL_C && Sees(e) then !e.transfer else e.interrupted)
            && r.closed == (e.closed || (ch == CONTROL_C && again.Quick? && Sees(e) && !e.transfer && e.interrupted))
            && (e.hinted ==> (!r.hinted <==> lend))
  {
    hide EscapeKey;
    hide Interrupt;
    hide Plain;
    hide Drop;
    hide NoMenu;
    hide Emptied;
    DropFlags(e);
    EscapeAside(e, ch);
    if Sees(e) && !(e.released && !e.transfer && !Special(ch)) {
      InterruptIs(e, again);
      if ch != CONTROL_C && (ch == CONTROL_S || ch == CONTROL_R ==> e.lending.Never? || e.transfer) {
        OtherKey(e, ch, again);
      }
    }
  }

  lemma DropFlags(e: Ed)
    ensures var r := Drop(e);
            r.released == e.released && r.transfer == e.transfer && r.lending == e.lending && r.request == e.request
            && r.closed == e.closed && r.interrupted == e.interrupted && (e.hinted ==> r.hinted)
  {
    hide NoMenu;
  }

  lemma StepWarned(e: Ed, ev: Event)
    ensures Step(e, ev).interrupted ==
            match ev
            case Transfer(_) => false
            case Typed(ch, _) => if ch == CONTROL_C && Sees(e) then !e.transfer else e.interrupted
            case _ => e.interrupted
  {
    hide Key;
    hide OpenMenu;
    hide Offered;
    if ev.Typed? {
      KeyFlags(e, ev.ch, ev.again);
    } else if ev.EscapeTimer? {
      TimerFlags(e, ev.gen);
    }
  }

  lemma TimerFlags(e: Ed, gen: nat)
    ensures var r := OnEscapeTimer(e, gen);
            r.released == e.released && r.lending == e.lending && r.request == e.request
            && r.closed == e.closed && r.interrupted == e.interrupted && r.hinted == e.hinted
  {
    hide NoMenu;
    hide Immediate;
    ImmediateFlags(e.(esc := []), e.esc);
  }

  lemma ImmediateFlags(e: Ed, control: Text)
    ensures Aside(e, Immediate(e, control)) && Immediate(e, control).hinted == e.hinted
  {
    hide Emptied;
    hide NoMenu;
  }

  lemma StepCloses(e: Ed, ev: Event)
    ensures Step(e, ev).closed <==> e.closed || (ev == Typed(CONTROL_C, Quick) && Sees(e) && !e.transfer && e.interrupted)
  {
    hide Key;
    hide OpenMenu;
    hide Offered;
    if ev.Typed? {
      KeyFlags(e, ev.ch, ev.again);
    } else if ev.EscapeTimer? {
      TimerFlags(e, ev.gen);
    }
  }

  lemma {:induction false} RunWarned(history: seq<Text>, lending: Lending, evs: seq<Event>)
    ensures Run(Start(history, lending), evs).interrupted == Warned(Start(history, lending), evs)
    decreases |evs|
  {
    hide Step;
    if evs != [] {
      var n := |evs| - 1;
      RunWarned(history, lending, evs[..n]);
      StepWarned(Run(Start(history, lending), evs[..n]), evs[n]);
    }
  }

  /** The shell is left by a Ctrl+C that comes soon after another, outside transfers, and
      by nothing else. */
  lemma {:induction false} ClosesExactly(history: seq<Text>, lending: Lending, evs: seq<Event>, ev: Event)
    ensures var s := Start(history, lending);
            Run(s, evs + [ev]).closed <==>
            Run(s, evs).closed ||
            (ev == Typed(CONTROL_C, Quick) && Sees(Run(s, evs)) && !Run(s, evs).transfer && Warned(s, evs))
  {
    hide Step;
    hide Run;
    RunOne(Start(history, lending), evs, ev);
    RunWarned(history, lending, evs);
    StepCloses(Run(Start(history, lending), evs), ev);
  }

  /** Any other Ctrl+C goes to the device, but for one that is an echo of the last, or that
      the lent port does not get; the line stays. */
  lemma InterruptIsSent(e: Ed, again: Again)
    requires Sees(e)
    requires e.interrupted && !e.transfer ==> again.Fresh?
    ensures var r := Key(e, CONTROL_C, again);
            && r.out == (if e.released && !e.transfer then e.out else e.out + [0x03])
            && r.buf.line == e.buf.line && r.buf.cursor == e.buf.cursor && (!e.transfer ==> r.buf.menu == [] && r.capture.None?)
    ensures e.interrupted && !e.transfer ==> Key(e, CONTROL_C, Duplicate) == e
  {}

  // ---- transfers ----

  /** A transfer ends completion, and when it is over the line starts empty. */
  lemma TransferClears(e: Ed, active: bool)
    ensures var r := Step(e, Transfer(active));
            && r.transfer == active && r.capture.None? && r.buf.menu == [] && r.out == e.out
            && r.buf.history == e.buf.history && r.buf.index == e.buf.index && r.esc == e.esc
            && (if active then r.buf.line == e.buf.line && r.buf.cursor == e.buf.cursor else r.buf.line == [] && r.buf.cursor == 0)
  {}

  // ---- lending ----

  /** A key for the lending of the port is taken. */
  predicate Lends(e: Ed) {
    Sees(e) && !e.transfer && e.lending.Available? && e.request.None?
  }

  /** The port is lent out from Ctrl+S on, unless that fails, until a taking back that
      Ctrl+R asks for succeeds; one request at a time, and nothing else changes either. */
  lemma LendingExactly(e: Ed, ev: Event)
    ensures var r := Step(e, ev);
            var lend := ev.Typed? && ev.ch == CONTROL_S && Lends(e) && !e.released;
            var take := ev.Typed? && ev.ch == CONTROL_R && Lends(e) && e.released;
            && r.lending == e.lending
            && r.request == (if lend then Some(true) else if take then Some(false) else if ev.LeaseDone? then None else e.request)
            && r.released == (if lend then true
                              else if ev.LeaseDone? && e.request.Some? then ev.ok == e.request.value
                              else e.released)
            && (lend ==> r.buf.line == [] && r.buf.cursor == 0 && r.buf.menu == [] && r.capture.None? && r.out == e.out)
  {
    hide Key;
    hide OpenMenu;
    hide Offered;
    hide NoMenu;
    if ev.Typed? {
      KeyFlags(e, ev.ch, ev.again);
      if ev.ch == CONTROL_S && Lends(e) && !e.released {
        LentOutIs(e, ev.again);
      }
    } else if ev.EscapeTimer? {
      TimerFlags(e, ev.gen);
    }
  }

  lemma LentOutIs(e: Ed, again: Again)
    requires Lends(e) && !e.released
    ensures var r := Key(e, CONTROL_S, again);
            r.buf.line == [] && r.buf.cursor == 0 && r.buf.menu == [] && r.capture.None? && r.out == e.out
  {}

  /** Keys meant for a port that is lent out change neither the line nor what was sent; the
      hint that the port is lent out is given once. */
  lemma DroppedKeys(e: Ed, ch: byte, again: Again)
    requires !e.closed && !e.rawKeys && e.released && !e.transfer && ch !in {CONTROL_C, CONTROL_L, CONTROL_R, CONTROL_S}
    ensures var r := Key(e, ch, again);
            && r == e.(esc := [], escGen := e.escGen + 1, hinted := !e.lending.Never? || e.hinted, buf := r.buf)
            && r.buf == (if e.hinted || e.lending.Never? then e.buf else e.buf.(menu := []))
  {}

  /** The hint may be given again after the port was lent out once more or taken back. */
  lemma HintAgain(e: Ed, ev: Event)
    ensures var r := Step(e, ev);
            e.hinted && !r.hinted <==>
              e.hinted && (|| (ev.Typed? && ev.ch == CONTROL_S && Lends(e) && !e.released)
                           || (ev == LeaseDone(true) && e.request == Some(false)))
  {
    hide Key;
    hide OpenMenu;
    hide Offered;
    hide NoMenu;
    if ev.Typed? {
      KeyFlags(e, ev.ch, ev.again);
    } else if ev.EscapeTimer? {
      TimerFlags(e, ev.gen);
    }
  }

  // ---- completion ----

  lemma ExtendsIs(item: Text, prefix: Text)
    ensures Extends(item, prefix) <==> prefix < item
  {}

  ghost predicate NoRepeats(items: seq<Text>) {
    forall i, j :: 0 <= i < j < |items| ==> items[i] != items[j]
  }

  lemma NoRepeatsAdd(x: Text, items: seq<Text>)
    requires NoRepeats(items) && x !in items
    ensures NoRepeats([x] + items)
  {}

  lemma {:induction false} WithoutIs(items: seq<Text>, item: Text)
    ensures var r := Without(items, item);
            && (forall x :: x in r <==> x in items && x != item)
            && (NoRepeats(items) ==> NoRepeats(r))
  {
    if items != [] {
      WithoutIs(items[1..], item);
      var tail := Without(items[1..], item);
      assert items == [items[0]] + items[1..];
      if NoRepeats(items) {
        assert NoRepeats(items[1..]) && items[0] !in items[1..];
      }
      if items[0] == item {
        assert Without(items, item) == tail;
      } else {
        assert Without(items, item) == [items[0]] + tail;
        if NoRepeats(items) {
          NoRepeatsAdd(items[0], tail);
        }
      }
    }
  }

  /** The candidates of the history: every entry that goes on from the line, each once. */
  lemma {:induction false} CandidatesExactly(history: seq<Text>, line: Text)
    ensures var r := Candidates(history, line);
            && NoRepeats(r)
            && (forall x :: x in r <==> line != [] && line < x && x in history)
            && (line != [] && history != [] && line < history[|history| - 1] ==> r != [] && r[0] == history[|history| - 1])
    decreases |history|
  {
    if history != [] && line != [] {
      var n := |history| - 1;
      CandidatesExactly(history[..n], line);
      var older := Candidates(history[..n], line);
      WithoutIs(older, history[n]);
      ExtendsIs(history[n], line);
      assert history == history[..n] + [history[n]];
      NoRepeatsAdd(history[n], Without(older, history[n]));
    }
  }

  lemma {:induction false} DistinctIs(items: seq<Text>, line: Text)
    ensures var r := Distinct(items, line);
            NoRepeats(r) && forall x :: x in r <==> x in items && line < x
  {
    if items != [] {
      DistinctIs(items[1..], line);
      WithoutIs(Distinct(items[1..], line), items[0]);
      ExtendsIs(items[0], line);
      assert items == [items[0]] + items[1..];
      NoRepeatsAdd(items[0], Without(Distinct(items[1..], line), items[0]));
    }
  }

  /** What is offered once the device has answered: all that it or the history knows to
      go on from the line, each once. */
  lemma {:induction false} OfferedExactly(b: Buf, device: seq<Text>)
    ensures var r := Offered(b, device);
            NoRepeats(r) && forall x :: x in r <==> b.line != [] && b.line < x && (x in device || x in b.history)
  {
    hide Distinct;
    hide Candidates;
    CandidatesExactly(b.history, b.line);
    DistinctIs(device + Candidates(b.history, b.line), b.line);
  }

  /** One item is taken for the line, several make a menu with the first one chosen. */
  ghost predicate Opened(b: Buf, r: Buf, items: seq<Text>) {
    && r.history == b.history && r.choice == 0
    && (if |items| == 1 then r.line == items[0] && r.cursor == |items[0]| && r.index == |b.history| && r.menu == []
        else r.line == b.line && r.cursor == b.cursor && r.index == b.index && r.menu == if |items| > 1 then items else [])
  }

  lemma OpensMenu(b: Buf, items: seq<Text>)
    ensures Opened(b, OpenMenu(b, items), items)
  {}

  /** Tab asks the device about a first word, and takes its answer when the time is over;
      for what follows it asks the history at once. */
  lemma {:induction false} TabCompletes(e: Ed, device: seq<Text>)
    requires Listening(e) && e.buf.menu == []
    ensures var r := Run(e, Pressed([TAB_KEY]));
            if exists c :: c in e.buf.line && c in [0x09, 0x0a, 0x0d, 0x20] then
              && r.out == e.out && r.capture.None? && Opened(e.buf, r.buf, Candidates(e.buf.history, e.buf.line))
            else
              && r.out == e.out + [TAB_KEY] && r.buf == e.buf && r.capture == Some(r.captureGen) && r.captureGen > e.captureGen
              && (!e.transfer ==>
                    var done := Step(r, CaptureTimer(r.captureGen, device));
                    && done.capture.None? && done.out == r.out && Opened(e.buf, done.buf, Offered(e.buf, device)))
              && (e.transfer ==> Step(r, CaptureTimer(r.captureGen, device)) == r.(capture := None))
  {
    hide Run;
    hide Candidates;
    hide Offered;
    hide OpenMenu;
    hide HasSpace;
    OneKey(e, TAB_KEY);
    SpaceIs(e.buf.line);
    assert e.buf.(menu := []) == e.buf;
    OpensMenu(e.buf, Candidates(e.buf.history, e.buf.line));
    OpensMenu(e.buf, Offered(e.buf, device));
  }

  lemma SpaceIs(line: Text)
    ensures HasSpace(line) <==> exists c :: c in line && c in [0x09, 0x0a, 0x0d, 0x20]
  {
    forall c | c in line && c in [0x09, 0x0a, 0x0d, 0x20]
      ensures HasSpace(line)
    {
      var i :| 0 <= i < |line| && line[i] == c;
      assert line[i] in {0x20, 0x09, 0x0a, 0x0d};
    }
    if i :| 0 <= i < |line| && line[i] in {0x20, 0x09, 0x0a, 0x0d} {
      assert line[i] in line && line[i] in [0x09, 0x0a, 0x0d, 0x20];
    }
  }

  /** The device's answer to an earlier Tab comes too late: any key that has ended its
      completion, another Tab included, makes it void. */
  lemma LateAnswerIsVoid(e: Ed, gen: nat, device: seq<Text>)
    requires gen < e.captureGen
    ensures Step(e, CaptureTimer(gen, device)) == e
  {}
}
