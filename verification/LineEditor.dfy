/** The line editor of the interactive shell: keys edit a line that Enter sends to the
    device, escape sequences wait for their end or a timer, Tab offers candidates,
    Ctrl+S and Ctrl+R lend the port out and take it back. Drawing is not part of it. */
module LineEditor {
  import opened Crc

  const ESC: byte := 0x1b
  const TAB: byte := 0x09
  const BS: byte := 0x08
  const DEL: byte := 0x7f
  const ENTER: byte := 0x0d
  const NEWLINE: byte := 0x0a
  const CTRL_C: byte := 0x03
  const CTRL_L: byte := 0x0c
  const CTRL_R: byte := 0x12
  const CTRL_S: byte := 0x13
  const HISTORY_LIMIT: nat := 500

  type Text = seq<byte>

  datatype Option<T> = None | Some(value: T)

  /** Whether the session can lend its port. */
  datatype Lending = Never | Unavailable | Available

  /** How soon a Ctrl+C follows the last one. */
  datatype Again = Fresh | Duplicate | Quick

  /** The line being edited, the place in the history, and the open menu. */
  datatype Buf = Buf(line: Text, cursor: nat, history: seq<Text>, index: nat, menu: seq<Text>, choice: nat)

  /** `escGen`, `captureGen`: the generations that make old timers void; `request`: a
      lease request is under way (true to release); `out`: everything passed to the device. */
  datatype Ed = Ed(
    buf: Buf, esc: Text, escGen: nat, capture: Option<nat>, captureGen: nat, interrupted: bool,
    transfer: bool, rawKeys: bool, lending: Lending, released: bool, hinted: bool, request: Option<bool>,
    closed: bool, out: Text)

  function Start(history: seq<Text>, lending: Lending): Ed {
    Ed(Buf([], 0, history, |history|, [], 0), [], 0, None, 0, false, false, false, lending, false, false, None, false, [])
  }

  // ---- the line ----

  function NoMenu(b: Buf): Buf {
    b.(menu := [])
  }

  /** An empty line, at the end of the history. */
  function Emptied(b: Buf): Buf {
    b.(line := [], cursor := 0, index := |b.history|, menu := [])
  }

  function Fill(b: Buf, text: Text): Buf {
    b.(line := text, cursor := |text|, index := |b.history|)
  }

  function OpenMenu(b: Buf, items: seq<Text>): Buf {
    var b1 := b.(menu := [], choice := 0);
    if |items| == 0 then b1 else if |items| == 1 then Fill(b1, items[0]) else b1.(menu := items)
  }

  function MoveMenu(b: Buf, delta: int): Buf
    requires b.menu != [] && -1 <= delta <= 1
  {
    b.(choice := (b.choice + delta + |b.menu|) % |b.menu|)
  }

  predicate Extends(item: Text, prefix: Text) {
    |prefix| < |item| && item[..|prefix|] == prefix
  }

  /** The newest entry of the history that extends the line. */
  function Suggestion(history: seq<Text>, prefix: Text): Option<Text> {
    if history == [] || prefix == [] then None
    else
      var n := |history| - 1;
      if Extends(history[n], prefix) then Some(history[n]) else Suggestion(history[..n], prefix)
  }

  /** The entries that extend the line, newest first, each once. */
  function Candidates(history: seq<Text>, prefix: Text): seq<Text> {
    if history == [] || prefix == [] then []
    else
      var n := |history| - 1;
      var older := Candidates(history[..n], prefix);
      if Extends(history[n], prefix) then [history[n]] + Without(older, history[n]) else older
  }

  function Without(items: seq<Text>, item: Text): seq<Text> {
    if items == [] then []
    else (if items[0] == item then [] else [items[0]]) + Without(items[1..], item)
  }

  predicate Blank(line: Text) {
    forall i :: 0 <= i < |line| ==> line[i] in {0x20, 0x09, 0x0a, 0x0b, 0x0c, 0x0d}
  }

  function Commit(history: seq<Text>, line: Text): seq<Text> {
    if Blank(line) || (history != [] && history[|history| - 1] == line) then history
    else
      var longer := history + [line];
      if |longer| > HISTORY_LIMIT then longer[|longer| - HISTORY_LIMIT..] else longer
  }

  function HistoryUp(b: Buf): Buf {
    if b.history == [] || b.index > |b.history| then b
    else
      var i := if b.index > 0 then b.index - 1 else 0;
      b.(index := i, line := b.history[i], cursor := |b.history[i]|)
  }

  function HistoryDown(b: Buf): Buf {
    if b.history == [] then b
    else if b.index + 1 < |b.history| then
      var line := b.history[b.index + 1];
      b.(index := b.index + 1, line := line, cursor := |line|)
    else b.(index := |b.history|, line := [], cursor := 0)
  }

  function CursorRight(b: Buf): Buf {
    b.(cursor := b.cursor + 1)
  }

  function CursorLeft(b: Buf): Buf {
    if b.cursor > 0 then b.(cursor := b.cursor - 1) else b
  }

  function Insert(b: Buf, ch: byte): Buf {
    if b.cursor > |b.line| then b
    else b.(line := b.line[..b.cursor] + [ch] + b.line[b.cursor..], cursor := b.cursor + 1, index := |b.history|, menu := [])
  }

  function Erase(b: Buf): Buf {
    if b.cursor == 0 || b.cursor > |b.line| then b
    else b.(line := b.line[..b.cursor - 1] + b.line[b.cursor..], cursor := b.cursor - 1, menu := [])
  }

  function AcceptMenu(b: Buf): Buf {
    if b.choice < |b.menu| then NoMenu(Fill(b, b.menu[b.choice])) else b
  }

  function Committed(b: Buf): Buf {
    Emptied(b.(history := Commit(b.history, b.line)))
  }

  predicate HasSpace(line: Text) {
    exists i :: 0 <= i < |line| && line[i] in {0x20, 0x09, 0x0a, 0x0d}
  }

  // ---- parts of a step ----

  function Send(e: Ed, data: Text): Ed {
    e.(out := e.out + data)
  }

  function Notice(e: Ed): Ed {
    e.(buf := NoMenu(e.buf))
  }

  function CancelEscape(e: Ed): Ed {
    e.(escGen := e.escGen + 1)
  }

  /** A capture of device output for completion is over, and so is the menu. */
  function Discard(e: Ed): Ed {
    e.(captureGen := e.captureGen + 1, capture := None, buf := NoMenu(e.buf))
  }

  /** A key meant for a port that is lent out. */
  function Drop(e: Ed): Ed {
    var e1 := CancelEscape(e).(esc := []);
    if e1.hinted || e1.lending.Never? then e1 else Notice(e1).(hinted := true)
  }

  /** A control key or sequence goes out at once, with the line so far before it. */
  function Immediate(e: Ed, control: Text): Ed {
    Send(Discard(e), e.buf.line + control).(buf := Emptied(e.buf))
  }

  // ---- keys ----

  function AcceptSuggestion(e: Ed): Ed {
    var item := Suggestion(e.buf.history, e.buf.line);
    if item.None? then e
    else Discard(e).(buf := NoMenu(e.buf.(line := item.value, cursor := |item.value|)))
  }

  function Arrow(e: Ed, key: byte): Option<Ed> {
    var b := e.buf;
    if b.menu != [] then
      if key in {0x41, 0x44, 0x5a} then Some(e.(buf := MoveMenu(b, -1)))
      else if key in {0x42, 0x43} then Some(e.(buf := MoveMenu(b, 1)))
      else None
    else if key == 0x41 then Some(e.(buf := HistoryUp(b)))
    else if key == 0x42 then Some(e.(buf := HistoryDown(b)))
    else if key == 0x43 then Some(if b.cursor < |b.line| then e.(buf := CursorRight(b)) else AcceptSuggestion(e))
    else if key == 0x44 then Some(e.(buf := CursorLeft(b)))
    else None
  }

  predicate Bracket(ch: byte) {
    ch == 0x5b || ch == 0x4f
  }

  /** The sequence is not complete yet. */
  predicate Begins(esc: Text) {
    |esc| == 2 && Bracket(esc[1])
  }

  /** A byte while an escape sequence is pending. */
  function EscapeKey(e: Ed, ch: byte): Ed {
    var esc := e.esc + [ch];
    if Begins(esc) then CancelEscape(e).(esc := esc)
    else
      var e1 := CancelEscape(e).(esc := []);
      if |esc| == 3 && Bracket(esc[1]) && Arrow(e1, ch).Some? then Arrow(e1, ch).value
      else Immediate(e1, esc)
  }

  function Enter(e: Ed): Ed {
    Discard(Send(e, e.buf.line + [NEWLINE])).(buf := Committed(e.buf))
  }

  /** The first word is completed by the device, what follows from the history. */
  function Tab(e: Ed): Ed {
    if e.buf.menu != [] then e.(buf := MoveMenu(e.buf, 1))
    else if !HasSpace(e.buf.line) then
      var e1 := Discard(e);
      Send(e1.(capture := Some(e1.captureGen)), [TAB])
    else Discard(e).(buf := OpenMenu(e.buf, Candidates(e.buf.history, e.buf.line)))
  }

  function Plain(e: Ed, ch: byte): Ed {
    if ch == ENTER || ch == NEWLINE then
      (if e.buf.menu != [] then e.(buf := AcceptMenu(e.buf)) else Enter(e))
    else if ch == BS || ch == DEL then e.(buf := Erase(e.buf))
    else if ch == TAB then Tab(e)
    else if ch == CTRL_C then (if e.released then Drop(e) else Send(e, [ch]))
    else if ch < 0x20 then Immediate(e, [ch])
    else e.(buf := Insert(e.buf, ch))
  }

  function Interrupt(e: Ed, again: Again): Ed {
    if e.interrupted && again.Duplicate? then e
    else if e.interrupted && again.Quick? then e.(closed := true)
    else Plain(Discard(e).(interrupted := true), CTRL_C)
  }

  function LendOut(e: Ed): Ed {
    if !e.lending.Available? || e.released then Notice(e)
    else if e.request.Some? then e
    else Discard(e).(buf := Emptied(e.buf), released := true, hinted := false, request := Some(true))
  }

  function TakeBack(e: Ed): Ed {
    if !e.lending.Available? || !e.released then Notice(e)
    else if e.request.Some? then e
    else e.(request := Some(false))
  }

  predicate Special(ch: byte) {
    ch == CTRL_C || ch == CTRL_L || ch == CTRL_R || ch == CTRL_S
  }

  function ClearScreen(e: Ed): Ed {
    if e.transfer then e else CancelEscape(e).(esc := [], buf := NoMenu(e.buf))
  }

  /** A key outside any escape sequence. */
  function FreshKey(e: Ed, ch: byte, again: Again): Ed {
    if ch == ESC then CancelEscape(e).(esc := [ch])
    else if ch == CTRL_L then ClearScreen(e)
    else if ch == CTRL_S && !e.lending.Never? && !e.transfer then LendOut(e)
    else if ch == CTRL_R && !e.lending.Never? && !e.transfer then TakeBack(e)
    else if ch == CTRL_C && e.transfer then Send(e, [ch]).(interrupted := false)
    else if ch == CTRL_C then Interrupt(e, again)
    else Plain(e, ch)
  }

  function Key(e: Ed, ch: byte, again: Again): Ed {
    if e.closed then e
    else if e.rawKeys then Send(e, [ch])
    else if e.released && !e.transfer && !Special(ch) then Drop(e)
    else if e.esc != [] then EscapeKey(e, ch)
    else FreshKey(e, ch, again)
  }

  // ---- everything that happens ----

  datatype Event =
    | Typed(ch: byte, again: Again)
    | EscapeTimer(gen: nat)
    | CaptureTimer(gen: nat, device: seq<Text>)
    | Transfer(active: bool)
    | Raw(raw: bool)
    | LeaseDone(ok: bool)

  function OnEscapeTimer(e: Ed, gen: nat): Ed {
    if gen != e.escGen || e.esc == [] then e
    else if |e.esc| == 1 && e.buf.menu != [] then e.(esc := [], buf := NoMenu(e.buf))
    else Immediate(e.(esc := []), e.esc)
  }

  function Distinct(items: seq<Text>, prefix: Text): seq<Text> {
    if items == [] then []
    else
      var rest := Without(Distinct(items[1..], prefix), items[0]);
      if Extends(items[0], prefix) then [items[0]] + rest else rest
  }

  function Offered(b: Buf, device: seq<Text>): seq<Text> {
    if b.line == [] then [] else Distinct(device + Candidates(b.history, b.line), b.line)
  }

  function OnCapture(e: Ed, gen: nat, device: seq<Text>): Ed {
    if e.capture != Some(gen) || gen != e.captureGen then e
    else if e.transfer then e.(capture := None)
    else e.(capture := None, buf := OpenMenu(e.buf, Offered(e.buf, device)))
  }

  function OnTransfer(e: Ed, active: bool): Ed {
    var e1 := Discard(e).(transfer := active, interrupted := false);
    if active then e1 else e1.(buf := NoMenu(e.buf).(line := [], cursor := 0))
  }

  function OnLease(e: Ed, ok: bool): Ed {
    if e.request.None? then e
    else
      var release := e.request.value;
      var e1 := e.(request := None, released := ok == release);
      if !ok then Notice(e1) else if release then e1 else e1.(hinted := false)
  }

  function Step(e: Ed, ev: Event): Ed {
    match ev
    case Typed(ch, again) => Key(e, ch, again)
    case EscapeTimer(gen) => OnEscapeTimer(e, gen)
    case CaptureTimer(gen, device) => OnCapture(e, gen, device)
    case Transfer(active) => OnTransfer(e, active)
    case Raw(raw) => CancelEscape(e).(esc := [], rawKeys := raw)
    case LeaseDone(ok) => OnLease(e, ok)
  }

  function Run(e: Ed, evs: seq<Event>): Ed
    decreases |evs|
  {
    if evs == [] then e else Step(Run(e, evs[..|evs| - 1]), evs[|evs| - 1])
  }

  lemma RunOne(e: Ed, evs: seq<Event>, ev: Event)
    ensures Run(e, evs + [ev]) == Step(Run(e, evs), ev)
  {
    assert (evs + [ev])[..|evs + [ev]| - 1] == evs;
  }

  // ---- the bounds ----

  /** The cursor is in the line, the place in the history in it or just after it, and
      an open menu has its choice. */
  ghost predicate Valid(b: Buf) {
    && b.cursor <= |b.line|
    && b.index <= |b.history|
    && (b.menu != [] ==> b.choice < |b.menu|)
  }

  lemma LineOps(b: Buf, ch: byte)
    requires Valid(b)
    ensures Valid(NoMenu(b)) && Valid(Emptied(b)) && Valid(HistoryUp(b)) && Valid(HistoryDown(b))
    ensures Valid(CursorLeft(b)) && Valid(Insert(b, ch)) && Valid(Erase(b))
    ensures b.cursor < |b.line| ==> Valid(CursorRight(b))
    ensures b.menu != [] ==> Valid(MoveMenu(b, 1)) && Valid(MoveMenu(b, -1))
  {}

  lemma FillOps(b: Buf, items: seq<Text>)
    requires Valid(b)
    ensures Valid(OpenMenu(b, items)) && Valid(AcceptMenu(b)) && Valid(Committed(b))
  {
    hide Commit;
  }

  lemma SuggestionOps(e: Ed)
    requires Valid(e.buf)
    ensures Valid(AcceptSuggestion(e).buf)
  {
    hide Suggestion;
  }

  lemma ArrowValid(e: Ed, key: byte)
    requires Valid(e.buf)
    ensures Arrow(e, key).Some? ==> Valid(Arrow(e, key).value.buf)
  {
    hide Valid;
    hide HistoryUp;
    hide HistoryDown;
    hide AcceptSuggestion;
    LineOps(e.buf, key);
    SuggestionOps(e);
  }

  lemma PlainValid(e: Ed, ch: byte)
    requires Valid(e.buf)
    ensures Valid(Plain(e, ch).buf)
  {
    hide Valid;
    hide Insert;
    hide Erase;
    hide MoveMenu;
    hide OpenMenu;
    hide AcceptMenu;
    hide Committed;
    hide HasSpace;
    LineOps(e.buf, ch);
    FillOps(e.buf, Candidates(e.buf.history, e.buf.line));
  }

  lemma EscapeValid(e: Ed, ch: byte)
    requires Valid(e.buf)
    ensures Valid(EscapeKey(e, ch).buf)
  {
    hide Valid;
    hide Arrow;
    hide Emptied;
    LineOps(e.buf, ch);
    ArrowValid(CancelEscape(e).(esc := []), ch);
  }

  lemma ControlsValid(e: Ed)
    requires Valid(e.buf)
    ensures Valid(LendOut(e).buf) && Valid(TakeBack(e).buf) && Valid(ClearScreen(e).buf) && Valid(Discard(e).buf)
  {
    hide Valid;
    hide Emptied;
    hide NoMenu;
    LineOps(e.buf, 0);
  }

  lemma FreshValid(e: Ed, ch: byte, again: Again)
    requires Valid(e.buf)
    ensures Valid(FreshKey(e, ch, again).buf)
  {
    hide Valid;
    hide Plain;
    hide LendOut;
    hide TakeBack;
    hide ClearScreen;
    hide Discard;
    ControlsValid(e);
    PlainValid(e, ch);
    PlainValid(Discard(e).(interrupted := true), CTRL_C);
  }

  lemma TimersValid(e: Ed, ev: Event)
    requires Valid(e.buf) && (ev.EscapeTimer? || ev.CaptureTimer?)
    ensures Valid(Step(e, ev).buf)
  {
    hide Valid;
    hide Key;
    hide Offered;
    hide OpenMenu;
    hide Emptied;
    hide NoMenu;
    LineOps(e.buf, 0);
    if ev.CaptureTimer? {
      FillOps(e.buf, Offered(e.buf, ev.device));
    }
  }

  lemma ModesValid(e: Ed, ev: Event)
    requires Valid(e.buf) && (ev.Transfer? || ev.Raw? || ev.LeaseDone?)
    ensures Valid(Step(e, ev).buf)
  {
    hide Key;
  }

  lemma StepValid(e: Ed, ev: Event)
    requires Valid(e.buf)
    ensures Valid(Step(e, ev).buf)
  {
    hide Key;
    hide Valid;
    match ev
    case Typed(ch, again) => KeyValid(e, ch, again);
    case EscapeTimer(_) => TimersValid(e, ev);
    case CaptureTimer(_, _) => TimersValid(e, ev);
    case _ => ModesValid(e, ev);
  }

  lemma KeyValid(e: Ed, ch: byte, again: Again)
    requires Valid(e.buf)
    ensures Valid(Key(e, ch, again).buf)
  {
    hide EscapeKey;
    hide FreshKey;
    EscapeValid(e, ch);
    FreshValid(e, ch, again);
  }

  /** For every sequence of keys, timers, transfers and lease answers. */
  lemma {:induction false} RunValid(history: seq<Text>, lending: Lending, evs: seq<Event>)
    ensures Valid(Run(Start(history, lending), evs).buf)
    decreases |evs|
  {
    hide Step;
    if evs != [] {
      RunValid(history, lending, evs[..|evs| - 1]);
      StepValid(Run(Start(history, lending), evs[..|evs| - 1]), evs[|evs| - 1]);
    }
  }

  // ---- a port that is lent out hears nothing ----

  /** The port is lent to another program, and no transfer or raw keys stand in for
      the editor. */
  predicate LentOut(e: Ed) {
    e.released && !e.transfer && !e.rawKeys
  }

  /** A transfer ends while the port is lent out and an escape sequence is pending. */
  predicate Lapse(e: Ed, ev: Event) {
    ev == Transfer(false) && e.released && e.esc != []
  }

  /** What puts an end to it: any key, the sequence's own timer, raw keys, another
      transfer, or the port coming back. */
  predicate Mends(e: Ed, ev: Event) {
    match ev
    case Typed(_, _) => true
    case EscapeTimer(gen) => gen == e.escGen
    case CaptureTimer(_, _) => false
    case Transfer(active) => active
    case Raw(_) => true
    case LeaseDone(ok) => e.request.Some? && ok != e.request.value
  }

  /** The last lapse of a run has not been mended. */
  predicate Lapsed(e: Ed, evs: seq<Event>)
    decreases |evs|
  {
    evs != [] &&
    var n := |evs| - 1;
    var m := Run(e, evs[..n]);
    Lapse(m, evs[n]) || (Lapsed(e, evs[..n]) && !Mends(m, evs[n]))
  }

  /** Only a session that can lend its port has lent it; while it is lent and no transfer
      runs there is no menu to leave and no capture to come; raw keys leave no sequence, nor
      does closing. */
  predicate Calm(e: Ed) {
    && (e.released ==> e.lending.Available?) && (e.request.Some? ==> e.released)
    && (e.released && !e.transfer ==> e.buf.menu == [] && e.capture.None?)
    && (e.rawKeys || e.closed ==> e.esc == [])
  }

  /** Nothing that lending turns on changes. */
  ghost predicate Aside(e: Ed, r: Ed) {
    && (r.esc == e.esc || r.esc == []) && r.released == e.released && r.transfer == e.transfer
    && r.lending == e.lending && r.request == e.request && r.rawKeys == e.rawKeys && r.closed == e.closed
    && r.interrupted == e.interrupted
  }

  lemma DiscardAside(e: Ed)
    ensures Aside(e, Discard(e))
  {}

  lemma DropAside(e: Ed)
    ensures Aside(e, Drop(e)) && Drop(e).out == e.out
  {}

  lemma ImmediateAside(e: Ed, control: Text)
    ensures Aside(e, Immediate(e, control))
  {
    hide Emptied;
  }

  lemma EnterAside(e: Ed)
    ensures Aside(e, Enter(e))
  {
    hide Committed;
  }

  lemma TabAside(e: Ed)
    ensures Aside(e, Tab(e))
  {
    hide OpenMenu;
    hide Candidates;
    hide HasSpace;
    hide MoveMenu;
    hide Discard;
    DiscardAside(e);
  }

  lemma PlainCalm(e: Ed, ch: byte)
    ensures Aside(e, Plain(e, ch))
    ensures e.released && ch == CTRL_C ==> Plain(e, ch).out == e.out
  {
    hide Insert;
    hide Erase;
    hide AcceptMenu;
    hide Enter;
    hide Tab;
    hide Drop;
    hide Immediate;
    EnterAside(e);
    TabAside(e);
    DropAside(e);
    ImmediateAside(e, [ch]);
  }

  lemma SuggestionAside(e: Ed)
    ensures Aside(e, AcceptSuggestion(e))
  {
    hide Suggestion;
  }

  lemma ArrowCalm(e: Ed, key: byte)
    requires Arrow(e, key).Some?
    ensures Aside(e, Arrow(e, key).value)
  {
    hide HistoryUp;
    hide HistoryDown;
    hide MoveMenu;
    hide CursorLeft;
    hide CursorRight;
    hide AcceptSuggestion;
    SuggestionAside(e);
  }

  lemma EscapeCalm(e: Ed, ch: byte)
    requires Calm(e) && !(e.released && !e.transfer) && !e.rawKeys && !e.closed
    ensures Calm(EscapeKey(e, ch)) && (EscapeKey(e, ch).released && !EscapeKey(e, ch).transfer ==> e.released && !e.transfer)
  {
    hide Arrow;
    hide Immediate;
    hide Begins;
    var e1 := CancelEscape(e).(esc := []);
    ImmediateAside(e1, e.esc + [ch]);
    if Arrow(e1, ch).Some? {
      ArrowCalm(e1, ch);
    }
  }

  /** A control key that the released state lets through breaks off a pending sequence,
      and both go out. */
  lemma EscapeSends(e: Ed, ch: byte)
    requires Calm(e) && LentOut(e) && Special(ch) && e.esc != []
    ensures var r := EscapeKey(e, ch);
            Calm(r) && r.esc == [] && r.released && !r.transfer && r.out != e.out
  {
    hide Emptied;
    var e1 := CancelEscape(e).(esc := []);
    assert Arrow(e1, ch).None?;
    EmptiedMenu(e.buf);
    assert |Immediate(e1, e.esc + [ch]).out| > |e.out|;
  }

  lemma EmptiedMenu(b: Buf)
    ensures Emptied(b).menu == [] && NoMenu(b).menu == []
  {}

  lemma FreshCalm(e: Ed, ch: byte, again: Again)
    requires Calm(e) && e.esc == [] && !e.rawKeys && !e.closed
    requires e.released && !e.transfer ==> Special(ch)
    ensures var r := FreshKey(e, ch, again);
            && Calm(r) && (r.released && !r.transfer ==> r.esc == [])
            && (e.released && !e.transfer ==> r.out == e.out)
  {
    hide Plain;
    hide Emptied;
    hide NoMenu;
    EmptiedMenu(e.buf);
    PlainCalm(e, ch);
    PlainCalm(Discard(e).(interrupted := true), CTRL_C);
    ControlLeaves(Discard(e).(interrupted := true));
  }

  /** Ctrl+C on a port that is lent out leaves no menu. */
  lemma ControlLeaves(e: Ed)
    ensures e.released && e.buf.menu == [] && e.capture.None? ==>
              Plain(e, CTRL_C).buf.menu == [] && Plain(e, CTRL_C).capture.None?
  {}

  lemma DropCalm(e: Ed)
    requires Calm(e)
    ensures Calm(Drop(e)) && Drop(e).esc == [] && Drop(e).out == e.out
  {}

  lemma KeyCalm(e: Ed, ch: byte, again: Again)
    requires Calm(e)
    ensures var r := Key(e, ch, again);
            && Calm(r) && (r.released && !r.transfer ==> r.esc == [])
            && (LentOut(e) ==> (r.out != e.out <==> e.esc != [] && Special(ch)))
  {
    hide EscapeKey;
    hide FreshKey;
    hide Drop;
    if !e.closed && !e.rawKeys {
      if e.released && !e.transfer && !Special(ch) {
        DropCalm(e);
        DropAside(e);
      } else if e.esc == [] {
        FreshCalm(e, ch, again);
      } else if LentOut(e) {
        EscapeSends(e, ch);
      } else {
        EscapeCalm(e, ch);
      }
    }
  }

  lemma EscapeTimerCalm(e: Ed, gen: nat)
    requires Calm(e)
    ensures var r := OnEscapeTimer(e, gen);
            && Calm(r) && r.released == e.released && r.transfer == e.transfer
            && r.esc == (if gen == e.escGen then [] else e.esc)
            && (LentOut(e) ==> (r.out != e.out <==> e.esc != [] && gen == e.escGen))
  {
    hide Emptied;
    hide NoMenu;
    EmptiedMenu(e.buf);
    if e.esc != [] && e.buf.menu == [] {
      assert |Immediate(e.(esc := []), e.esc).out| > |e.out|;
    }
  }

  lemma CaptureCalm(e: Ed, gen: nat, device: seq<Text>)
    requires Calm(e)
    ensures var r := OnCapture(e, gen, device);
            && Calm(r) && r.released == e.released && r.transfer == e.transfer && r.esc == e.esc && r.out == e.out
  {
    hide Offered;
    hide OpenMenu;
  }

  lemma TransferCalm(e: Ed, active: bool)
    requires Calm(e)
    ensures var r := OnTransfer(e, active);
            && Calm(r) && r.out == e.out && r.esc == e.esc && r.transfer == active && r.released == e.released
  {}

  lemma RawCalm(e: Ed, raw: bool)
    requires Calm(e)
    ensures var r := CancelEscape(e).(esc := [], rawKeys := raw);
            && Calm(r) && r.out == e.out && r.transfer == e.transfer && r.released == e.released
  {}

  lemma LeaseCalm(e: Ed, ok: bool)
    requires Calm(e)
    ensures var r := OnLease(e, ok);
            && Calm(r) && r.out == e.out && r.esc == e.esc && r.transfer == e.transfer
            && (r.released <==> e.released && !Mends(e, LeaseDone(ok)))
  {
    hide NoMenu;
    EmptiedMenu(e.buf);
  }

  /** While the port is lent out the device is sent something exactly when a sequence is
      pending and its timer fires or a control key breaks it off. */
  lemma SendsExactly(e: Ed, ev: Event)
    requires Calm(e) && LentOut(e)
    ensures Step(e, ev).out != e.out <==>
            e.esc != [] && (ev == EscapeTimer(e.escGen) || (ev.Typed? && Special(ev.ch)))
  {
    hide Key;
    hide Calm;
    hide OnEscapeTimer;
    hide OnCapture;
    hide OnTransfer;
    hide OnLease;
    match ev
    case Typed(ch, again) => KeyCalm(e, ch, again);
    case EscapeTimer(gen) => EscapeTimerCalm(e, gen);
    case CaptureTimer(gen, device) => CaptureCalm(e, gen, device);
    case Transfer(active) => TransferCalm(e, active);
    case Raw(raw) => RawCalm(e, raw);
    case LeaseDone(ok) => LeaseCalm(e, ok);
  }

  lemma StepCalm(e: Ed, ev: Event, lapsed: bool)
    requires Calm(e) && (lapsed ==> e.released && !e.transfer) && (e.released && !e.transfer ==> (e.esc != [] <==> lapsed))
    ensures var r := Step(e, ev);
            var after := Lapse(e, ev) || (lapsed && !Mends(e, ev));
            && Calm(r) && (after ==> r.released && !r.transfer)
            && (r.released && !r.transfer ==> (r.esc != [] <==> after))
  {
    hide Key;
    hide Calm;
    hide OnEscapeTimer;
    hide OnCapture;
    hide OnTransfer;
    hide OnLease;
    match ev
    case Typed(ch, again) => KeyCalm(e, ch, again);
    case EscapeTimer(gen) => EscapeTimerCalm(e, gen);
    case CaptureTimer(gen, device) => CaptureCalm(e, gen, device);
    case Transfer(active) => TransferCalm(e, active);
    case Raw(raw) => RawCalm(e, raw);
    case LeaseDone(ok) => LeaseCalm(e, ok);
  }

  lemma {:induction false} RunCalm(history: seq<Text>, lending: Lending, evs: seq<Event>)
    ensures var e := Run(Start(history, lending), evs);
            && Calm(e) && (Lapsed(Start(history, lending), evs) ==> e.released && !e.transfer)
            && (e.released && !e.transfer ==> (e.esc != [] <==> Lapsed(Start(history, lending), evs)))
    decreases |evs|
  {
    hide Step;
    hide Lapse;
    hide Mends;
    if evs != [] {
      var n := |evs| - 1;
      RunCalm(history, lending, evs[..n]);
      StepCalm(Run(Start(history, lending), evs[..n]), evs[n], Lapsed(Start(history, lending), evs[..n]));
    }
  }

  /** After any history, a port that is lent out, with no transfer running, is sent
      nothing by any key, timer or other event, if and only if no transfer has ended with
      a sequence pending that nothing has mended since. */
  lemma {:induction false} LentOutIsSilent(history: seq<Text>, lending: Lending, evs: seq<Event>)
    requires LentOut(Run(Start(history, lending), evs))
    ensures (forall ev :: Run(Start(history, lending), evs + [ev]).out == Run(Start(history, lending), evs).out)
            <==> !Lapsed(Start(history, lending), evs)
  {
    hide Step;
    hide Run;
    hide Lapsed;
    var s := Start(history, lending);
    var e := Run(s, evs);
    RunCalm(history, lending, evs);
    forall ev
      ensures Run(s, evs + [ev]).out != e.out <==>
              e.esc != [] && (ev == EscapeTimer(e.escGen) || (ev.Typed? && Special(ev.ch)))
    {
      RunOne(s, evs, ev);
      SendsExactly(e, ev);
    }
    assert e.esc != [] ==> Run(s, evs + [EscapeTimer(e.escGen)]).out != e.out;
  }

  lemma FirstKeys(history: seq<Text>)
    ensures var e := Start(history, Available);
            var e1 := Key(e, CTRL_S, Fresh);
            var e2 := OnTransfer(OnLease(e1, true), true);
            var e3 := Key(e2, ESC, Fresh);
            && e1.released && e1.request == Some(true)
            && e3.released && e3.esc == [ESC] && e3.escGen == 1 && e3.transfer && e3.buf.line == [] && e3.out == []
            && e3.buf.menu == [] && !e3.rawKeys && !e3.closed
  {}

  /** It does not hold without that condition: the sequence that was pending when the
      transfer ended goes to the port that is lent out. */
  lemma LapseIsHeard(history: seq<Text>)
    ensures exists evs, gen :: var e := Run(Start(history, Available), evs);
              LentOut(e) && Run(Start(history, Available), evs + [EscapeTimer(gen)]).out == e.out + [ESC]
  {
    hide Step;
    var e := Start(history, Available);
    var s, l, t, k, u := Typed(CTRL_S, Fresh), LeaseDone(true), Transfer(true), Typed(ESC, Fresh), Transfer(false);
    RunOne(e, [], s);
    RunOne(e, [] + [s], l);
    RunOne(e, [] + [s] + [l], t);
    RunOne(e, [] + [s] + [l] + [t], k);
    RunOne(e, [] + [s] + [l] + [t] + [k], u);
    var evs := [] + [s] + [l] + [t] + [k] + [u];
    RunOne(e, evs, EscapeTimer(1));
    LapseSteps(history);
    assert Run(e, []) == e;
    assert LentOut(Run(e, evs));
  }

  lemma LapseSteps(history: seq<Text>)
    ensures var e := Start(history, Available);
            var e4 := Step(Step(Step(Step(e, Typed(CTRL_S, Fresh)), LeaseDone(true)), Transfer(true)), Typed(ESC, Fresh));
            var e5 := Step(e4, Transfer(false));
            LentOut(e5) && Step(e5, EscapeTimer(1)).out == e5.out + [ESC]
  {
    FirstKeys(history);
    var e4 := Key(OnTransfer(OnLease(Key(Start(history, Available), CTRL_S, Fresh), true), true), ESC, Fresh);
    hide Key;
    var e5 := OnTransfer(e4, false);
    assert e5.buf.line + [ESC] == [ESC];
  }

  // ---- editing ----

  predicate Printable(ch: byte) {
    ch >= 0x20 && ch != DEL
  }

  /** Nothing but the line itself is under way. */
  predicate Idle(e: Ed) {
    !e.closed && !e.rawKeys && !e.released && e.esc == [] && e.buf.menu == []
  }

  function Typing(e: Ed, data: Text): Ed
    decreases |data|
  {
    if data == [] then e else Key(Typing(e, data[..|data| - 1]), data[|data| - 1], Fresh)
  }

  lemma TypeOne(e: Ed, ch: byte)
    requires Idle(e) && Printable(ch) && e.buf.cursor == |e.buf.line|
    ensures var r := Key(e, ch, Fresh);
            && Idle(r) && r.out == e.out && r.buf.line == e.buf.line + [ch] && r.buf.cursor == |r.buf.line|
  {
    assert e.buf.line[..|e.buf.line|] == e.buf.line && e.buf.line[|e.buf.line|..] == [];
  }

  /** What is typed on an empty line is the line, and nothing of it is sent yet. */
  lemma {:induction false} TypedIsLine(e: Ed, text: Text)
    requires Idle(e) && e.buf.line == [] && e.buf.cursor == 0
    requires forall i :: 0 <= i < |text| ==> Printable(text[i])
    ensures var r := Typing(e, text);
            Idle(r) && r.out == e.out && r.buf.line == text && r.buf.cursor == |text|
    decreases |text|
  {
    hide Key;
    hide Idle;
    if text != [] {
      var n := |text| - 1;
      TypedIsLine(e, text[..n]);
      TypeOne(Typing(e, text[..n]), text[n]);
      assert text[..n] + [text[n]] == text;
    }
  }

  /** Enter sends exactly the line, and starts an empty one. */
  lemma EnterSends(e: Ed)
    requires Idle(e)
    ensures var r := Key(e, ENTER, Fresh);
            Idle(r) && r.out == e.out + e.buf.line + [NEWLINE] && r.buf.line == [] && r.buf.cursor == 0
  {
    assert e.out + (e.buf.line + [NEWLINE]) == e.out + e.buf.line + [NEWLINE];
  }

  lemma {:induction false} TypedLineIsSent(e: Ed, text: Text)
    requires Idle(e) && e.buf.line == [] && e.buf.cursor == 0
    requires forall i :: 0 <= i < |text| ==> Printable(text[i])
    ensures Key(Typing(e, text), ENTER, Fresh).out == e.out + text + [NEWLINE]
  {
    hide Key;
    hide Idle;
    TypedIsLine(e, text);
    EnterSends(Typing(e, text));
  }

  /** Backspace undoes a key, anywhere in the line. */
  lemma EraseUndoes(b: Buf, ch: byte)
    requires b.cursor <= |b.line|
    ensures Erase(Insert(b, ch)) == b.(index := |b.history|, menu := [])
  {
    var line := b.line[..b.cursor] + [ch] + b.line[b.cursor..];
    assert line[..b.cursor] == b.line[..b.cursor] && line[b.cursor + 1..] == b.line[b.cursor..];
    assert b.line[..b.cursor] + b.line[b.cursor..] == b.line;
  }

  lemma SuggestNothing(history: seq<Text>)
    ensures Suggestion(history, []) == None
  {}

  lemma {:induction false} SuggestionIsNewest(history: seq<Text>, prefix: Text)
    requires prefix != []
    ensures var s := Suggestion(history, prefix);
            if s.None? then forall i :: 0 <= i < |history| ==> !Extends(history[i], prefix)
            else exists i :: 0 <= i < |history| && history[i] == s.value && Extends(history[i], prefix)
                             && forall j :: i < j < |history| ==> !Extends(history[j], prefix)
    decreases |history|
  {
    if history != [] {
      var n := |history| - 1;
      SuggestionIsNewest(history[..n], prefix);
      if !Extends(history[n], prefix) && Suggestion(history, prefix).Some? {
        var i :| 0 <= i < n && history[..n][i] == Suggestion(history, prefix).value && Extends(history[..n][i], prefix)
                 && forall j :: i < j < n ==> !Extends(history[..n][j], prefix);
        assert history[i] == history[..n][i];
        forall j | i < j < |history|
          ensures !Extends(history[j], prefix)
        {
          if j < n {
            assert history[..n][j] == history[j];
          }
        }
      } else if Suggestion(history, prefix).None? {
        forall i | 0 <= i < |history|
          ensures !Extends(history[i], prefix)
        {
          if i < n {
            assert history[..n][i] == history[i];
          }
        }
      }
    }
  }
}
