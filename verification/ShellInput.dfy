/** The shell's input object: one key after another under its mutex, proved to be the
    steps of LineEditor.dfy. */
module ShellInput {
  import opened Crc
  import opened LineEditor

  class InputState {
    const lending: Lending
    var line: Text
    var cursor: nat
    var history: seq<Text>
    var index: nat
    var menu: seq<Text>
    var choice: nat
    var esc: Text
    var escGen: nat
    var capture: Option<nat>
    var captureGen: nat
    var interrupted: bool
    var transfer: bool
    var rawKeys: bool
    var released: bool
    var hinted: bool
    var request: Option<bool>
    var closed: bool
    var out: Text

    function Line(): Buf
      reads this`line, this`cursor, this`history, this`index, this`menu, this`choice
    {
      Buf(line, cursor, history, index, menu, choice)
    }

    function View(): Ed
      reads this
    {
      Ed(Line(), esc, escGen, capture, captureGen, interrupted, transfer, rawKeys, lending, released, hinted, request,
         closed, out)
    }

    constructor (history: seq<Text>, lending: Lending)
      ensures View() == Start(history, lending)
    {
      this.lending := lending;
      line, cursor, this.history, index, menu, choice := [], 0, history, |history|, [], 0;
      esc, escGen, capture, captureGen, interrupted := [], 0, None, 0, false;
      transfer, rawKeys, released, hinted, request, closed, out := false, false, false, false, None, false, [];
    }

    method SendBytes(data: Text)
      modifies this`out
      ensures View() == Send(old(View()), data)
    {
      out := out + data;
    }

    // ---- the line, in place ----

    method CloseMenu()
      modifies this`menu
      ensures Line() == NoMenu(old(Line()))
    {
      menu := [];
    }

    method EmptyLine()
      modifies this`line, this`cursor, this`index, this`menu
      ensures Line() == Emptied(old(Line()))
    {
      line, cursor, index, menu := [], 0, |history|, [];
    }

    method ForgetLine()
      modifies this`line, this`cursor
      ensures Line() == old(Line()).(line := [], cursor := 0)
    {
      line, cursor := [], 0;
    }

    method FillLine(text: Text)
      modifies this`line, this`cursor, this`index
      ensures Line() == Fill(old(Line()), text)
    {
      line, cursor, index := text, |text|, |history|;
    }

    method Offer(items: seq<Text>)
      modifies this`line, this`cursor, this`index, this`menu, this`choice
      ensures Line() == OpenMenu(old(Line()), items)
    {
      menu, choice := [], 0;
      if |items| == 1 {
        FillLine(items[0]);
      } else if |items| > 1 {
        menu := items;
      }
    }

    method MoveChoice(delta: int)
      requires menu != [] && -1 <= delta <= 1
      modifies this`choice
      ensures Line() == MoveMenu(old(Line()), delta)
    {
      choice := (choice + delta + |menu|) % |menu|;
    }

    method AcceptChoice()
      requires Valid(Line()) && menu != []
      modifies this`line, this`cursor, this`index, this`menu
      ensures Line() == AcceptMenu(old(Line()))
    {
      FillLine(menu[choice]);
      menu := [];
    }

    method InsertKey(ch: byte)
      requires Valid(Line())
      modifies this`line, this`cursor, this`index, this`menu
      ensures Line() == Insert(old(Line()), ch)
    {
      line := line[..cursor] + [ch] + line[cursor..];
      cursor := cursor + 1;
      index := |history|;
      menu := [];
    }

    method EraseKey()
      requires Valid(Line())
      modifies this`line, this`cursor, this`menu
      ensures Line() == Erase(old(Line()))
    {
      if cursor > 0 {
        line := line[..cursor - 1] + line[cursor..];
        cursor := cursor - 1;
        menu := [];
      }
    }

    method Up()
      requires Valid(Line())
      modifies this`line, this`cursor, this`index
      ensures Line() == HistoryUp(old(Line()))
    {
      if |history| == 0 {
        return;
      }
      if index > 0 {
        index := index - 1;
      }
      line := history[index];
      cursor := |line|;
    }

    method Down()
      modifies this`line, this`cursor, this`index
      ensures Line() == HistoryDown(old(Line()))
    {
      if |history| == 0 {
        return;
      }
      if index + 1 < |history| {
        index := index + 1;
        line := history[index];
      } else {
        index := |history|;
        line := [];
      }
      cursor := |line|;
    }

    method Right()
      modifies this`cursor
      ensures Line() == CursorRight(old(Line()))
    {
      cursor := cursor + 1;
    }

    method Left()
      modifies this`cursor
      ensures Line() == CursorLeft(old(Line()))
    {
      if cursor > 0 {
        cursor := cursor - 1;
      }
    }

    /** The newest entry of the history that extends the line. */
    method Suggest() returns (item: Option<Text>)
      ensures item == Suggestion(history, line)
    {
      if line == [] {
        SuggestNothing(history);
        return None;
      }
      var i := |history|;
      assert history[..i] == history;
      while i > 0
        invariant 0 <= i <= |history|
        invariant Suggestion(history, line) == Suggestion(history[..i], line)
      {
        i := i - 1;
        assert history[..i + 1][..i] == history[..i];
        if Extends(history[i], line) {
          return Some(history[i]);
        }
      }
      item := None;
    }

    /** The line joins the history, and a new one begins. */
    method CommitLine()
      modifies this`line, this`cursor, this`history, this`index, this`menu
      ensures Line() == Committed(old(Line()))
    {
      hide Blank;
      if !Blank(line) && !(|history| > 0 && history[|history| - 1] == line) {
        history := history + [line];
        if |history| > HISTORY_LIMIT {
          history := history[|history| - HISTORY_LIMIT..];
        }
      }
      EmptyLine();
    }

    // ---- parts of a key ----

    method NoticeText()
      modifies this`menu
      ensures View() == Notice(old(View()))
    {
      CloseMenu();
    }

    method CancelEscapeFlush()
      modifies this`escGen
      ensures View() == CancelEscape(old(View()))
    {
      escGen := escGen + 1;
    }

    method DiscardCompletions()
      modifies this`captureGen, this`capture, this`menu
      ensures View() == Discard(old(View()))
    {
      captureGen := captureGen + 1;
      capture := None;
      CloseMenu();
    }

    method DropKey()
      modifies this
      ensures View() == Drop(old(View()))
    {
      CancelEscapeFlush();
      esc := [];
      if !hinted && !lending.Never? {
        hinted := true;
        NoticeText();
      }
    }

    method TakeImmediate(control: Text)
      modifies this
      ensures View() == Immediate(old(View()), control)
    {
      EmptiedTwice(Line());
      hide Emptied;
      hide NoMenu;
      var payload := line + control;
      EmptyLine();
      DiscardCompletions();
      SendBytes(payload);
    }

    method AcceptHint()
      modifies this
      ensures View() == AcceptSuggestion(old(View()))
    {
      hide Suggestion;
      var item := Suggest();
      if item.Some? {
        line := item.value;
        cursor := |line|;
        DiscardCompletions();
      }
    }

    /** The last byte of an escape sequence; `ok`: it is a key that moves. */
    method HandleArrow(key: byte) returns (ok: bool)
      requires Valid(Line())
      modifies this
      ensures ok == Arrow(old(View()), key).Some?
      ensures View() == if ok then Arrow(old(View()), key).value else old(View())
    {
      hide HistoryUp;
      hide HistoryDown;
      hide MoveMenu;
      hide CursorRight;
      hide CursorLeft;
      hide AcceptSuggestion;
      hide Valid;
      ok := true;
      if menu != [] {
        if key == 0x41 || key == 0x44 || key == 0x5a {
          MoveChoice(-1);
        } else if key == 0x42 || key == 0x43 {
          MoveChoice(1);
        } else {
          ok := false;
        }
      } else if key == 0x41 {
        Up();
      } else if key == 0x42 {
        Down();
      } else if key == 0x43 {
        if cursor < |line| {
          Right();
        } else {
          AcceptHint();
        }
      } else if key == 0x44 {
        Left();
      } else {
        ok := false;
      }
    }

    method SetEscape(s: Text)
      modifies this`esc, this`escGen
      ensures View() == CancelEscape(old(View())).(esc := s)
    {
      esc := s;
      CancelEscapeFlush();
    }

    method EscapeByte(ch: byte)
      requires esc != [] && Valid(Line())
      modifies this
      ensures View() == EscapeKey(old(View()), ch)
    {
      hide Arrow;
      hide Immediate;
      hide Valid;
      var pending := esc + [ch];
      if |pending| == 2 && (ch == 0x5b || ch == 0x4f) {
        SetEscape(pending);
        return;
      }
      SetEscape([]);
      if |pending| == 3 && Bracket(pending[1]) {
        var ok := HandleArrow(pending[2]);
        if ok {
          return;
        }
      }
      TakeImmediate(pending);
    }

    method EnterKey()
      modifies this
      ensures View() == Enter(old(View()))
    {
      CommittedTwice(Line());
      hide Committed;
      hide NoMenu;
      SendBytes(line + [NEWLINE]);
      CommitLine();
      DiscardCompletions();
    }

    method AskDevice()
      modifies this`capture, this`out
      ensures View() == Send(old(View()).(capture := Some(old(captureGen))), [TAB])
    {
      capture := Some(captureGen);
      SendBytes([TAB]);
    }

    method OfferHistory()
      modifies this`line, this`cursor, this`index, this`menu, this`choice
      ensures View() == old(View()).(buf := OpenMenu(old(Line()), Candidates(old(history), old(line))))
    {
      hide Candidates;
      hide OpenMenu;
      Offer(Candidates(history, line));
    }

    method TabKey()
      modifies this
      ensures View() == Tab(old(View()))
    {
      hide MoveMenu;
      hide Candidates;
      hide HasSpace;
      hide OpenMenu;
      if menu != [] {
        MoveChoice(1);
        return;
      }
      OfferAnew(Line(), Candidates(history, line));
      DiscardCompletions();
      if !HasSpace(line) {
        AskDevice();
      } else {
        OfferHistory();
      }
    }

    method PlainKey(ch: byte)
      requires Valid(Line())
      modifies this
      ensures View() == Plain(old(View()), ch)
    {
      hide AcceptMenu;
      hide Enter;
      hide Erase;
      hide Tab;
      hide Drop;
      hide Immediate;
      hide Insert;
      hide Valid;
      if (ch == ENTER || ch == NEWLINE) && menu != [] {
        AcceptChoice();
      } else if ch == ENTER || ch == NEWLINE {
        EnterKey();
      } else if ch == BS || ch == DEL {
        EraseKey();
      } else if ch == TAB {
        TabKey();
      } else if ch == CTRL_C {
        if released {
          DropKey();
        } else {
          SendBytes([ch]);
        }
      } else if ch < 0x20 {
        TakeImmediate([ch]);
      } else {
        InsertKey(ch);
      }
    }

    method InterruptKey(again: Again)
      requires Valid(Line())
      modifies this
      ensures View() == Interrupt(old(View()), again)
    {
      hide Plain;
      hide Valid;
      hide NoMenu;
      if interrupted && again.Duplicate? {
        return;
      }
      if interrupted && again.Quick? {
        closed := true;
        return;
      }
      interrupted := true;
      LineOps(Line(), 0);
      DiscardCompletions();
      PlainKey(CTRL_C);
    }

    method LendOutKey()
      modifies this
      ensures View() == LendOut(old(View()))
    {
      EmptiedTwice(Line());
      hide Emptied;
      hide NoMenu;
      if !lending.Available? || released {
        NoticeText();
      } else if request.None? {
        released, hinted, request := true, false, Some(true);
        EmptyLine();
        DiscardCompletions();
      }
    }

    method TakeBackKey()
      modifies this
      ensures View() == TakeBack(old(View()))
    {
      if !lending.Available? || !released {
        NoticeText();
      } else if request.None? {
        request := Some(false);
      }
    }

    method ClearKey()
      modifies this
      ensures View() == ClearScreen(old(View()))
    {
      if !transfer {
        CancelEscapeFlush();
        esc := [];
        CloseMenu();
      }
    }

    method TransferInterrupt()
      modifies this`out, this`interrupted
      ensures View() == Send(old(View()), [CTRL_C]).(interrupted := false)
    {
      interrupted := false;
      SendBytes([CTRL_C]);
    }

    method FreshByte(ch: byte, again: Again)
      requires Valid(Line())
      modifies this
      ensures View() == FreshKey(old(View()), ch, again)
    {
      hide Valid;
      hide ClearScreen;
      hide LendOut;
      hide TakeBack;
      hide Interrupt;
      hide Plain;
      if ch == ESC {
        SetEscape([ch]);
      } else if ch == CTRL_L {
        ClearKey();
      } else if ch == CTRL_S && !lending.Never? && !transfer {
        LendOutKey();
      } else if ch == CTRL_R && !lending.Never? && !transfer {
        TakeBackKey();
      } else if ch == CTRL_C && transfer {
        TransferInterrupt();
      } else if ch == CTRL_C {
        InterruptKey(again);
      } else {
        PlainKey(ch);
      }
    }

    method KeyTyped(ch: byte, again: Again)
      requires Valid(Line())
      modifies this
      ensures View() == Key(old(View()), ch, again) && Valid(Line())
    {
      KeyValid(View(), ch, again);
      hide Valid;
      hide Drop;
      hide EscapeKey;
      hide FreshKey;
      if closed {
        return;
      }
      if rawKeys {
        SendBytes([ch]);
      } else if released && !transfer && !Special(ch) {
        DropKey();
      } else if |esc| > 0 {
        EscapeByte(ch);
      } else {
        FreshByte(ch, again);
      }
    }

    /** What one read of the keyboard brings, each byte with how soon it comes. */
    method Write(keys: seq<(byte, Again)>)
      requires Valid(Line())
      modifies this
      ensures View() == Run(old(View()), Typeds(keys)) && Valid(Line())
    {
      hide Key;
      hide Valid;
      assert Typeds(keys[..0]) == [];
      for i := 0 to |keys|
        invariant View() == Run(old(View()), Typeds(keys[..i])) && Valid(Line())
      {
        assert Typeds(keys[..i + 1]) == Typeds(keys[..i]) + [Typed(keys[i].0, keys[i].1)];
        RunOne(old(View()), Typeds(keys[..i]), Typed(keys[i].0, keys[i].1));
        KeyTyped(keys[i].0, keys[i].1);
      }
      assert keys[..|keys|] == keys;
    }

    /** The escape timer of generation `gen` fires. */
    method EscapeFlush(gen: nat)
      modifies this
      ensures View() == OnEscapeTimer(old(View()), gen)
    {
      hide Immediate;
      if gen != escGen || |esc| == 0 {
        return;
      }
      var pending := esc;
      esc := [];
      if |pending| == 1 && menu != [] {
        CloseMenu();
        return;
      }
      TakeImmediate(pending);
    }

    method SetMode(active: bool)
      modifies this`transfer, this`interrupted
      ensures View() == old(View()).(transfer := active, interrupted := false)
    {
      transfer, interrupted := active, false;
    }

    method SetTransfer(active: bool)
      modifies this
      ensures View() == OnTransfer(old(View()), active)
    {
      hide NoMenu;
      SetMode(active);
      DiscardCompletions();
      if !active {
        ForgetLine();
      }
    }

    method SetRawKeys(raw: bool)
      modifies this
      ensures View() == Step(old(View()), Raw(raw))
    {
      hide Key;
      rawKeys := raw;
      SetEscape([]);
    }

    /** The worker has answered the lease request under way. */
    method FinishLease(ok: bool)
      requires request.Some?
      modifies this
      ensures View() == OnLease(old(View()), ok)
    {
      var release := request.value;
      request := None;
      released := if release then ok else !ok;
      if !ok {
        NoticeText();
      } else if !release {
        hinted := false;
      }
    }
  }

  lemma EmptiedTwice(b: Buf)
    ensures NoMenu(Emptied(b)) == Emptied(b)
  {}

  lemma CommittedTwice(b: Buf)
    ensures NoMenu(Committed(b)) == Committed(b)
  {}

  lemma OfferAnew(b: Buf, items: seq<Text>)
    ensures OpenMenu(NoMenu(b), items) == OpenMenu(b, items)
  {}

  function Typeds(keys: seq<(byte, Again)>): seq<Event> {
    seq(|keys|, i requires 0 <= i < |keys| => Typed(keys[i].0, keys[i].1))
  }
}
