/** What the keys of the line editor do, told by runs of typed keys. */
module Editing {
  import opened Crc
  import opened LineEditor

  const ESCAPE: byte := 0x1b
  const CONTROL_C: byte := 0x03
  const CONTROL_L: byte := 0x0c
  const CONTROL_R: byte := 0x12
  const CONTROL_S: byte := 0x13
  const TAB_KEY: byte := 0x09
  const UP: byte := 0x41
  const DOWN: byte := 0x42
  const RIGHT: byte := 0x43
  const LEFT: byte := 0x44
  const BACKTAB: byte := 0x5a

  /** What follows Escape in the sequences of cursor keys, in either form. */
  predicate Introduces(b: byte) {
    b == 0x5b || b == 0x4f
  }

  function Pressed(keys: Text): seq<Event> {
    seq(|keys|, i requires 0 <= i < |keys| => Typed(keys[i], Fresh))
  }

  /** A cursor key as terminals send it, in either form. */
  function CursorKey(bracket: byte, key: byte): seq<Event> {
    Pressed([ESCAPE, bracket, key])
  }

  function Times(evs: seq<Event>, k: nat): seq<Event> {
    if k == 0 then [] else Times(evs, k - 1) + evs
  }

  lemma {:induction false} RunConcat(e: Ed, a: seq<Event>, b: seq<Event>)
    ensures Run(e, a + b) == Run(Run(e, a), b)
    decreases |b|
  {
    hide Step;
    if b == [] {
      assert a + b == a;
    } else {
      var n := |b| - 1;
      assert (a + b)[..|a + b| - 1] == a + b[..n];
      RunConcat(e, a, b[..n]);
    }
  }

  /** The editor takes keys, and no sequence is pending. */
  predicate Listening(e: Ed) {
    !e.closed && !e.rawKeys && !(e.released && !e.transfer) && e.esc == []
  }

  /** Nothing but the line, the menu and the timers' generations is different. */
  ghost predicate OnlyEdits(e: Ed, r: Ed) {
    Listening(r) && r == e.(buf := r.buf, escGen := r.escGen, capture := r.capture, captureGen := r.captureGen)
    && r.buf.history == e.buf.history
  }

  /** A new editor takes keys; nothing has been typed, sent, hinted at or asked for. */
  lemma NewEditor(history: seq<Text>, lending: Lending)
    ensures var e := Start(history, lending);
            && Listening(e) && e.buf.line == [] && e.buf.cursor == 0 && e.buf.menu == []
            && e.buf.history == history && e.buf.index == |history|
            && e.out == [] && e.capture.None? && e.request.None? && e.lending == lending
            && !e.interrupted && !e.transfer && !e.released && !e.hinted
  {}

  lemma ThreeKeys(e: Ed, bracket: byte, key: byte)
    ensures Run(e, CursorKey(bracket, key)) ==
            Step(Step(Step(e, Typed(ESCAPE, Fresh)), Typed(bracket, Fresh)), Typed(key, Fresh))
  {
    hide Step;
    var a, b, c := Typed(ESCAPE, Fresh), Typed(bracket, Fresh), Typed(key, Fresh);
    assert CursorKey(bracket, key) == [] + [a] + [b] + [c];
    RunOne(e, [], a);
    RunOne(e, [] + [a], b);
    RunOne(e, [] + [a] + [b], c);
    assert Run(e, []) == e;
  }

  /** A sequence of three: a cursor key, or passed on to the device. */
  lemma Sequence(e: Ed, bracket: byte, key: byte)
    requires Listening(e) && Introduces(bracket)
    ensures var e1 := e.(escGen := e.escGen + 3);
            Run(e, CursorKey(bracket, key)) ==
            if Arrow(e1, key).Some? then Arrow(e1, key).value else Immediate(e1, [ESCAPE, bracket, key])
  {
    hide Run;
    hide Step;
    hide Arrow;
    hide Immediate;
    ThreeKeys(e, bracket, key);
    FirstKey(e);
    var e1 := e.(escGen := e.escGen + 1, esc := [ESCAPE]);
    var e2 := e1.(escGen := e1.escGen + 1, esc := [ESCAPE, bracket]);
    assert e1.(esc := []).esc == [] && e2.(esc := []).esc == [];
    SecondKey(e1, bracket);
    ThirdKey(e2, bracket, key);
    assert e2.(escGen := e2.escGen + 1, esc := []) == e.(escGen := e.escGen + 3);
  }

  lemma FirstKey(e: Ed)
    requires Listening(e)
    ensures Step(e, Typed(ESCAPE, Fresh)) == e.(escGen := e.escGen + 1, esc := [ESCAPE])
  {}

  lemma SecondKey(e: Ed, bracket: byte)
    requires Listening(e.(esc := [])) && e.esc == [ESCAPE] && Introduces(bracket)
    ensures Step(e, Typed(bracket, Fresh)) == e.(escGen := e.escGen + 1, esc := [ESCAPE, bracket])
  {
    assert [ESCAPE] + [bracket] == [ESCAPE, bracket];
  }

  lemma ThirdKey(e: Ed, bracket: byte, key: byte)
    requires Listening(e.(esc := [])) && e.esc == [ESCAPE, bracket] && Introduces(bracket)
    ensures var e1 := e.(escGen := e.escGen + 1, esc := []);
            Step(e, Typed(key, Fresh)) ==
            if Arrow(e1, key).Some? then Arrow(e1, key).value else Immediate(e1, [ESCAPE, bracket, key])
  {
    hide Arrow;
    hide Immediate;
    assert [ESCAPE, bracket] + [key] == [ESCAPE, bracket, key];
  }

  // ---- the history ----

  /** Entry `i` of the history is in the line, or, past the newest, nothing. */
  predicate Shows(b: Buf, i: nat) {
    && b.index == i <= |b.history| && b.menu == []
    && b.line == (if i < |b.history| then b.history[i] else []) && b.cursor == |b.line|
  }

  function Below(i: nat, k: nat): nat {
    if k < i then i - k else 0
  }

  /** With no history Up and Down do nothing. */
  lemma NothingToShow(e: Ed, bracket: byte, key: byte)
    requires Listening(e) && Introduces(bracket) && e.buf.menu == [] && e.buf.history == [] && (key == UP || key == DOWN)
    ensures var r := Run(e, CursorKey(bracket, key)); OnlyEdits(e, r) && r.buf == e.buf
  {
    hide Run;
    Sequence(e, bracket, key);
  }

  lemma UpOnce(e: Ed, bracket: byte)
    requires Listening(e) && Introduces(bracket) && e.buf.menu == [] && e.buf.history != [] && e.buf.index <= |e.buf.history|
    ensures var r := Run(e, CursorKey(bracket, UP)); OnlyEdits(e, r) && Shows(r.buf, Below(e.buf.index, 1))
  {
    hide Run;
    Sequence(e, bracket, UP);
  }

  /** Each press of Up goes one entry back, and stays at the oldest. */
  lemma {:induction false} UpGoesBack(e: Ed, bracket: byte, k: nat)
    requires Listening(e) && Introduces(bracket) && e.buf.menu == [] && e.buf.history != [] && e.buf.index <= |e.buf.history|
    requires k > 0
    ensures var r := Run(e, Times(CursorKey(bracket, UP), k)); OnlyEdits(e, r) && Shows(r.buf, Below(e.buf.index, k))
    decreases k
  {
    hide Run;
    var once := CursorKey(bracket, UP);
    RunConcat(e, Times(once, k - 1), once);
    if k > 1 {
      UpGoesBack(e, bracket, k - 1);
      UpOnce(Run(e, Times(once, k - 1)), bracket);
    } else {
      RunNothing(e);
      UpOnce(e, bracket);
    }
  }

  lemma RunNothing(e: Ed)
    ensures Run(e, []) == e
  {}

  lemma DownOnce(e: Ed, bracket: byte)
    requires Listening(e) && Introduces(bracket) && e.buf.menu == [] && e.buf.history != [] && e.buf.index <= |e.buf.history|
    ensures var r := Run(e, CursorKey(bracket, DOWN));
            OnlyEdits(e, r) && Shows(r.buf, if e.buf.index < |e.buf.history| then e.buf.index + 1 else |e.buf.history|)
  {
    hide Run;
    Sequence(e, bracket, DOWN);
  }

  /** Each press of Down goes one entry forward; past the newest the line is empty. */
  lemma {:induction false} DownGoesForward(e: Ed, bracket: byte, k: nat)
    requires Listening(e) && Introduces(bracket) && e.buf.menu == [] && e.buf.history != [] && e.buf.index <= |e.buf.history|
    requires k > 0
    ensures var r := Run(e, Times(CursorKey(bracket, DOWN), k));
            var i := e.buf.index + k;
            OnlyEdits(e, r) && Shows(r.buf, if i < |e.buf.history| then i else |e.buf.history|)
    decreases k
  {
    hide Run;
    var once := CursorKey(bracket, DOWN);
    RunConcat(e, Times(once, k - 1), once);
    if k > 1 {
      DownGoesForward(e, bracket, k - 1);
      DownOnce(Run(e, Times(once, k - 1)), bracket);
    } else {
      RunNothing(e);
      DownOnce(e, bracket);
    }
  }

  /** From an idle editor: k times Up and then j times Down show the entry k - j from the
      newest, with the cursor at its end. */
  lemma {:induction false} ThereAndBack(e: Ed, bracket: byte, k: nat, j: nat)
    requires Idle(e) && Introduces(bracket) && e.buf.index == |e.buf.history| && 0 < k <= |e.buf.history|
    ensures var n := |e.buf.history|;
            var up := Times(CursorKey(bracket, UP), k);
            && Shows(Run(e, up).buf, n - k)
            && Shows(Run(e, up + Times(CursorKey(bracket, DOWN), j)).buf, if j < k then n - k + j else n)
  {
    hide Run;
    hide Shows;
    var up, down := Times(CursorKey(bracket, UP), k), Times(CursorKey(bracket, DOWN), j);
    UpGoesBack(e, bracket, k);
    RunConcat(e, up, down);
    ShowsIndex(Run(e, up).buf, |e.buf.history| - k);
    if j > 0 {
      DownGoesForward(Run(e, up), bracket, j);
    } else {
      RunNothing(Run(e, up));
    }
  }

  lemma ShowsIndex(b: Buf, i: nat)
    requires Shows(b, i)
    ensures b.index == i <= |b.history| && b.menu == []
  {}

  // ---- the cursor ----

  /** Left goes one place back in the line, if there is one, and changes nothing else. */
  lemma LeftMoves(e: Ed, bracket: byte)
    requires Listening(e) && Introduces(bracket) && e.buf.menu == []
    ensures var r := Run(e, CursorKey(bracket, LEFT));
            OnlyEdits(e, r) && r.buf == e.buf.(cursor := Below(e.buf.cursor, 1))
  {
    hide Run;
    Sequence(e, bracket, LEFT);
  }

  /** Right goes one place forward; at the end of the line it takes the newest entry of the
      history that extends it. */
  lemma {:induction false} RightMoves(e: Ed, bracket: byte)
    requires Listening(e) && Introduces(bracket) && e.buf.menu == [] && e.buf.cursor <= |e.buf.line|
    ensures var b, r := e.buf, Run(e, CursorKey(bracket, RIGHT));
            && OnlyEdits(e, r)
            && (b.cursor < |b.line| ==> r.buf == b.(cursor := b.cursor + 1))
            && (b.cursor == |b.line| && Suggestion(b.history, b.line).None? ==> r.buf == b)
            && (b.cursor == |b.line| && Suggestion(b.history, b.line).Some? ==>
                  var text := Suggestion(b.history, b.line).value; r.buf == b.(line := text, cursor := |text|))
  {
    hide Run;
    hide Suggestion;
    Sequence(e, bracket, RIGHT);
  }

  /** Inside the line Right undoes Left. */
  lemma {:induction false} RightUndoesLeft(e: Ed, bracket: byte)
    requires Listening(e) && Introduces(bracket) && e.buf.menu == [] && 0 < e.buf.cursor <= |e.buf.line|
    ensures Run(e, CursorKey(bracket, LEFT) + CursorKey(bracket, RIGHT)).buf == e.buf
  {
    hide Run;
    RunConcat(e, CursorKey(bracket, LEFT), CursorKey(bracket, RIGHT));
    LeftMoves(e, bracket);
    RightMoves(Run(e, CursorKey(bracket, LEFT)), bracket);
  }

  // ---- the menu ----

  predicate Forward(key: byte) {
    key == DOWN || key == RIGHT
  }

  predicate Backward(key: byte) {
    key == UP || key == LEFT || key == BACKTAB
  }

  /** `k` places on from `i`, around a circle of `n`. */
  function Onward(i: nat, k: nat, n: nat): nat
    requires i < n && k <= n
  {
    if i + k < n then i + k else i + k - n
  }

  lemma Wraps(x: nat, n: nat)
    requires 0 < n <= x <= 2 * n
    ensures x % n == if x == 2 * n then 0 else x - n
  {}

  lemma Moves(b: Buf)
    requires b.choice < |b.menu|
    ensures MoveMenu(b, 1) == b.(choice := Onward(b.choice, 1, |b.menu|))
    ensures MoveMenu(b, -1) == b.(choice := if b.choice == 0 then |b.menu| - 1 else b.choice - 1)
  {
    Wraps(b.choice + 1 + |b.menu|, |b.menu|);
    if b.choice > 0 {
      Wraps(b.choice - 1 + |b.menu|, |b.menu|);
    }
  }

  lemma MenuOnce(e: Ed, bracket: byte, key: byte)
    requires Listening(e) && Introduces(bracket) && e.buf.choice < |e.buf.menu|
    ensures var b, r := e.buf, Run(e, CursorKey(bracket, key));
            && (Forward(key) ==> OnlyEdits(e, r) && r.buf == b.(choice := Onward(b.choice, 1, |b.menu|)))
            && (Backward(key) ==>
                  OnlyEdits(e, r) && r.buf == b.(choice := if b.choice == 0 then |b.menu| - 1 else b.choice - 1))
  {
    hide Run;
    hide MoveMenu;
    hide Immediate;
    Moves(e.buf);
    Sequence(e, bracket, key);
    ArrowInMenu(e.(escGen := e.escGen + 3), key);
    hide Arrow;
  }

  lemma ArrowInMenu(e: Ed, key: byte)
    requires e.buf.menu != []
    ensures Forward(key) ==> Arrow(e, key) == Some(e.(buf := MoveMenu(e.buf, 1)))
    ensures Backward(key) ==> Arrow(e, key) == Some(e.(buf := MoveMenu(e.buf, -1)))
  {
    hide MoveMenu;
  }

  /** In an open menu the forward keys go through the items in turn, and after the last
      they start again: once around is where it was. */
  lemma {:induction false} MenuCycles(e: Ed, bracket: byte, key: byte, k: nat)
    requires Listening(e) && Introduces(bracket) && Forward(key) && e.buf.choice < |e.buf.menu| && k <= |e.buf.menu|
    ensures var b, r := e.buf, Run(e, Times(CursorKey(bracket, key), k));
            && OnlyEdits(e, r) && r.buf == b.(choice := Onward(b.choice, k, |b.menu|))
            && (k == |b.menu| ==> r.buf == b)
    decreases k
  {
    hide Run;
    var once := CursorKey(bracket, key);
    if k == 0 {
      RunNothing(e);
    } else {
      RunConcat(e, Times(once, k - 1), once);
      MenuCycles(e, bracket, key, k - 1);
      MenuOnce(Run(e, Times(once, k - 1)), bracket, key);
    }
  }

  /** And a backward key undoes a forward one. */
  lemma {:induction false} BackUndoesForward(e: Ed, bracket: byte, there: byte, back: byte)
    requires Listening(e) && Introduces(bracket) && Forward(there) && Backward(back) && e.buf.choice < |e.buf.menu|
    ensures Run(e, CursorKey(bracket, there) + CursorKey(bracket, back)).buf == e.buf
  {
    hide Run;
    hide CursorKey;
    RunConcat(e, CursorKey(bracket, there), CursorKey(bracket, back));
    MenuOnce(e, bracket, there);
    MenuOnce(Run(e, CursorKey(bracket, there)), bracket, back);
  }

  /** Enter takes the chosen item for the line, and sends nothing; Tab goes to the next. */
  lemma MenuKeys(e: Ed)
    requires Listening(e) && e.buf.choice < |e.buf.menu|
    ensures var b, r := e.buf, Run(e, Pressed([ENTER]));
            && OnlyEdits(e, r) && r.buf.menu == [] && r.buf.line == b.menu[b.choice] && r.buf.cursor == |r.buf.line|
            && r.buf.index == |b.history|
    ensures var b, r := e.buf, Run(e, Pressed([TAB_KEY]));
            OnlyEdits(e, r) && r.buf == b.(choice := Onward(b.choice, 1, |b.menu|))
  {
    hide Run;
    hide MoveMenu;
    Moves(e.buf);
    OneKey(e, ENTER);
    OneKey(e, TAB_KEY);
    hide Key;
    EnterInMenu(e);
    TabInMenu(e);
  }

  lemma EnterInMenu(e: Ed)
    requires Listening(e) && e.buf.menu != []
    ensures Key(e, ENTER, Fresh) == e.(buf := AcceptMenu(e.buf))
  {
    hide AcceptMenu;
  }

  lemma TabInMenu(e: Ed)
    requires Listening(e) && e.buf.menu != []
    ensures Key(e, TAB_KEY, Fresh) == e.(buf := MoveMenu(e.buf, 1))
  {
    hide MoveMenu;
  }

  lemma OneKey(e: Ed, ch: byte)
    ensures Run(e, Pressed([ch])) == Key(e, ch, Fresh)
  {
    hide Key;
    assert Pressed([ch])[..0] == [];
    assert Pressed([ch]) == [Typed(ch, Fresh)];
  }
}
