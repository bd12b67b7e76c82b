/** The first bytes of a control connection, and the worker's answer to a lease
    request. Bytes are written as the characters they stand for. */
module Requests {
  const CLAIM := "\0sio:transfer-claim\0"
  const RELEASE := "\0sio:port-release\0"
  const ACQUIRE := "\0sio:port-acquire\0"
  const OK := "\0sio:port-ok\0"
  const FAILED := "\0sio:port-error\0"
  const ANSWER_LIMIT: nat := 65536

  datatype Request = Data | TransferClaim | PortRelease | PortAcquire

  datatype Preamble = Preamble(text: string, request: Request)

  const SESSION: seq<Preamble> :=
    [Preamble(CLAIM, TransferClaim), Preamble(RELEASE, PortRelease), Preamble(ACQUIRE, PortAcquire)]

  /** One read of the connection; with `failed` nothing comes after it. */
  datatype Read = Read(data: string, failed: bool)

  /** The last read fails, at the end of the stream if not before. */
  predicate Ends(rs: seq<Read>) {
    rs != [] && rs[|rs| - 1].failed
  }

  // ---- what a connection asks for ----

  predicate StartsWith(s: string, p: string) {
    |p| <= |s| && s[..|p|] == p
  }

  /** No preamble begins another. */
  ghost predicate PrefixFree(ps: seq<Preamble>) {
    forall i, j :: 0 <= i < |ps| && 0 <= j < |ps| && i != j ==> !StartsWith(ps[i].text, ps[j].text)
  }

  /** All the bytes a connection delivers. */
  function Flat(rs: seq<Read>): string {
    if rs == [] then "" else rs[0].data + (if rs[0].failed then "" else Flat(rs[1..]))
  }

  /** `request` and `rest` are what the whole stream says: the bytes after the
      preamble it starts with, or all of it. */
  ghost predicate Classified(ps: seq<Preamble>, stream: string, request: Request, rest: string) {
    || (exists i :: 0 <= i < |ps| && ps[i].request == request && stream == ps[i].text + rest)
    || (request == Data && rest == stream && forall i :: 0 <= i < |ps| ==> !StartsWith(stream, ps[i].text))
  }

  lemma TwoStart(stream: string, s: string, t: string)
    requires StartsWith(stream, s) && StartsWith(stream, t)
    ensures StartsWith(s, t) || StartsWith(t, s)
  {
    if |s| <= |t| {
      assert t[..|s|] == stream[..|t|][..|s|] == s;
    } else {
      assert s[..|t|] == stream[..|s|][..|t|] == t;
    }
  }

  lemma StartsItself(t: string, x: string)
    ensures StartsWith(t + x, t) && (t + x)[|t|..] == x
  {}

  lemma OnePreamble(ps: seq<Preamble>, stream: string, i: nat, x: string, b: Request, y: string)
    requires PrefixFree(ps) && Classified(ps, stream, b, y)
    requires i < |ps| && stream == ps[i].text + x
    ensures ps[i].request == b && x == y
  {
    StartsItself(ps[i].text, x);
    forall j | 0 <= j < |ps| && stream == ps[j].text + y
      ensures j == i && x == y
    {
      StartsItself(ps[j].text, y);
      TwoStart(stream, ps[i].text, ps[j].text);
    }
  }

  /** The classification is one. */
  lemma ClassifiedOnce(ps: seq<Preamble>, stream: string, a: Request, b: Request, x: string, y: string)
    requires PrefixFree(ps)
    requires Classified(ps, stream, a, x) && Classified(ps, stream, b, y)
    ensures a == b && x == y
  {
    forall i | 0 <= i < |ps| && ps[i].request == a && stream == ps[i].text + x
      ensures a == b && x == y
    {
      OnePreamble(ps, stream, i, x, b, y);
    }
    forall i | 0 <= i < |ps| && ps[i].request == b && stream == ps[i].text + y
      ensures a == b && x == y
    {
      OnePreamble(ps, stream, i, y, a, x);
    }
  }

  lemma SamePlace(s: string, t: string, k: nat)
    requires k < |t|
    ensures StartsWith(s, t) ==> k < |s| && s[k] == t[k]
  {}

  /** The session server's preambles qualify. */
  lemma SessionPrefixFree()
    ensures PrefixFree(SESSION)
  {
    assert CLAIM[5] == 't' && RELEASE[5] == 'p' && ACQUIRE[5] == 'p';
    assert RELEASE[10] == 'r' && ACQUIRE[10] == 'a';
    forall i, j | 0 <= i < |SESSION| && 0 <= j < |SESSION| && i != j
      ensures !StartsWith(SESSION[i].text, SESSION[j].text)
    {
      var s, t := SESSION[i].text, SESSION[j].text;
      assert |s| > 10 && |t| > 10;
      SamePlace(s, t, 5);
      SamePlace(s, t, 10);
    }
  }

  lemma {:induction false} FlatConcat(a: seq<Read>, b: seq<Read>)
    requires forall i :: 0 <= i < |a| ==> !a[i].failed
    ensures Flat(a + b) == Flat(a) + Flat(b)
    decreases |a|
  {
    if a == [] {
      assert a + b == b;
    } else {
      assert (a + b)[0] == a[0] && (a + b)[1..] == a[1..] + b;
      FlatConcat(a[1..], b);
    }
  }

  lemma FlatHead(a: seq<Read>)
    requires a != []
    ensures Flat(a) == a[0].data + if a[0].failed then "" else Flat(a[1..])
    ensures Flat([a[0]]) == a[0].data
  {}

  predicate Partial(ps: seq<Preamble>, acc: string) {
    exists i :: 0 <= i < |ps| && StartsWith(ps[i].text, acc)
  }

  /** The checks of one turn: a preamble that is there, or one that may still come. */
  method Match(ps: seq<Preamble>, acc: string) returns (found: int, partial: bool)
    ensures found == -1 || (0 <= found < |ps| && StartsWith(acc, ps[found].text))
    ensures found == -1 ==> forall i :: 0 <= i < |ps| ==> !StartsWith(acc, ps[i].text)
    ensures found == -1 ==> partial == Partial(ps, acc)
  {
    partial := false;
    for i := 0 to |ps|
      invariant forall j :: 0 <= j < i ==> !StartsWith(acc, ps[j].text)
      invariant partial == exists j :: 0 <= j < i && StartsWith(ps[j].text, acc)
    {
      if StartsWith(acc, ps[i].text) {
        return i, partial;
      }
      if StartsWith(ps[i].text, acc) {
        partial := true;
      }
    }
    found := -1;
  }

  lemma Begins(acc: string, later: string, t: string)
    requires StartsWith(acc + later, t)
    ensures StartsWith(acc, t) || StartsWith(t, acc)
  {
    if |t| <= |acc| {
      assert acc[..|t|] == (acc + later)[..|t|];
    } else {
      assert t[..|acc|] == (acc + later)[..|t|][..|acc|] == acc;
    }
  }

  lemma NoPreamble(ps: seq<Preamble>, acc: string, later: string)
    requires forall i :: 0 <= i < |ps| ==> !StartsWith(acc, ps[i].text)
    requires Partial(ps, acc) ==> later == ""
    ensures Classified(ps, acc + later, Data, acc + later)
  {
    if Partial(ps, acc) {
      assert acc + later == acc;
    } else {
      forall i | 0 <= i < |ps|
        ensures !StartsWith(acc + later, ps[i].text)
      {
        if StartsWith(acc + later, ps[i].text) {
          Begins(acc, later, ps[i].text);
        }
      }
    }
  }

  /** The bytes still to come once `used` reads are done. */
  function Later(rs: seq<Read>, used: nat): string
    requires used <= |rs|
  {
    if used > 0 && rs[used - 1].failed then "" else Flat(rs[used..])
  }

  lemma SplitAt(rs: seq<Read>, used: nat)
    requires used < |rs|
    ensures rs[..used] + rs[used..] == rs && rs[..used] + [rs[used]] == rs[..used + 1]
    ensures rs[used..][0] == rs[used] && rs[used..][1..] == rs[used + 1..]
  {}

  lemma Regroup(a: string, b: string, d: string)
    ensures a + (b + d) == a + b + d
  {}

  lemma OneMoreRead(rs: seq<Read>, used: nat)
    requires used < |rs| && forall i :: 0 <= i < used ==> !rs[i].failed
    ensures Flat(rs[..used + 1]) == Flat(rs[..used]) + rs[used].data
    ensures Flat(rs) == Flat(rs[..used + 1]) + Later(rs, used + 1)
  {
    hide Flat;
    SplitAt(rs, used);
    FlatConcat(rs[..used], rs[used..]);
    FlatConcat(rs[..used], [rs[used]]);
    FlatHead(rs[used..]);
    Regroup(Flat(rs[..used]), rs[used].data, Later(rs, used + 1));
  }

  /** Recognise the request. However the bytes come in pieces, the request is the one
      the whole stream starts with, and what is forwarded, now and by later reads, is the
      stream without its preamble. More is read only while a preamble may still come. */
  method ReadRequest(rs: seq<Read>, ps: seq<Preamble>) returns (data: string, request: Request, used: nat)
    requires Ends(rs)
    ensures 0 < used <= |rs|
    ensures Classified(ps, Flat(rs), request, data + Later(rs, used))
    ensures used > 1 ==> Partial(ps, Flat(rs[..used - 1]))
  {
    hide Partial;
    hide Flat;
    var acc := "";
    used := 0;
    assert Flat(rs[..0]) == "" by {
      NoReads(rs);
    }
    while true
      invariant used < |rs|
      invariant forall i :: 0 <= i < used ==> !rs[i].failed
      invariant acc == Flat(rs[..used])
      invariant used > 0 ==> Partial(ps, acc)
      decreases |rs| - used
    {
      OneMoreRead(rs, used);
      acc := acc + rs[used].data;
      used := used + 1;
      var found, partial := Match(ps, acc);
      if found >= 0 {
        data, request := acc[|ps[found].text|..], ps[found].request;
        assert Flat(rs) == ps[found].text + (data + Later(rs, used));
        return;
      }
      if !partial || rs[used - 1].failed {
        data, request := acc, Data;
        NoPreamble(ps, acc, Later(rs, used));
        return;
      }
    }
  }

  lemma NoReads(rs: seq<Read>)
    ensures Flat(rs[..0]) == ""
  {}

  /** So for the session server the split into reads decides nothing. */
  lemma SplitsAgree(a: seq<Read>, b: seq<Read>, x: Request, y: Request, u: string, v: string)
    requires Flat(a) == Flat(b)
    requires Classified(SESSION, Flat(a), x, u) && Classified(SESSION, Flat(b), y, v)
    ensures x == y && u == v
  {
    SessionPrefixFree();
    ClassifiedOnce(SESSION, Flat(a), x, y, u, v);
  }

  /** What the session server's preambles ask for. */
  lemma RequestsMean(rest: string, request: Request, forwarded: string)
    ensures Classified(SESSION, "\0sio:transfer-claim\0" + rest, request, forwarded) <==> request == TransferClaim && forwarded == rest
    ensures Classified(SESSION, "\0sio:port-release\0" + rest, request, forwarded) <==> request == PortRelease && forwarded == rest
    ensures Classified(SESSION, "\0sio:port-acquire\0" + rest, request, forwarded) <==> request == PortAcquire && forwarded == rest
  {
    SessionPrefixFree();
    assert SESSION[0].text == CLAIM && SESSION[1].text == RELEASE && SESSION[2].text == ACQUIRE;
    forall i | 0 <= i < 3
      ensures Classified(SESSION, SESSION[i].text + rest, SESSION[i].request, rest)
      ensures Classified(SESSION, SESSION[i].text + rest, request, forwarded) ==> request == SESSION[i].request && forwarded == rest
    {
      if Classified(SESSION, SESSION[i].text + rest, request, forwarded) {
        ClassifiedOnce(SESSION, SESSION[i].text + rest, SESSION[i].request, request, rest, forwarded);
      }
    }
  }

  const CLAIMS: seq<Preamble> := [Preamble(CLAIM, TransferClaim)]

  /** The older form, which knows the claim only. */
  method ReadClaim(rs: seq<Read>) returns (data: string, claimed: bool, used: nat)
    requires Ends(rs)
    ensures 0 < used <= |rs|
    ensures Classified(CLAIMS, Flat(rs), if claimed then TransferClaim else Data, data + Later(rs, used))
  {
    hide Flat;
    var acc := "";
    used := 0;
    assert Flat(rs[..0]) == "" by {
      NoReads(rs);
    }
    while true
      invariant used < |rs|
      invariant forall i :: 0 <= i < used ==> !rs[i].failed
      invariant acc == Flat(rs[..used])
      decreases |rs| - used
    {
      OneMoreRead(rs, used);
      acc := acc + rs[used].data;
      used := used + 1;
      if StartsWith(acc, CLAIM) {
        data, claimed := acc[|CLAIM|..], true;
        assert Flat(rs) == CLAIM + (data + Later(rs, used));
        assert Flat(rs) == CLAIMS[0].text + (data + Later(rs, used));
        return;
      }
      if !StartsWith(CLAIM, acc) || rs[used - 1].failed {
        data, claimed := acc, false;
        NoPreamble(CLAIMS, acc, Later(rs, used));
        return;
      }
    }
  }

  // ---- the answer to a lease request ----

  datatype Answer = Granted | Failure(text: string) | Unfinished | NoAnswer

  predicate EndsWith(s: string, t: string) {
    |t| <= |s| && s[|s| - |t|..] == t
  }

  predicate TokenEnds(s: string) {
    EndsWith(s, OK) || EndsWith(s, FAILED)
  }

  function Until(s: string, ch: char): (r: string)
    ensures |r| <= |s| && r == s[..|r|] && ch !in r && (|r| < |s| ==> s[|r|] == ch)
  {
    if s == "" || s[0] == ch then "" else [s[0]] + Until(s[1..], ch)
  }

  /** What follows the failure token, up to its NUL. */
  function FailureText(rest: string): Answer {
    var text := Until(rest, '\0');
    if |text| == |rest| then Unfinished else Failure(text)
  }

  /** `a` is what a plain search for the first token says. */
  ghost predicate Answers(s: string, a: Answer) {
    || (a == NoAnswer && forall n :: 0 <= n <= |s| ==> !TokenEnds(s[..n]))
    || (exists n :: 0 <= n <= |s| && TokenEnds(s[..n]) && (forall m :: 0 <= m < n ==> !TokenEnds(s[..m]))
                    && a == if EndsWith(s[..n], OK) then Granted else FailureText(s[n..]))
  }

  /** `w` is the last `size` bytes of `s`, or all of it. */
  ghost predicate Window(s: string, w: string, size: nat) {
    EndsWith(s, w) && |w| <= size && (|w| == size || w == s)
  }

  lemma WindowEnds(s: string, w: string, size: nat, t: string)
    requires Window(s, w, size) && |t| <= size
    ensures EndsWith(w, t) <==> EndsWith(s, t)
  {
    if |t| <= |w| {
      assert w[|w| - |t|..] == s[|s| - |t|..];
    }
  }

  lemma WindowMoves(s: string, n: nat, w: string, size: nat)
    requires n < |s| && size > 0 && Window(s[..n], w, size)
    ensures var w2 := w + [s[n]];
            Window(s[..n + 1], if |w2| > size then w2[1..] else w2, size)
  {
    var w2 := w + [s[n]];
    assert s[..n + 1] == s[..n] + [s[n]];
    assert s[..n + 1][n + 1 - |w2|..] == w2;
    if |w2| > size {
      assert s[..n + 1][n + 1 - |w2[1..]|..] == w2[1..];
    }
  }

  lemma AnswerAt(s: string, n: nat, a: Answer)
    requires n <= |s| && TokenEnds(s[..n]) && forall m :: 0 <= m < n ==> !TokenEnds(s[..m])
    requires a == if EndsWith(s[..n], OK) then Granted else FailureText(s[n..])
    ensures Answers(s, a)
  {
    hide EndsWith;
    hide TokenEnds;
    hide FailureText;
  }

  /** Read the answer through a window as long as the longest token: it finds what a
      plain search of the first 64 KiB of the stream finds. */
  method ReadLeaseAnswer(stream: string) returns (a: Answer)
    ensures Answers(if |stream| < 65536 then stream else stream[..65536], a)
  {
    hide EndsWith;
    hide Window;
    hide FailureText;
    var s := if |stream| < ANSWER_LIMIT then stream else stream[..ANSWER_LIMIT];
    var size := |FAILED|;
    var window := "";
    var n := 0;
    assert s[..0] == "";
    assert Window("", "", size) && !TokenEnds("") by {
      EmptyWindow(size);
    }
    while n < |s|
      invariant 0 <= n <= |s|
      invariant Window(s[..n], window, size)
      invariant forall m :: 0 <= m <= n ==> !TokenEnds(s[..m])
    {
      WindowMoves(s, n, window, size);
      window := window + [s[n]];
      n := n + 1;
      if |window| > size {
        window := window[1..];
      }
      WindowEnds(s[..n], window, size, OK);
      WindowEnds(s[..n], window, size, FAILED);
      if EndsWith(window, OK) {
        AnswerAt(s, n, Granted);
        return Granted;
      }
      if EndsWith(window, FAILED) {
        a := FailureText(s[n..]);
        AnswerAt(s, n, a);
        return;
      }
    }
    a := NoAnswer;
  }

  lemma EmptyWindow(size: nat)
    ensures Window("", "", size) && !TokenEnds("")
  {}

  /** The worker's answer. */
  function AnswerBytes(a: Answer): string
    requires a.Granted? || a.Failure?
  {
    if a.Granted? then OK else FAILED + a.text + "\0"
  }

  /** As older programs read it. */
  lemma AnswerTexts(text: string)
    ensures AnswerBytes(Granted) == "\0sio:port-ok\0"
    ensures AnswerBytes(Failure(text)) == "\0sio:port-error\0" + text + "\0"
  {}

  lemma EndsPlace(s: string, t: string, k: nat)
    requires k < |t|
    ensures EndsWith(s, t) ==> |t| <= |s| && s[|s| - |t| + k] == t[k]
  {}

  /** A token has NULs at its ends only. */
  lemma NulsOf(token: string, k: nat)
    requires (token == OK || token == FAILED) && k < |token|
    ensures token[k] == '\0' <==> k == 0 || k == |token| - 1
  {}

  lemma NulPlaces(noise: string, token: string, i: nat)
    requires '\0' !in noise && (token == OK || token == FAILED)
    requires i < |noise + token|
    ensures (noise + token)[i] == '\0' <==> i == |noise| || i == |noise + token| - 1
  {
    if i >= |noise| {
      NulsOf(token, i - |noise|);
    }
  }

  lemma NoTokenYet(noise: string, token: string, m: nat, t: string)
    requires '\0' !in noise && (token == OK || token == FAILED) && (t == OK || t == FAILED)
    requires m < |noise + token|
    ensures !EndsWith((noise + token)[..m], t)
  {
    EndsPlace((noise + token)[..m], t, 0);
    EndsPlace((noise + token)[..m], t, |t| - 1);
    NulsOf(t, 0);
    NulsOf(t, |t| - 1);
    if m > 0 {
      NulPlaces(noise, token, m - 1);
    }
    if m >= |t| {
      NulPlaces(noise, token, m - |t|);
    }
  }

  lemma FirstTokenAnswers(s: string, n: nat, a: Answer, b: Answer)
    requires n <= |s| && TokenEnds(s[..n]) && forall m :: 0 <= m < n ==> !TokenEnds(s[..m])
    requires a == if EndsWith(s[..n], OK) then Granted else FailureText(s[n..])
    requires Answers(s, b)
    ensures b == a
  {}

  lemma {:induction false} UntilNul(text: string, rest: string)
    requires '\0' !in text
    ensures Until(text + "\0" + rest, '\0') == text
  {
    if text == "" {
      assert "" + "\0" + rest == "\0" + rest;
    } else {
      assert (text + "\0" + rest)[1..] == text[1..] + "\0" + rest;
      UntilNul(text[1..], rest);
    }
  }

  lemma NotOk(noise: string)
    ensures !EndsWith(noise + FAILED, OK)
  {
    assert (noise + FAILED)[|noise + FAILED| - 2] == 'r' && OK[|OK| - 2] == 'k';
    EndsPlace(noise + FAILED, OK, |OK| - 2);
  }

  lemma EndsItself(noise: string, token: string)
    ensures EndsWith(noise + token, token)
  {}

  lemma NoEarlierToken(noise: string, token: string)
    requires '\0' !in noise && (token == OK || token == FAILED)
    ensures forall m :: 0 <= m < |noise + token| ==> !TokenEnds((noise + token)[..m])
  {
    hide EndsWith;
    forall m | 0 <= m < |noise + token|
      ensures !TokenEnds((noise + token)[..m])
    {
      NoTokenYet(noise, token, m, OK);
      NoTokenYet(noise, token, m, FAILED);
    }
  }

  lemma TokenFound(noise: string, token: string, after: string, b: Answer)
    requires '\0' !in noise && (token == OK || token == FAILED)
    requires Answers(noise + token + after, b)
    ensures b == if token == OK then Granted else FailureText(after)
  {
    hide EndsWith;
    hide FailureText;
    var s, n := noise + token + after, |noise + token|;
    assert s[..n] == noise + token && s[n..] == after;
    EndsItself(noise, token);
    NotOk(noise);
    NoEarlierToken(noise, token);
    forall m | 0 <= m < n
      ensures !TokenEnds(s[..m])
    {
      assert s[..m] == (noise + token)[..m];
    }
    FirstTokenAnswers(s, n, if EndsWith(s[..n], OK) then Granted else FailureText(s[n..]), b);
  }

  /** Whatever serial output without a NUL comes first, the answer that arrives is
      the answer that was given. */
  lemma {:induction false} AnswerRoundTrip(noise: string, a: Answer, rest: string, b: Answer)
    requires '\0' !in noise && (a.Granted? || (a.Failure? && '\0' !in a.text))
    requires Answers(noise + AnswerBytes(a) + rest, b)
    ensures b == a
  {
    hide Answers;
    if a.Granted? {
      TokenFound(noise, OK, rest, b);
    } else {
      var after := a.text + "\0" + rest;
      assert noise + AnswerBytes(a) + rest == noise + FAILED + after;
      TokenFound(noise, FAILED, after, b);
      UntilNul(a.text, rest);
      assert |a.text| < |after|;
    }
  }

  lemma {:induction false} UntilNone(text: string)
    requires '\0' !in text
    ensures Until(text, '\0') == text
    decreases |text|
  {
    if text != "" {
      UntilNone(text[1..]);
    }
  }

  lemma {:induction false} NoToken(noise: string, token: string, k: nat, b: Answer)
    requires '\0' !in noise && (token == OK || token == FAILED) && k < |token|
    requires Answers(noise + token[..k], b)
    ensures b == NoAnswer
  {
    hide TokenEnds;
    hide FailureText;
    NoEarlierToken(noise, token);
    var s := noise + token[..k];
    forall m | 0 <= m <= |s|
      ensures !TokenEnds(s[..m])
    {
      assert s[..m] == (noise + token)[..m];
    }
  }

  /** An answer that breaks off is never taken for one: if it is known for a failure that
      is said, else there is no answer. */
  lemma {:induction false} CutAnswer(noise: string, a: Answer, k: nat, b: Answer)
    requires '\0' !in noise && (a.Granted? || (a.Failure? && '\0' !in a.text)) && k < |AnswerBytes(a)|
    requires Answers(noise + AnswerBytes(a)[..k], b)
    ensures b == if a.Failure? && k >= |FAILED| then Unfinished else NoAnswer
  {
    hide Answers;
    if a.Granted? {
      NoToken(noise, OK, k, b);
    } else if k < |FAILED| {
      assert AnswerBytes(a)[..k] == FAILED[..k];
      NoToken(noise, FAILED, k, b);
    } else {
      var text := a.text[..k - |FAILED|];
      assert AnswerBytes(a)[..k] == FAILED + text;
      assert noise + (FAILED + text) == noise + FAILED + text;
      TokenFound(noise, FAILED, text, b);
      UntilNone(text);
    }
  }
}
