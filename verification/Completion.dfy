/** When a script that has ended is complete: told over the texts its tools returned. */
module Completion {
  import opened Option
  import opened Text
  import opened ProviderSpec
  import opened Discipline
  import opened Receipts

  // ------------------------------------------------------------------- lines

  /** What ends a line of a result: line feed, the vertical and form feeds, carriage return, the three
      separators, next line, and Unicode's line and paragraph separators. */
  predicate EndsLine(c: char) {
    (c as int) in {10, 11, 12, 13, 28, 29, 30, 0x85, 0x2028, 0x2029}
  }

  predicate Unbroken(m: string) { forall k | 0 <= k < |m| :: !EndsLine(m[k]) }

  /** `m` stands in `text` from position `i` as a line of its own. */
  ghost predicate OwnLineAt(m: string, text: string, i: nat) {
    && OccursAt(m, text, i) && (i == 0 || EndsLine(text[i - 1])) && (i + |m| == |text| || EndsLine(text[i + |m|]))
  }

  ghost predicate OwnLine(m: string, text: string) { Unbroken(m) && exists i: nat :: OwnLineAt(m, text, i) }

  lemma LineBreaksAreThese(c: char)
    ensures IsLineBreak(c) <==> EndsLine(c)
  {}

  /** How much of the text comes before its first line end. */
  function Head(s: string): (h: nat)
    ensures h <= |s| && (forall k | 0 <= k < h :: !EndsLine(s[k])) && (h < |s| ==> EndsLine(s[h]))
  {
    if s == "" || EndsLine(s[0]) then 0 else 1 + Head(s[1..])
  }

  /** How wide the line end is there: a carriage return takes its line feed along. */
  function Width(s: string): (w: nat)
    ensures w <= |s|
  {
    if |s| > 1 && s[0] == '\r' && s[1] == '\n' then 2 else if s == "" then 0 else 1
  }

  function Rest(s: string): string { s[Head(s) + Width(s[Head(s)..])..] }

  lemma {:induction false} FirstLineComesFirst(s: string)
    requires s != ""
    ensures SplitLines(s) == [s[..Head(s)]] + SplitLines(Rest(s))
    decreases |s|
  {
    hide EndsLine, SplitLines, Head, Rest;
    var t := s[1..];
    if !EndsLine(s[0]) {
      RestOfTail(s);
      CharJoinsLine(s);
      if t != "" {
        FirstLineComesFirst(t);
        assert [s[0]] + t[..Head(t)] == s[..Head(s)];
        assert SplitLines(t)[1..] == SplitLines(Rest(t));
      } else {
        EmptyRest();
        assert s == [s[0]] + t && s[..1] == s;
      }
    } else {
      EmptyLineFirst(s);
    }
  }

  lemma EmptyRest()
    ensures Head("") == 0 && Rest("") == "" && SplitLines("") == []
  {}

  lemma CharJoinsLine(s: string)
    requires s != "" && !EndsLine(s[0])
    ensures var lines := SplitLines(s[1..]);
            SplitLines(s) == if s[1..] == "" then [s] else [[s[0]] + lines[0]] + lines[1..]
    ensures s[1..] != "" ==> SplitLines(s[1..]) != []
  {
    hide EndsLine, IsLineBreak;
    LineBreaksAreThese(s[0]);
    CarriageReturnEndsLine();
    if s[1..] == "" {
      NoLines();
      assert s == [s[0]] + s[1..] == [s[0]];
      assert [[s[0]]] + SplitLines(s[1..]) == [s];
    } else {
      SomeLine(s[1..]);
    }
  }

  lemma SomeLine(s: string)
    requires s != ""
    ensures SplitLines(s) != []
  {
    hide IsLineBreak;
  }

  lemma EmptyLineFirst(s: string)
    requires s != "" && EndsLine(s[0])
    ensures Head(s) == 0 && SplitLines(s) == [s[..0]] + SplitLines(Rest(s))
  {
    hide EndsLine, IsLineBreak;
    LineBreaksAreThese(s[0]);
    assert s[0..] == s && s[..0] == "";
    assert Head(s) == 0;
    assert Rest(s) == s[Width(s)..];
  }

  lemma CarriageReturnEndsLine()
    ensures EndsLine('\r') && EndsLine('\n')
  {}

  lemma RestOfTail(s: string)
    requires s != "" && !EndsLine(s[0])
    ensures Head(s) == 1 + Head(s[1..]) && Rest(s) == Rest(s[1..])
  {
    hide EndsLine;
    assert s[Head(s)..] == s[1..][Head(s[1..])..];
  }

  /** A nonempty word is one of a text's lines exactly when it stands there between line ends. */
  lemma {:induction false} LineIsShown(m: string, text: string)
    requires m != ""
    ensures m in SplitLines(text) <==> OwnLine(m, text)
    decreases |text|
  {
    hide EndsLine, SplitLines, Rest;
    if text == "" {
      NoLines();
    } else {
      FirstLineComesFirst(text);
      RestIsShorter(text);
      LineIsShown(m, Rest(text));
      if OwnLine(m, text) {
        var i: nat :| OwnLineAt(m, text, i);
        OwnLineIsFirstOrLater(m, text, i);
      }
      if OwnLine(m, Rest(text)) {
        var i: nat :| OwnLineAt(m, Rest(text), i);
        LaterLineIsOwn(m, text, i);
      }
      if m == text[..Head(text)] {
        assert OwnLineAt(m, text, 0);
      }
    }
  }

  lemma NoLines()
    ensures SplitLines("") == []
  {}

  lemma RestIsShorter(text: string)
    requires text != ""
    ensures |Rest(text)| < |text|
  {
    hide EndsLine;
  }

  lemma OwnLineIsFirstOrLater(m: string, text: string, i: nat)
    requires m != "" && Unbroken(m) && OwnLineAt(m, text, i)
    ensures m == text[..Head(text)] || OwnLine(m, Rest(text))
  {
    hide EndsLine, Head;
    CarriageReturnEndsLine();
    var h := Head(text);
    var n := h + Width(text[h..]);
    assert forall k | 0 <= k < |m| :: text[i + k] == text[i..i + |m|][k] == m[k];
    if i <= h {
      assert i == 0;
      assert !EndsLine(m[|m| - 1]) && text[|m| - 1] == m[|m| - 1];
      assert |m| == h;
      assert m == text[..h];
    } else {
      assert text[i] == m[0] && i >= n;
      assert Rest(text) == text[n..];
      assert Rest(text)[i - n..i - n + |m|] == text[i..i + |m|];
      assert OwnLineAt(m, Rest(text), i - n);
    }
  }

  lemma LaterLineIsOwn(m: string, text: string, i: nat)
    requires m != "" && OwnLineAt(m, Rest(text), i)
    ensures exists k: nat :: OwnLineAt(m, text, k)
  {
    hide EndsLine, Head, Width, Rest;
    RestFollowsLineEnd(text);
    var n := |text| - |Rest(text)|;
    assert text[n + i..n + i + |m|] == Rest(text)[i..i + |m|];
    assert i > 0 ==> text[n + i - 1] == Rest(text)[i - 1];
    assert i + |m| < |Rest(text)| ==> text[n + i + |m|] == Rest(text)[i + |m|];
    assert OwnLineAt(m, text, n + i);
  }

  lemma RestFollowsLineEnd(text: string)
    ensures var n := |text| - |Rest(text)|;
            n >= 0 && Rest(text) == text[n..] && (Rest(text) != "" ==> n > 0 && EndsLine(text[n - 1]))
  {
    hide EndsLine, Head;
    CarriageReturnEndsLine();
  }

  // ------------------------------------------------------------------- codes

  /** The line is the receipt, an equals sign, an integer of this value, and perhaps a carriage return. */
  ghost predicate IsReceiptLine(line: string, receipt: string, code: int) {
    exists digits: string, end: string :: Spells(line, receipt, digits, end) && IsInteger(digits) && IntOf(digits) == code
  }

  ghost predicate Spells(line: string, receipt: string, digits: string, end: string) {
    line == receipt + "=" + digits + end && (end == "" || end == "\r")
  }

  lemma ReceiptLineShows(receipt: string, line: string, code: int)
    ensures LineExit(receipt, line) == Some(code) <==> IsReceiptLine(line, receipt, code)
  {
    hide LineExit, IsInteger, IntOf;
    if LineExit(receipt, line) == Some(code) {
      ReceiptLineIsRead(receipt, line, code);
    }
    if IsReceiptLine(line, receipt, code) {
      var digits: string, end: string :| Spells(line, receipt, digits, end) && IsInteger(digits) && IntOf(digits) == code;
      ReceiptLineReads(receipt, digits, end);
    }
  }

  lemma ReceiptLineIsRead(receipt: string, line: string, code: int)
    requires LineExit(receipt, line) == Some(code)
    ensures IsReceiptLine(line, receipt, code)
  {
    hide IsInteger, IntOf;
    var head := receipt + "=";
    var end := if line != "" && line[|line| - 1] == '\r' then "\r" else "";
    var body := line[..|line| - |end|];
    assert end == "" ==> body == line;
    assert IsInteger(body[|head|..]) && IntOf(body[|head|..]) == code;
    assert line == body + end && body == head + body[|head|..];
    assert line == receipt + "=" + body[|head|..] + end;
    assert Spells(line, receipt, body[|head|..], end);
  }

  lemma ReceiptLineReads(receipt: string, digits: string, end: string)
    requires (end == "" || end == "\r") && IsInteger(digits)
    ensures LineExit(receipt, receipt + "=" + digits + end) == Some(IntOf(digits))
  {
    hide IsInteger, IntOf;
    var body := receipt + "=" + digits;
    var line := body + end;
    DigitsDoNotReturn(digits);
    assert body[|body| - 1] == digits[|digits| - 1];
    if end == "" {
      assert line == body;
    } else {
      assert line[|line| - 1] == '\r' && line[..|line| - 1] == body;
    }
    assert body[|receipt + "="|..] == digits;
  }

  lemma DigitsDoNotReturn(digits: string)
    requires IsInteger(digits)
    ensures digits != "" && digits[|digits| - 1] != '\r'
  {
    var d := if digits[0] == '-' then digits[1..] else digits;
    assert d[|d| - 1] in d && digits[|digits| - 1] == d[|d| - 1];
  }

  /** Exactly one line of the text is a receipt line, and it shows this code. */
  ghost predicate ShowsCode(text: string, receipt: string, code: int) {
    exists k :: 0 <= k < |Lines(text)| && OnlyReceiptLine(text, receipt, code, k)
  }

  ghost predicate OnlyReceiptLine(text: string, receipt: string, code: int, k: nat)
    requires k < |Lines(text)|
  {
    && IsReceiptLine(Lines(text)[k], receipt, code)
    && forall j, other | 0 <= j < |Lines(text)| && j != k :: !IsReceiptLine(Lines(text)[j], receipt, other)
  }

  lemma OnlyReceiptLineIsTheCode(text: string, receipt: string, code: int, k: nat)
    requires k < |Lines(text)| && IsReceiptLine(Lines(text)[k], receipt, code)
    ensures ExitCode(receipt, text) == Some(code) <==> OnlyReceiptLine(text, receipt, code, k)
  {
    hide LineExit, Lines, ExitCode, IsReceiptLine;
    ReceiptLineShows(receipt, Lines(text)[k], code);
    ExitCodeIsExact(receipt, text, k, code);
    forall j | 0 <= j < |Lines(text)| && j != k
      ensures LineExit(receipt, Lines(text)[j]).None? <==> forall other :: !IsReceiptLine(Lines(text)[j], receipt, other)
    {
      ShowsNoCode(receipt, Lines(text)[j]);
    }
    OnlyMeans(text, receipt, code, k);
  }

  lemma OnlyMeans(text: string, receipt: string, code: int, k: nat)
    requires k < |Lines(text)| && IsReceiptLine(Lines(text)[k], receipt, code)
    ensures OnlyReceiptLine(text, receipt, code, k) <==>
            forall j | 0 <= j < |Lines(text)| && j != k :: forall other :: !IsReceiptLine(Lines(text)[j], receipt, other)
  {
    hide IsReceiptLine, Lines;
  }

  lemma ShowsNoCode(receipt: string, line: string)
    ensures LineExit(receipt, line).None? <==> forall code :: !IsReceiptLine(line, receipt, code)
  {
    hide LineExit, IsReceiptLine;
    if LineExit(receipt, line).Some? {
      ReceiptLineShows(receipt, line, LineExit(receipt, line).value);
    }
    forall code | IsReceiptLine(line, receipt, code) ensures LineExit(receipt, line).Some? {
      ReceiptLineShows(receipt, line, code);
    }
  }

  /** The code read off a text is the one its only receipt line shows; without one, none is read. */
  lemma CodeIsShown(text: string, receipt: string, code: int)
    ensures ExitCode(receipt, text) == Some(code) <==> ShowsCode(text, receipt, code)
  {
    hide LineExit, Lines, ExitCode, IsReceiptLine, OnlyReceiptLine;
    if ExitCode(receipt, text) == Some(code) {
      var k := CodeHasALine(receipt, text, code);
      ReceiptLineShows(receipt, Lines(text)[k], code);
      OnlyReceiptLineIsTheCode(text, receipt, code, k);
    }
    if ShowsCode(text, receipt, code) {
      var k :| 0 <= k < |Lines(text)| && OnlyReceiptLine(text, receipt, code, k);
      OnlyHasALine(text, receipt, code, k);
      OnlyReceiptLineIsTheCode(text, receipt, code, k);
    }
  }

  lemma OnlyHasALine(text: string, receipt: string, code: int, k: nat)
    requires k < |Lines(text)| && OnlyReceiptLine(text, receipt, code, k)
    ensures IsReceiptLine(Lines(text)[k], receipt, code)
  {
    hide IsReceiptLine, Lines;
  }

  lemma CodeHasALine(receipt: string, text: string, code: int) returns (k: nat)
    requires ExitCode(receipt, text) == Some(code)
    ensures k < |Lines(text)| && LineExit(receipt, Lines(text)[k]) == Some(code)
  {
    hide LineExit, Lines;
    LinesFromStart(text);
    k := ExitHasALine(receipt, Lines(text), code);
  }

  lemma {:induction false} ExitHasALine(receipt: string, lines: seq<string>, code: int) returns (k: nat)
    requires code in LineExits(receipt, lines)
    ensures k < |lines| && LineExit(receipt, lines[k]) == Some(code)
  {
    hide LineExit;
    if LineExit(receipt, lines[0]) == Some(code) {
      k := 0;
    } else {
      k := ExitHasALine(receipt, lines[1..], code);
      k := k + 1;
    }
  }

  // -------------------------------------------------------------- completeness

  /** The receipt of step `i`. */
  function ReceiptOf(token: string, i: nat): string { "BUDDY_FIXTURE_EXIT_" + (token + "_" + Decimal(i)) }

  /** Step `i` is a shell step, and its result shows the exit code zero. */
  ghost predicate Passed(u: Turn, i: int) {
    0 <= i < |u.steps| && i < |u.results| && u.steps[i].Shell? && ShowsCode(u.results[i].output.text, ReceiptOf(u.token, i), 0)
  }

  /** Some step that passed shows this line. */
  ghost predicate SomePassedShows(u: Turn, m: string) {
    exists j :: Passed(u, j) && OwnLine(m, u.results[j].output.text)
  }

  lemma ResultIsShown(s: State, t: nat, i: nat)
    requires t < |s.turns| && i < |s.turns[t].results| <= |s.turns[t].steps| && ResultOk(s, t, i)
    ensures s.turns[t].results[i].exitCode == Some(0) <==> Passed(s.turns[t], i)
  {
    hide CallId, ExitCode, Receipt, Decimal, ShowsCode;
    var u := s.turns[t];
    ReceiptIsSpelled(u.token, i);
    CodeIsShown(u.results[i].output.text, ReceiptOf(u.token, i), 0);
  }

  lemma ReceiptIsSpelled(token: string, i: nat)
    ensures Receipt(token, i) == ReceiptOf(token, i)
  {
    hide Decimal;
  }

  lemma MarkerIsShown(s: State, t: nat, m: string)
    requires Inv(s) && t < |s.turns| && m != ""
    ensures MarkerShown(s.turns[t], m) <==> SomePassedShows(s.turns[t], m)
  {
    hide Inv, TurnsOk, CallsOk, TurnOk, ResultOk, Passed, OwnLine, SplitLines;
    InvLinks(s);
    TurnIsOk(s, t);
    TurnLengths(s, t);
    PassedHasResult(s.turns[t]);
    forall j | 0 <= j < |s.turns[t].results|
      ensures s.turns[t].results[j].exitCode == Some(0) <==> Passed(s.turns[t], j)
      ensures m in SplitLines(s.turns[t].results[j].output.text) <==> OwnLine(m, s.turns[t].results[j].output.text)
    {
      ResultIsOk(s, t, j);
      ResultIsShown(s, t, j);
      LineIsShown(m, s.turns[t].results[j].output.text);
    }
    MarkerAmong(s.turns[t], m);
  }

  lemma PassedHasResult(u: Turn)
    ensures forall j | Passed(u, j) :: 0 <= j < |u.results|
  {
    hide ShowsCode;
  }

  lemma MarkerAmong(u: Turn, m: string)
    requires forall j | Passed(u, j) :: 0 <= j < |u.results|
    requires forall j | 0 <= j < |u.results| :: u.results[j].exitCode == Some(0) <==> Passed(u, j)
    requires forall j | 0 <= j < |u.results| :: m in SplitLines(u.results[j].output.text) <==> OwnLine(m, u.results[j].output.text)
    ensures MarkerShown(u, m) <==> SomePassedShows(u, m)
  {
    hide Passed, OwnLine, SplitLines;
    if MarkerShown(u, m) {
      var r :| r in u.results && r.exitCode == Some(0) && m in SplitLines(r.output.text);
      var j :| 0 <= j < |u.results| && u.results[j] == r;
      assert Passed(u, j) && OwnLine(m, u.results[j].output.text);
    }
    if SomePassedShows(u, m) {
      var j :| Passed(u, j) && OwnLine(m, u.results[j].output.text);
      assert u.results[j] in u.results;
    }
  }

  /** In any reachable state a script is complete exactly when it has ended, each of its shell steps shows
      the exit code zero on the one receipt line of its own result, and each marker stands as a line of its
      own in the result of some step that passed. */
  lemma CompleteMeans(s: State, t: nat)
    requires Inv(s) && t < |s.turns|
    ensures var u := s.turns[t];
            Complete(u) <==>
              && u.finalEmitted
              && forall i | 0 <= i < |u.steps| && u.steps[i].Shell? ::
                   Passed(u, i) && (u.steps[i].marker != "" ==> SomePassedShows(u, u.steps[i].marker))
  {
    hide Inv, TurnsOk, CallsOk, TurnOk, ResultOk, Passed, SomePassedShows, MarkerShown;
    InvLinks(s);
    TurnIsOk(s, t);
    TurnLengths(s, t);
    var u := s.turns[t];
    forall i | 0 <= i < |u.results| ensures u.results[i].exitCode == Some(0) <==> Passed(u, i) {
      ResultIsOk(s, t, i);
      ResultIsShown(s, t, i);
    }
    forall i | 0 <= i < |u.steps| && u.steps[i].Shell? && u.steps[i].marker != ""
      ensures MarkerShown(u, u.steps[i].marker) <==> SomePassedShows(u, u.steps[i].marker)
    {
      MarkerIsShown(s, t, u.steps[i].marker);
    }
  }

  // ----------------------------------------------------------- the wrapper's runs

  /** What the wrapper prints, and what may stand around it: its program's output, the receipt line, the
      marker's line after a success, and anything else that shows no receipt. */
  ghost predicate Wrapped(text: string, receipt: string, code: int, marker: string) {
    exists before: string, end: string, after: string :: WrappedIn(text, receipt, code, marker, before, end, after)
  }

  function Tail(code: int, marker: string, end: string, after: string): string {
    (if code == 0 && marker != "" then marker + end + "\n" else "") + after
  }

  ghost predicate WrappedIn(text: string, receipt: string, code: int, marker: string, before: string, end: string, after: string) {
    && (end == "" || end == "\r")
    && text == before + "\n" + (receipt + "=" + IntText(code) + end + "\n" + Tail(code, marker, end, after))
    && !StartsLine(receipt + "=", before) && !StartsLine(receipt + "=", Tail(code, marker, end, after))
  }

  lemma NoReceiptNoExits(receipt: string, text: string)
    requires !StartsLine(receipt + "=", text)
    ensures LineExits(receipt, Lines(text)) == []
  {
    hide StartsLine, LineExits, Lines;
    if LineExits(receipt, Lines(text)) != [] {
      LinesFromStart(text);
      ExitStartsLine(receipt, text, Lines(text), 0);
    }
  }

  lemma WrappedShowsItsCode(text: string, receipt: string, code: int, marker: string)
    requires '\n' !in receipt && Wrapped(text, receipt, code, marker)
    ensures forall c :: ShowsCode(text, receipt, c) <==> c == code
    ensures code == 0 && marker != "" && Unbroken(marker) ==> OwnLine(marker, text)
  {
    hide ShowsCode, LineExits, Lines, Tail, IntText, Unbroken, StartsLine, ExitCode, EndsLine;
    var before: string, end: string, after: string :| WrappedIn(text, receipt, code, marker, before, end, after);
    NoReceiptNoExits(receipt, before);
    NoReceiptNoExits(receipt, Tail(code, marker, end, after));
    RealRunShowsItsExit(receipt, before, code, end, Tail(code, marker, end, after));
    forall c ensures ShowsCode(text, receipt, c) <==> c == code {
      CodeIsShown(text, receipt, c);
    }
    if code == 0 && marker != "" && Unbroken(marker) {
      var front := before + "\n" + receipt + "=" + IntText(code) + end;
      TailIsTheMarker(marker, end, after);
      assert text == front + "\n" + marker + (end + "\n" + after);
      MarkerStandsAlone(front, marker, end, after);
    }
  }

  lemma TailIsTheMarker(marker: string, end: string, after: string)
    requires marker != ""
    ensures Tail(0, marker, end, after) == marker + end + "\n" + after
  {}

  lemma MarkerStandsAlone(front: string, marker: string, end: string, after: string)
    requires Unbroken(marker) && (end == "" || end == "\r")
    ensures OwnLine(marker, front + "\n" + marker + (end + "\n" + after))
  {
    hide EndsLine, Unbroken;
    CarriageReturnEndsLine();
    var text := front + "\n" + marker + (end + "\n" + after);
    var i := |front| + 1;
    assert text[i..i + |marker|] == marker && text[i - 1] == '\n';
    assert text[i + |marker|] == (end + "\n" + after)[0];
    assert OwnLineAt(marker, text, i);
  }

  /** A script that has ended, each of whose shell results is what the wrapper prints, is complete exactly
      when every printed code is zero and no marker holds a character that ends a line. */
  lemma WrappedRunsComplete(s: State, t: nat, codes: seq<int>)
    requires Inv(s) && t < |s.turns| && s.turns[t].finalEmitted && |codes| == |s.turns[t].steps| && '\n' !in s.turns[t].token
    requires |s.turns[t].results| == |s.turns[t].steps|
    requires var u := s.turns[t];
             forall i | 0 <= i < |u.steps| && u.steps[i].Shell? ::
               Wrapped(u.results[i].output.text, ReceiptOf(u.token, i), codes[i], u.steps[i].marker)
    ensures var u := s.turns[t];
            Complete(u) <==> forall i | 0 <= i < |u.steps| && u.steps[i].Shell? :: codes[i] == 0 && Unbroken(u.steps[i].marker)
  {
    hide Inv, Complete, ShowsCode, OwnLine, Wrapped, EndsLine, ReceiptOf;
    var u := s.turns[t];
    CompleteMeans(s, t);
    forall i | 0 <= i < |u.steps| && u.steps[i].Shell?
      ensures Passed(u, i) <==> codes[i] == 0
      ensures codes[i] == 0 && u.steps[i].marker != "" && Unbroken(u.steps[i].marker) ==> OwnLine(u.steps[i].marker, u.results[i].output.text)
    {
      ReceiptHasNoBreak(u.token, i);
      WrappedShowsItsCode(u.results[i].output.text, ReceiptOf(u.token, i), codes[i], u.steps[i].marker);
    }
    forall i | 0 <= i < |u.steps| && u.steps[i].Shell? && SomePassedShows(u, u.steps[i].marker)
      ensures Unbroken(u.steps[i].marker)
    {
      ShownIsUnbroken(u, u.steps[i].marker);
    }
  }

  lemma ShownIsUnbroken(u: Turn, m: string)
    requires SomePassedShows(u, m)
    ensures Unbroken(m)
  {
    hide Passed, Unbroken;
  }

  lemma ReceiptHasNoBreak(token: string, i: nat)
    requires '\n' !in token
    ensures '\n' !in ReceiptOf(token, i)
  {
    hide Decimal;
    DecimalRoundTrip(i);
    assert forall c | c in Decimal(i) :: IsDigit(c);
    assert forall c | c in ReceiptOf(token, i) :: c in "BUDDY_FIXTURE_EXIT_" || c in token || c == '_' || c in Decimal(i);
  }

  /** A shell step whose marker holds such a character, which `shell` refuses only for the line feed and the
      carriage return, is never complete, whatever is printed. */
  lemma BrokenMarkerNeverCompletes(s: State, t: nat, i: nat)
    requires Inv(s) && t < |s.turns| && i < |s.turns[t].steps| && s.turns[t].steps[i].Shell? && !Unbroken(s.turns[t].steps[i].marker)
    ensures !Complete(s.turns[t])
  {
    hide Inv, Complete, Passed, SomePassedShows, EndsLine;
    CompleteMeans(s, t);
    if Complete(s.turns[t]) {
      ShownIsUnbroken(s.turns[t], s.turns[t].steps[i].marker);
    }
  }

  /** Such a marker: two letters around a vertical tab, which is one line to `shell` and two to the reader. */
  lemma SomeMarkerIsNeverShown(text: string)
    ensures var m := "a\U{000B}b"; m != "" && '\n' !in m && '\r' !in m && !Unbroken(m) && SplitLines(m) == ["a", "b"] && m !in SplitLines(text)
  {
    hide SplitLines;
    var m := "a\U{000B}b";
    assert EndsLine(m[1]) && !EndsLine('a') && !EndsLine('b');
    assert m[1..] == "\U{000B}b" && m[1..][1..] == "b" && "b"[1..] == "";
    CharJoinsLine("b");
    EmptyLineFirst(m[1..]);
    assert Rest(m[1..]) == "b";
    assert SplitLines(m[1..]) == ["", "b"];
    CharJoinsLine(m);
    assert ['a'] + "" == "a";
    LineIsShown(m, text);
  }
}
