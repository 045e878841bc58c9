/** Exit receipts: a real run shows its exit code, and a denial that echoes the command shows none. */
module Receipts {
  import opened Option
  import opened Json
  import opened Text
  import opened Listing
  import opened ProviderSpec
  import opened Discipline

  // -------------------------------------------------------------- assertions

  /** `assert_marker` returns rather than raises. */
  predicate MarkerShown(turn: Turn, marker: string) {
    exists r | r in turn.results :: r.exitCode == Some(0) && marker in SplitLines(r.output.text)
  }

  /** `assert_complete` returns rather than raises. */
  predicate Complete(turn: Turn) {
    && turn.finalEmitted && |turn.results| == |turn.steps|
    && forall i | 0 <= i < |turn.steps| && turn.steps[i].Shell? ::
         turn.results[i].exitCode == Some(0) && (turn.steps[i].marker != "" ==> MarkerShown(turn, turn.steps[i].marker))
  }

  /** The command line an issued shell item carries, under any of the tools it can be sent to. */
  function CommandOf(item: Item): Option<string> {
    match item
    case ToolUse(_, _, Obj(f)) => TextOf(Get(f, "command"))
    case FunctionCall(_, _, "exec_command", Obj(f)) => TextOf(Get(f, "cmd"))
    case FunctionCall(_, _, "shell", Obj(f)) =>
      var argv := Get(f, "command");
      if argv.Arr? && |argv.items| == 3 then TextOf(argv.items[2]) else None
    case FunctionCall(_, _, _, Obj(f)) => TextOf(Get(f, "command"))
    case _ => None
  }

  function TextOf(j: Json): Option<string> {
    if j.Str? then Some(j.text) else None
  }

  lemma ShellItemCarriesItsCommand(env: Env, h: Harness, names: set<string>, step: Step, token: string, index: nat)
    requires step.Shell?
    ensures var item := BuildItem(env, h, names, step, token, index);
            item.Some? ==> CommandOf(item.value) == Some(ShellCommand(env, step, Receipt(token, index)))
  {
    hide ShellCommand, Receipt, CallId;
  }

  // ------------------------------------------------------------ echoed denials

  lemma {:induction false} ExitStartsLine(receipt: string, text: string, lines: seq<string>, from: nat)
    requires from <= |Lines(text)| && lines == Lines(text)[from..]
    requires LineExits(receipt, lines) != []
    ensures StartsLine(receipt + "=", text)
    decreases |lines|
  {
    if LineExit(receipt, lines[0]).Some? {
      assert receipt + "=" <= lines[0];
      LinePrefixStartsLine(receipt + "=", text, from);
    } else {
      ExitStartsLine(receipt, text, lines[1..], from + 1);
    }
  }

  /** A line of head, a space, an unbroken word and a tail starts with the receipt only if the head
      or the tail holds it. */
  lemma ReceiptNeedsASource(p: string, head: string, word: string, tail: string)
    requires p != "" && ' ' !in p && !Occurs(p, head) && !Occurs(p, tail) && '\n' !in word
    ensures !StartsLine(p, head + " " + word + tail)
  {
    var s := head + " " + word + tail;
    var w := |head| + 1 + |word|;
    assert p[0] in p;
    forall i: nat ensures !(OccursAt(p, s, i) && (i == 0 || s[i - 1] == '\n')) {
      if i + |p| > |s| {
      } else if i + |p| <= |head| {
        assert s[i..i + |p|] == head[i..i + |p|];
        assert !OccursAt(p, head, i);
      } else if i <= |head| {
        assert s[i..i + |p|][|head| - i] == ' ';
        assert p[|head| - i] in p;
      } else if i <= w {
        assert if i == |head| + 1 then s[i - 1] == ' ' else s[i - 1] == word[i - |head| - 2] && s[i - 1] in word;
      } else {
        assert s[i..i + |p|] == tail[i - w..i - w + |p|];
        assert !OccursAt(p, tail, i - w);
      }
    }
  }

  /** A receipt has no character that shell quoting or a word break could be built from. */
  predicate PlainToken(token: string) {
    forall c | c in token :: c != ' ' && c != '\'' && c != '"'
  }

  lemma ReceiptIsPlain(token: string, index: nat)
    requires PlainToken(token)
    ensures var p := Receipt(token, index); |p| > 2 && PlainToken(p)
  {
    hide Decimal;
    DecimalIsPlain(index);
    RecognisedIsPlain();
    forall c | c in Receipt(token, index) ensures c != ' ' && c != '\'' && c != '"' {
      assert c in RECEIPT || c in token || c == '_' || c in Decimal(index);
    }
  }

  lemma DecimalIsPlain(index: nat)
    ensures PlainToken(Decimal(index))
  {
    hide Decimal;
    DecimalRoundTrip(index);
  }

  lemma RecognisedIsPlain()
    ensures PlainToken(RECEIPT) && |RECEIPT| > 2
  {
    assert RECEIPT == "BUDDY_" + "FIXTURE_" + "EXIT_";
  }

  /** Echo the whole command line between any texts: if neither they, nor the interpreter's path
      after the first, nor the wrapper program hold the receipt, no exit code is read. */
  lemma EchoShowsNoExit(env: Env, step: Step, token: string, index: nat, before: string, after: string)
    requires step.Shell? && PlainToken(token)
    requires var p := Receipt(token, index);
             !Occurs(p, before + Quote(env.executable)) && !Occurs(p, env.runner) && !Occurs(p, after)
    ensures ExitCode(Receipt(token, index), before + ShellCommand(env, step, Receipt(token, index)) + after) == None
  {
    hide Receipt, Quote, Base64, IsShellSafe, Occurs, StartsLine, Lines, LineExits;
    var p := Receipt(token, index);
    ReceiptIsPlain(token, index);
    HeadShowsNothing(env, p, before);
    WordHasNoBreak(env.dumps(Arguments(step, p)));
    var word := Quote(Base64(env.dumps(Arguments(step, p))));
    var text := before + ShellCommand(env, step, p) + after;
    ReceiptNeedsASource(p, before + CommandHead(env), word, after);
    assert text == before + CommandHead(env) + " " + word + after;
    if LineExits(p, Lines(text)) != [] {
      LinesFromStart(text);
      ExitStartsLine(p, text, Lines(text), 0);
      ShorterStartsLine(p, p + "=", text);
    }
  }

  lemma ShorterStartsLine(p: string, q: string, s: string)
    requires p <= q && StartsLine(q, s)
    ensures StartsLine(p, s)
  {
    var i: nat :| OccursAt(q, s, i) && (i == 0 || s[i - 1] == '\n');
    assert s[i..i + |p|] == q[..|p|];
    assert OccursAt(p, s, i);
  }

  lemma LinesFromStart(text: string)
    ensures Lines(text)[0..] == Lines(text)
  {
    hide Lines;
  }

  /** The command line before its encoded arguments holds the receipt only if what is quoted does. */
  lemma HeadShowsNothing(env: Env, p: string, before: string)
    requires PlainToken(p) && |p| > 2 && !Occurs(p, before + Quote(env.executable)) && !Occurs(p, env.runner)
    ensures !Occurs(p, before + CommandHead(env))
  {
    hide Quote, Occurs;
    var front := before + Quote(env.executable);
    QuoteAddsNoOccurrence(p, env.runner);
    ShortHoldsNothing(p);
    NoOccurrenceAcrossSpace(p, "-c", Quote(env.runner));
    NoOccurrenceAcrossSpace(p, front, "-c" + " " + Quote(env.runner));
    assert before + CommandHead(env) == front + " " + ("-c" + " " + Quote(env.runner));
  }

  lemma ShortHoldsNothing(p: string)
    requires |p| > 2
    ensures !Occurs(p, "-c")
  {}

  lemma WordHasNoBreak(b: seq<Byte>)
    ensures '\n' !in Quote(Base64(b))
  {
    hide Base64;
    Base64Alphabet(b);
  }

  /** The provider refuses an echoed denial: the step has no exit code, the script is not complete,
      and any marker shown is another result's. */
  lemma EchoedDenialIsNotExecution(s: State, t: nat, i: nat, before: string, after: string)
    requires Inv(s) && t < |s.turns| && i < |s.turns[t].results|
    requires i < |s.turns[t].steps| && s.turns[t].steps[i].Shell? && i < |s.turns[t].issued|
    requires s.turns[t].issued[i] in s.turns[t].items
    requires var command := CommandOf(s.turns[t].items[s.turns[t].issued[i]]);
             command.Some? && s.turns[t].results[i].output.text == before + command.value + after
    requires PlainToken(s.turns[t].token)
    requires var p := Receipt(s.turns[t].token, i);
             !Occurs(p, before + Quote(s.env.executable)) && !Occurs(p, s.env.runner) && !Occurs(p, after)
    ensures var turn := s.turns[t];
            && turn.results[i].exitCode == None && !Complete(turn)
            && forall marker | MarkerShown(turn, marker) ::
                 exists j | 0 <= j < |turn.results| && j != i ::
                   turn.results[j].exitCode == Some(0) && marker in SplitLines(turn.results[j].output.text)
  {
    hide Inv, TurnsOk, CallsOk, TurnOk, IssuedOk, ResultOk, Receipt, Quote, ExitCode, Occurs, CommandOf, PlainToken, SplitLines;
    InvLinks(s);
    TurnIsOk(s, t);
    IssuedIsOk(s, t, i);
    ResultIsOk(s, t, i);
    EchoHasNoCode(s, t, i, before, after);
    var u := s.turns[t];
    forall marker | MarkerShown(u, marker)
      ensures exists j | 0 <= j < |u.results| && j != i ::
                u.results[j].exitCode == Some(0) && marker in SplitLines(u.results[j].output.text)
    {
      var r :| r in u.results && r.exitCode == Some(0) && marker in SplitLines(r.output.text);
      var j :| 0 <= j < |u.results| && u.results[j] == r;
    }
  }

  lemma EchoHasNoCode(s: State, t: nat, i: nat, before: string, after: string)
    requires t < |s.turns| && i < |s.turns[t].results| && |s.turns[t].results| <= |s.turns[t].steps| && ResultOk(s, t, i)
    requires s.turns[t].steps[i].Shell? && i < |s.turns[t].issued| <= |s.turns[t].steps| && IssuedOk(s, t, i)
    requires s.turns[t].issued[i] in s.turns[t].items
    requires var command := CommandOf(s.turns[t].items[s.turns[t].issued[i]]);
             command.Some? && s.turns[t].results[i].output.text == before + command.value + after
    requires PlainToken(s.turns[t].token)
    requires var p := Receipt(s.turns[t].token, i);
             !Occurs(p, before + Quote(s.env.executable)) && !Occurs(p, s.env.runner) && !Occurs(p, after)
    ensures s.turns[t].results[i].exitCode == None
  {
    hide BuildItem, Receipt, CallId, Quote, ExitCode, Occurs, CommandOf, ShellCommand, PlainToken;
    var u := s.turns[t];
    var names: set<string> :| BuildItem(s.env, s.harness, names, u.steps[i], u.token, i) == Some(u.items[u.issued[i]]);
    ShellItemCarriesItsCommand(s.env, s.harness, names, u.steps[i], u.token, i);
    EchoShowsNoExit(s.env, u.steps[i], u.token, i, before, after);
  }

  // --------------------------------------------------------------- real runs

  lemma {:induction false} ExitsOfConcat(receipt: string, a: seq<string>, b: seq<string>)
    ensures LineExits(receipt, a + b) == LineExits(receipt, a) + LineExits(receipt, b)
  {
    hide LineExit;
    if a == [] {
      assert a + b == b;
    } else {
      ExitsOfConcat(receipt, a[1..], b);
      assert (a + b)[0] == a[0] && (a + b)[1..] == a[1..] + b;
      var e := LineExit(receipt, a[0]);
      Associative(if e.Some? then [e.value] else [], LineExits(receipt, a[1..]), LineExits(receipt, b));
    }
  }

  predicate ShowsNone(receipt: string, lines: seq<string>) {
    forall i | 0 <= i < |lines| :: LineExit(receipt, lines[i]).None?
  }

  lemma {:induction false} NoExits(receipt: string, lines: seq<string>)
    ensures LineExits(receipt, lines) == [] <==> ShowsNone(receipt, lines)
  {
    hide LineExit;
    if lines == [] {
    } else {
      var rest := lines[1..];
      NoExits(receipt, rest);
      assert forall i | 0 < i < |lines| :: lines[i] == rest[i - 1];
      assert forall i | 0 <= i < |rest| :: rest[i] == lines[i + 1];
    }
  }

  lemma ExitsAround(receipt: string, before: seq<string>, line: string, after: seq<string>, code: int)
    requires LineExit(receipt, line) == Some(code)
    ensures LineExits(receipt, before + ([line] + after))
         == LineExits(receipt, before) + ([code] + LineExits(receipt, after))
  {
    hide LineExit;
    ExitsOfConcat(receipt, before, [line] + after);
    ExitsOfConcat(receipt, [line], after);
    assert [line][1..] == [];
    assert LineExits(receipt, [line]) == [code];
  }

  /** An exit code is read exactly when one line shows it and no other line shows any. */
  lemma ExitCodeIsExact(receipt: string, text: string, k: nat, code: int)
    requires k < |Lines(text)| && LineExit(receipt, Lines(text)[k]) == Some(code)
    ensures ExitCode(receipt, text) ==
            if forall j | 0 <= j < |Lines(text)| && j != k :: LineExit(receipt, Lines(text)[j]).None? then Some(code) else None
  {
    hide LineExit, Lines, LineExits;
    var lines := Lines(text);
    var before, after := lines[..k], lines[k + 1..];
    assert lines == before + ([lines[k]] + after);
    ExitsAround(receipt, before, lines[k], after, code);
    OneOfThree(LineExits(receipt, before), code, LineExits(receipt, after));
    NoExits(receipt, before);
    NoExits(receipt, after);
    OthersAreAround(receipt, lines, k);
  }

  lemma OthersAreAround(receipt: string, lines: seq<string>, k: nat)
    requires k < |lines|
    ensures ShowsNone(receipt, lines[..k]) && ShowsNone(receipt, lines[k + 1..]) <==>
            forall j | 0 <= j < |lines| && j != k :: LineExit(receipt, lines[j]).None?
  {
    hide LineExit;
    var before, after := lines[..k], lines[k + 1..];
    assert forall j | 0 <= j < k :: before[j] == lines[j];
    assert forall j | 0 <= j < |after| :: after[j] == lines[k + 1 + j];
    assert forall j | k < j < |lines| :: lines[j] == after[j - k - 1];
  }

  lemma OneOfThree(x: seq<int>, code: int, y: seq<int>)
    ensures |x + ([code] + y)| == 1 <==> x == [] && y == []
    ensures x == [] && y == [] ==> x + ([code] + y) == [code]
  {}

  /** What the wrapper prints is read back: the program's own output, the receipt line with any exit
      code, with or without a carriage return, and what follows, when neither shows the receipt itself. */
  lemma RealRunShowsItsExit(receipt: string, before: string, code: int, end: string, after: string)
    requires '\n' !in receipt && (end == "" || end == "\r")
    requires LineExits(receipt, Lines(before)) == [] && LineExits(receipt, Lines(after)) == []
    ensures ExitCode(receipt, before + "\n" + (receipt + "=" + IntText(code) + end + "\n" + after)) == Some(code)
  {
    hide LineExit, LineExits, Lines, IntText;
    var line := receipt + "=" + IntText(code) + end;
    ReceiptLineIsOne(receipt, code, end);
    LinesOfOneLine(line);
    LinesOfConcat(line, after);
    LinesOfConcat(before, line + "\n" + after);
    LineShowsExit(receipt, code, end);
    ExitsAround(receipt, Lines(before), line, Lines(after), code);
    assert [] + ([code] + []) == [code];
  }

  lemma ReceiptLineIsOne(receipt: string, code: int, end: string)
    requires '\n' !in receipt && (end == "" || end == "\r")
    ensures '\n' !in receipt + "=" + IntText(code) + end
  {
    hide IntText;
    IntIsPlain(code);
    var line := receipt + "=" + IntText(code) + end;
    assert forall c | c in line :: c in receipt || c == '=' || c in IntText(code) || c in end;
  }

  lemma IntIsPlain(n: int)
    ensures IntText(n) != "" && forall c | c in IntText(n) :: c == '-' || IsDigit(c)
  {
    DecimalRoundTrip(if n < 0 then -n else n);
  }

  lemma LineShowsExit(receipt: string, code: int, end: string)
    requires end == "" || end == "\r"
    ensures LineExit(receipt, receipt + "=" + IntText(code) + end) == Some(code)
  {
    hide IntText;
    IntRoundTrip(code);
    IntIsPlain(code);
    var digits := IntText(code);
    var body := receipt + "=" + digits;
    var line := body + end;
    assert digits[|digits| - 1] in digits;
    assert body[|body| - 1] == digits[|digits| - 1] != '\r';
    if end == "" {
      assert line == body;
    } else {
      assert line[|line| - 1] == '\r' && line[..|line| - 1] == body;
    }
    assert receipt + "=" <= body && body[|receipt + "="|..] == digits;
  }
}
