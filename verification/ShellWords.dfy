/** How a shell reads the command line a step is sent as: quoting and encoding lose nothing. */
module ShellWords {
  import opened Option
  import opened Json
  import opened Text
  import opened ProviderSpec

  // ------------------------------------------------------------------- words

  datatype Mode = Bare | Single | Double

  /** The characters that mean something to a shell outside quotes. */
  const SPECIAL: string := "|&;<>()$`\\\"' \t\n\r*?[]#~!{}^"

  function Grown(word: Option<string>, c: string): Option<string> {
    Some((if word.Some? then word.value else "") + c)
  }

  /** The words left to read, `word` being begun; none where the shell would expand, stop or find no end. */
  function Read(s: string, mode: Mode, word: Option<string>): Option<seq<string>>
    decreases |s|
  {
    if s == "" then
      if mode.Bare? then Some(if word.Some? then [word.value] else []) else None
    else
      var c, rest := s[0], s[1..];
      match mode
      case Bare =>
        if c == ' ' then
          var more := Read(rest, Bare, None);
          if more.None? then None else Some((if word.Some? then [word.value] else []) + more.value)
        else if c == '\'' then Read(rest, Single, Grown(word, ""))
        else if c == '"' then Read(rest, Double, Grown(word, ""))
        else if c in SPECIAL then None
        else Read(rest, Bare, Grown(word, [c]))
      case Single =>
        if c == '\'' then Read(rest, Bare, word) else Read(rest, Single, Grown(word, [c]))
      case Double =>
        if c == '"' then Read(rest, Bare, word)
        else if c in "$`\\" then None
        else Read(rest, Double, Grown(word, [c]))
  }

  /** The words of a command line. */
  function Words(s: string): Option<seq<string>> { Read(s, Bare, None) }

  lemma SafeIsNotSpecial(c: char)
    requires IsShellSafe(c)
    ensures c !in SPECIAL && c != ' ' && c != '\'' && c != '"'
  {}

  lemma {:induction false} SafeWordIsRead(w: string, rest: string, word: string)
    requires forall c | c in w :: IsShellSafe(c)
    ensures Read(w + rest, Bare, Some(word)) == Read(rest, Bare, Some(word + w))
    decreases |w|
  {
    hide IsShellSafe;
    if w == "" {
      assert w + rest == rest && word + w == word;
    } else {
      assert w[0] in w;
      SafeIsNotSpecial(w[0]);
      assert (w + rest)[1..] == w[1..] + rest;
      SafeWordIsRead(w[1..], rest, word + [w[0]]);
      assert word + [w[0]] + w[1..] == word + w;
    }
  }

  lemma {:induction false} EscapedWordIsRead(w: string, rest: string, word: string)
    ensures Read(Escape(w) + ("'" + rest), Single, Some(word)) == Read(rest, Bare, Some(word + w))
    decreases |w|
  {
    hide Read;
    if w == "" {
      assert Escape(w) + ("'" + rest) == "'" + rest && word + w == word;
      MarkIsRead('\'', rest, word);
    } else {
      var tail := Escape(w[1..]) + ("'" + rest);
      EscapedWordIsRead(w[1..], rest, word + [w[0]]);
      assert word + [w[0]] + w[1..] == word + w;
      if w[0] == '\'' {
        assert Escape(w) + ("'" + rest) == "'\"'\"'" + tail;
        EscapedQuoteIsRead(tail, word);
      } else {
        assert Escape(w) + ("'" + rest) == [w[0]] + tail;
        QuotedCharIsRead(w[0], tail, word);
      }
    }
  }

  lemma QuotedCharIsRead(c: char, rest: string, word: string)
    requires c != '\''
    ensures Read([c] + rest, Single, Some(word)) == Read(rest, Single, Some(word + [c]))
  {
    assert ([c] + rest)[1..] == rest;
  }

  /** A quotation mark begins and ends its own kind of quotation. */
  lemma MarkIsRead(mark: char, rest: string, word: string)
    requires mark == '\'' || mark == '"'
    ensures var mode := if mark == '"' then Double else Single;
            && Read([mark] + rest, Bare, Some(word)) == Read(rest, mode, Some(word))
            && Read([mark] + rest, mode, Some(word)) == Read(rest, Bare, Some(word))
  {
    assert ([mark] + rest)[1..] == rest && word + "" == word;
  }

  lemma QuoteInDouble(rest: string, word: string)
    ensures Read("'" + rest, Double, Some(word)) == Read(rest, Double, Some(word + "'"))
  {
    assert ("'" + rest)[1..] == rest;
  }

  lemma EscapedQuoteIsRead(tail: string, word: string)
    ensures Read("'\"'\"'" + tail, Single, Some(word)) == Read(tail, Single, Some(word + "'"))
  {
    hide Read;
    var third := "'" + ("\"" + ("'" + tail));
    assert "'\"'\"'" + tail == "'" + ("\"" + third);
    MarkIsRead('\'', "\"" + third, word);
    MarkIsRead('"', third, word);
    MarkIsRead('"', "'" + tail, word + "'");
    MarkIsRead('\'', tail, word + "'");
    QuoteInDouble("\"" + ("'" + tail), word);
  }

  lemma SafeWordIsReadWhole(w: string, rest: string)
    requires w != "" && forall c | c in w :: IsShellSafe(c)
    ensures Read(w + rest, Bare, None) == Read(rest, Bare, Some(w))
  {
    hide IsShellSafe;
    assert w[0] in w;
    SafeIsNotSpecial(w[0]);
    assert (w + rest)[1..] == w[1..] + rest;
    SafeWordIsRead(w[1..], rest, "" + [w[0]]);
    assert "" + [w[0]] + w[1..] == w;
  }

  /** A quoted word is read back as the word, whatever it holds. */
  lemma QuotedWordIsRead(w: string, rest: string)
    ensures Read(Quote(w) + rest, Bare, None) == Read(rest, Bare, Some(w))
  {
    hide IsShellSafe, Escape, Read;
    if w == "" {
      assert "''" + rest == "'" + ("'" + rest);
      QuotationOpens("'" + rest);
      MarkIsRead('\'', rest, "");
    } else if forall c | c in w :: IsShellSafe(c) {
      SafeWordIsReadWhole(w, rest);
    } else {
      assert Quote(w) + rest == "'" + (Escape(w) + ("'" + rest));
      QuotationOpens(Escape(w) + ("'" + rest));
      EscapedWordIsRead(w, rest, "");
      assert "" + w == w;
    }
  }

  lemma QuotationOpens(rest: string)
    ensures Read("'" + rest, Bare, None) == Read(rest, Single, Some(""))
  {
    assert ("'" + rest)[1..] == rest && "" + "" == "";
  }

  // ------------------------------------------------------------------ base64

  function SextetOf(c: char): Option<Sextet> {
    if 'A' <= c <= 'Z' then Some(c as int - 'A' as int)
    else if 'a' <= c <= 'z' then Some(26 + (c as int - 'a' as int))
    else if '0' <= c <= '9' then Some(52 + (c as int - '0' as int))
    else if c == '+' then Some(62)
    else if c == '/' then Some(63)
    else None
  }

  /** The bytes a base64 text stands for, RFC 4648 section 4: four characters for three bytes, padded. */
  function FromBase64(s: string): Option<seq<Byte>> {
    if s == "" then Some([])
    else if |s| < 4 then None
    else
      var a, b, c, d := SextetOf(s[0]), SextetOf(s[1]), SextetOf(s[2]), SextetOf(s[3]);
      if a.None? || b.None? then None
      else if s[2..] == "==" then Some([a.value * 4 + b.value / 16])
      else if c.None? then None
      else if s[3..] == "=" then Some([a.value * 4 + b.value / 16, b.value % 16 * 16 + c.value / 4])
      else if d.None? then None
      else
        var rest := FromBase64(s[4..]);
        if rest.None? then None
        else Some([a.value * 4 + b.value / 16, b.value % 16 * 16 + c.value / 4, c.value % 4 * 64 + d.value] + rest.value)
  }

  lemma DigitIsRead(n: Sextet)
    ensures SextetOf(Base64Digit(n)) == Some(n) && Base64Digit(n) != '='
  {}

  lemma OneByteIsRead(x: Byte)
    ensures FromBase64([Base64Digit(x / 4)] + [Base64Digit(x % 4 * 16)] + "==") == Some([x])
  {
    hide SextetOf, Base64Digit;
    DigitIsRead(x / 4);
    DigitIsRead(x % 4 * 16);
    assert ([Base64Digit(x / 4)] + [Base64Digit(x % 4 * 16)] + "==")[2..] == "==";
  }

  lemma TwoBytesAreRead(x: Byte, y: Byte)
    ensures FromBase64([Base64Digit(x / 4)] + [Base64Digit(x % 4 * 16 + y / 16)] + [Base64Digit(y % 16 * 4)] + "=") == Some([x, y])
  {
    hide SextetOf, Base64Digit;
    DigitIsRead(x / 4);
    DigitIsRead(x % 4 * 16 + y / 16);
    DigitIsRead(y % 16 * 4);
    var s := [Base64Digit(x / 4)] + [Base64Digit(x % 4 * 16 + y / 16)] + [Base64Digit(y % 16 * 4)] + "=";
    assert s[3..] == "=" && s[2] == Base64Digit(y % 16 * 4);
  }

  lemma FourDigitsAreRead(a: Sextet, b: Sextet, c: Sextet, d: Sextet, rest: string, bytes: seq<Byte>)
    requires FromBase64(rest) == Some(bytes)
    ensures FromBase64([Base64Digit(a)] + [Base64Digit(b)] + [Base64Digit(c), Base64Digit(d)] + rest)
         == Some([a * 4 + b / 16, b % 16 * 16 + c / 4, c % 4 * 64 + d] + bytes)
  {
    hide SextetOf, Base64Digit;
    DigitIsRead(a);
    DigitIsRead(b);
    DigitIsRead(c);
    DigitIsRead(d);
    var s := [Base64Digit(a)] + [Base64Digit(b)] + [Base64Digit(c), Base64Digit(d)] + rest;
    assert s[4..] == rest && s[2] == Base64Digit(c) && s[3] == Base64Digit(d);
  }

  lemma HighBitsCarry(x: Byte, y: Byte)
    ensures (x % 4 * 16 + y / 16) / 16 == x % 4 && (x % 4 * 16 + y / 16) % 16 == y / 16 && x / 4 * 4 + x % 4 == x
  {}

  lemma LowBitsCarry(y: Byte, z: Byte)
    ensures (y % 16 * 4 + z / 64) / 4 == y % 16 && (y % 16 * 4 + z / 64) % 4 == z / 64
    ensures y / 16 * 16 + y % 16 == y && z / 64 * 64 + z % 64 == z
  {}

  lemma ThreeBytesAreRead(x: Byte, y: Byte, z: Byte, rest: string, bytes: seq<Byte>)
    requires FromBase64(rest) == Some(bytes)
    ensures FromBase64([Base64Digit(x / 4)] + [Base64Digit(x % 4 * 16 + y / 16)]
                       + [Base64Digit(y % 16 * 4 + z / 64), Base64Digit(z % 64)] + rest) == Some([x, y, z] + bytes)
  {
    hide FromBase64, Base64Digit;
    HighBitsCarry(x, y);
    LowBitsCarry(y, z);
    var a: Sextet, b: Sextet, c: Sextet, d: Sextet := x / 4, x % 4 * 16 + y / 16, y % 16 * 4 + z / 64, z % 64;
    FourDigitsAreRead(a, b, c, d, rest, bytes);
    assert a * 4 + b / 16 == x && b % 16 * 16 + c / 4 == y && c % 4 * 64 + d == z;
  }

  lemma {:induction false} Base64IsRead(b: seq<Byte>)
    ensures FromBase64(Base64(b)) == Some(b)
    decreases |b|
  {
    hide FromBase64, Base64Digit;
    if b == [] {
      EmptyIsRead();
    } else if |b| == 1 {
      OneByteIsRead(b[0]);
      assert b == [b[0]];
    } else if |b| == 2 {
      TwoBytesAreRead(b[0], b[1]);
      assert b == [b[0], b[1]];
    } else {
      Base64IsRead(b[3..]);
      ThreeBytesAreRead(b[0], b[1], b[2], Base64(b[3..]), b[3..]);
      assert b == [b[0], b[1], b[2]] + b[3..];
    }
  }

  lemma EmptyIsRead()
    ensures FromBase64("") == Some([])
  {}

  // ------------------------------------------------------------ command lines

  /** What the wrapper is told, field by field: to run this step, and to print this receipt. */
  predicate TellsStep(told: Json, step: Step, receipt: string) {
    && step.Shell? && told.Obj? && told.fields.Keys == {"command", "cwd", "timeout_ms", "receipt", "marker"}
    && Get(told.fields, "command") == Str(step.command) && Get(told.fields, "cwd") == Str(step.cwd)
    && Get(told.fields, "timeout_ms") == Num(step.timeoutMs as real)
    && Get(told.fields, "receipt") == Str(receipt) && Get(told.fields, "marker") == Str(step.marker)
  }

  /** Read by a shell, the line is the wrapper program under its interpreter, with one argument that is this
      step and this receipt in base64. */
  ghost predicate Runs(command: string, env: Env, step: Step, receipt: string) {
    exists encoded: string, told: Json ::
      && Words(command) == Some([env.executable, "-c", env.runner, encoded])
      && FromBase64(encoded) == Some(env.dumps(told)) && TellsStep(told, step, receipt)
  }

  /** A step's command line is the wrapper on the step's arguments, whatever the interpreter is called and
      whatever the program and the arguments hold. */
  lemma CommandRunsTheStep(env: Env, step: Step, receipt: string)
    requires step.Shell?
    ensures Runs(ShellCommand(env, step, receipt), env, step, receipt)
  {
    hide Quote, Base64, FromBase64, Read, TellsStep, Arguments;
    var told := Arguments(step, receipt);
    ArgumentsTellTheStep(step, receipt);
    var encoded := Base64(env.dumps(told));
    Base64IsRead(env.dumps(told));
    var three := Quote(encoded);
    var two := Quote(env.runner) + (" " + three);
    var one := "-c" + (" " + two);
    assert ShellCommand(env, step, receipt) == Quote(env.executable) + (" " + one);
    LastWord(encoded);
    WordThen(env.runner, three, [encoded]);
    assert [env.runner] + [encoded] == [env.runner, encoded];
    OptionThen(two, [env.runner, encoded]);
    assert ["-c"] + [env.runner, encoded] == ["-c", env.runner, encoded];
    WordThen(env.executable, one, ["-c", env.runner, encoded]);
    assert [env.executable] + ["-c", env.runner, encoded] == [env.executable, "-c", env.runner, encoded];
  }

  lemma ArgumentsTellTheStep(step: Step, receipt: string)
    requires step.Shell?
    ensures TellsStep(Arguments(step, receipt), step, receipt)
  {}

  lemma LastWord(w: string)
    ensures Words(Quote(w)) == Some([w])
  {
    hide Quote;
    QuotedWordIsRead(w, "");
    assert Quote(w) + "" == Quote(w);
  }

  lemma WordThen(w: string, line: string, words: seq<string>)
    requires Words(line) == Some(words)
    ensures Words(Quote(w) + (" " + line)) == Some([w] + words)
  {
    hide Quote;
    QuotedWordIsRead(w, " " + line);
    assert (" " + line)[1..] == line;
  }

  lemma OptionThen(line: string, words: seq<string>)
    requires Words(line) == Some(words)
    ensures Words("-c" + (" " + line)) == Some(["-c"] + words)
  {
    WordThen("-c", line, words);
    assert Quote("-c") == "-c";
  }
}
