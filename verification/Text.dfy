/** The string operations the fixture's receipts and call identifiers rest on. */
module Text {
  // ---------------------------------------------------------------- decimals

  const DIGITS: string := "0123456789"

  predicate IsDigit(c: char) { '0' <= c <= '9' }

  /** `str(n)` for a natural number. */
  function Decimal(n: nat): string {
    if n < 10 then [DIGITS[n]] else Decimal(n / 10) + [DIGITS[n % 10]]
  }

  predicate AllDigits(s: string) { forall c | c in s :: IsDigit(c) }

  function NatOf(s: string): nat
    requires AllDigits(s)
  {
    if s == "" then 0
    else
      assert s[|s| - 1] in s;
      NatOf(s[..|s| - 1]) * 10 + (s[|s| - 1] as int - '0' as int)
  }

  /** `str(n)` for an integer. */
  function IntText(n: int): string {
    if n < 0 then "-" + Decimal(-n) else Decimal(n)
  }

  /** The pattern `-?\d+`, over the ASCII digits. */
  predicate IsInteger(s: string) {
    var digits := if s != "" && s[0] == '-' then s[1..] else s;
    digits != "" && AllDigits(digits)
  }

  /** `int(s)` for a string of that shape. */
  function IntOf(s: string): int
    requires IsInteger(s)
  {
    if s[0] == '-' then -(NatOf(s[1..]) as int) else NatOf(s)
  }

  lemma {:induction false} DecimalRoundTrip(n: nat)
    ensures Decimal(n) != "" && AllDigits(Decimal(n)) && NatOf(Decimal(n)) == n
  {
    if n < 10 {
      assert NatOf("") == 0;
      assert Decimal(n)[..0] == "";
    } else {
      DecimalRoundTrip(n / 10);
      var d := Decimal(n);
      assert d[..|d| - 1] == Decimal(n / 10);
    }
  }

  lemma IntRoundTrip(n: int)
    ensures IsInteger(IntText(n)) && IntOf(IntText(n)) == n
  {
    DecimalRoundTrip(if n < 0 then -n else n);
    if n < 0 {
      assert IntText(n)[1..] == Decimal(-n);
    } else {
      assert Decimal(n)[0] in Decimal(n);
    }
  }

  /** Leading zeros and a sign are read as `int` reads them; with the round trip this settles every digit string. */
  lemma {:induction false} LeadingZero(s: string)
    requires AllDigits(s)
    ensures AllDigits("0" + s) && NatOf("0" + s) == NatOf(s)
    ensures s != "" ==> IsInteger(s) && IsInteger("-" + s) && IntOf(s) == NatOf(s) && IntOf("-" + s) == -(NatOf(s) as int)
  {
    assert forall c | c in "0" + s :: c == '0' || c in s;
    if s == "" {
      assert ("0" + s)[..0] == "" && NatOf("") == 0;
    } else {
      assert s[0] in s && ("-" + s)[1..] == s;
      assert AllDigits(s[..|s| - 1]);
      LeadingZero(s[..|s| - 1]);
      assert ("0" + s)[..|s|] == "0" + s[..|s| - 1];
    }
  }

  lemma DecimalInjective(m: nat, n: nat)
    requires Decimal(m) == Decimal(n)
    ensures m == n
  {
    DecimalRoundTrip(m);
    DecimalRoundTrip(n);
  }

  // ------------------------------------------------------------------- lines

  /** The pieces of `s` between the characters that separate: always at least one. */
  function SplitBy(s: string, separates: char -> bool): (r: seq<string>)
    ensures |r| >= 1
  {
    if s == "" then [""] else Push(separates(s[0]), s[0], SplitBy(s[1..], separates))
  }

  function Push(separator: bool, c: char, pieces: seq<string>): (r: seq<string>)
    requires |pieces| >= 1
    ensures |r| >= 1
  {
    if separator then [""] + pieces else [[c] + pieces[0]] + pieces[1..]
  }

  lemma PushOntoConcat(separator: bool, c: char, x: seq<string>, y: seq<string>)
    requires |x| >= 1
    ensures Push(separator, c, x + y) == Push(separator, c, x) + y
  {
    assert (x + y)[1..] == x[1..] + y;
  }

  lemma {:induction false} SplitOfJoin(a: string, bar: char, b: string, separates: char -> bool)
    requires separates(bar)
    ensures SplitBy(a + [bar] + b, separates) == SplitBy(a, separates) + SplitBy(b, separates)
  {
    var s := a + [bar] + b;
    if a == "" {
      assert s[1..] == b;
    } else {
      var t := a[1..];
      SplitOfJoin(t, bar, b, separates);
      assert s[0] == a[0] && s[1..] == t + [bar] + b;
      PushOntoConcat(separates(a[0]), a[0], SplitBy(t, separates), SplitBy(b, separates));
    }
  }

  predicate IsNewline(c: char) { c == '\n' }

  /** What the `^` and `$` of a multi-line pattern see. */
  function Lines(s: string): (r: seq<string>)
    ensures |r| >= 1
  {
    SplitBy(s, IsNewline)
  }

  lemma LinesOfConcat(a: string, b: string)
    ensures Lines(a + "\n" + b) == Lines(a) + Lines(b)
  {
    SplitOfJoin(a, '\n', b, IsNewline);
    assert "\n" == ['\n'];
  }

  lemma {:induction false} LinesOfOneLine(a: string)
    requires '\n' !in a
    ensures Lines(a) == [a]
  {
    if a == "" {
    } else {
      LinesOfOneLine(a[1..]);
      assert a[0] in a;
      assert a == [a[0]] + a[1..];
    }
  }

  predicate IsLineBreak(c: char) {
    c in "\n\r\U{000B}\U{000C}\U{001C}\U{001D}\U{001E}\U{0085}\U{2028}\U{2029}"
  }

  /** `s.splitlines()`: no empty last line, and a carriage return with its newline is one break. */
  function SplitLines(s: string): seq<string> {
    if s == "" then []
    else if |s| > 1 && s[0] == '\r' && s[1] == '\n' then [""] + SplitLines(s[2..])
    else if IsLineBreak(s[0]) then [""] + SplitLines(s[1..])
    else
      var rest := SplitLines(s[1..]);
      if rest == [] || |s| == 1 then [[s[0]]] + rest else [[s[0]] + rest[0]] + rest[1..]
  }

  // ------------------------------------------------------------- occurrences

  ghost predicate OccursAt(p: string, s: string, i: nat) {
    i + |p| <= |s| && s[i..i + |p|] == p
  }

  ghost predicate Occurs(p: string, s: string) {
    exists i: nat :: OccursAt(p, s, i)
  }

  /** `p` stands at the start of some line of `s`. */
  ghost predicate StartsLine(p: string, s: string) {
    exists i: nat :: OccursAt(p, s, i) && (i == 0 || s[i - 1] == '\n')
  }

  lemma {:induction false} FirstLineIsPrefix(s: string)
    ensures Lines(s)[0] <= s
  {
    if s != "" && s[0] != '\n' {
      FirstLineIsPrefix(s[1..]);
    }
  }

  lemma {:induction false} LaterLineStarts(p: string, s: string, k: nat)
    requires 0 < k < |Lines(s)| && p <= Lines(s)[k]
    ensures exists i: nat :: 0 < i && OccursAt(p, s, i) && s[i - 1] == '\n'
  {
    var rest := s[1..];
    if s[0] == '\n' && k == 1 {
      FirstLineIsPrefix(rest);
      assert p <= rest;
      assert OccursAt(p, s, 1);
    } else {
      var j := if s[0] == '\n' then k - 1 else k;
      assert Lines(s)[k] == Lines(rest)[j];
      LaterLineStarts(p, rest, j);
      var i: nat :| 0 < i && OccursAt(p, rest, i) && rest[i - 1] == '\n';
      assert OccursAt(p, s, i + 1);
      assert s[i] == '\n';
    }
  }

  lemma LinePrefixStartsLine(p: string, s: string, k: nat)
    requires k < |Lines(s)| && p <= Lines(s)[k]
    ensures StartsLine(p, s)
  {
    if k == 0 {
      FirstLineIsPrefix(s);
      assert OccursAt(p, s, 0);
    } else {
      LaterLineStarts(p, s, k);
    }
  }

  /** A word without a space cannot straddle one. */
  lemma NoOccurrenceAcrossSpace(p: string, a: string, b: string)
    requires p != "" && ' ' !in p && !Occurs(p, a) && !Occurs(p, b)
    ensures !Occurs(p, a + " " + b)
  {
    var s := a + " " + b;
    forall i: nat ensures !OccursAt(p, s, i) {
      if i + |p| <= |a| {
        assert s[i..i + |p|] == a[i..i + |p|];
        assert !OccursAt(p, a, i);
      } else if i <= |a| {
        assert i + |p| <= |s| ==> s[i..i + |p|][|a| - i] == ' ';
      } else if i + |p| <= |s| {
        var k := i - |a| - 1;
        assert s[i..i + |p|] == b[k..k + |p|];
        assert !OccursAt(p, b, k);
      }
    }
  }

  // ---------------------------------------------------------- shell quoting

  predicate IsShellSafe(c: char) {
    || 'a' <= c <= 'z' || 'A' <= c <= 'Z' || IsDigit(c)
    || c == '@' || c == '%' || c == '+' || c == '=' || c == ':'
    || c == ',' || c == '.' || c == '/' || c == '-' || c == '_'
  }

  /** Every single quote becomes a quoted double-quoted single quote. */
  function Escape(s: string): (r: string)
    ensures s != "" ==> r != "" && r[0] == s[0]
  {
    if s == "" then ""
    else (if s[0] == '\'' then "'\"'\"'" else [s[0]]) + Escape(s[1..])
  }

  /** `shlex.quote(s)`. */
  function Quote(s: string): string {
    if s == "" then "''"
    else if forall c | c in s :: IsShellSafe(c) then s
    else "'" + Escape(s) + "'"
  }

  lemma {:induction false} PrefixSurvivesUnescape(p: string, s: string)
    requires p <= Escape(s) && '\'' !in p
    ensures p <= s
  {
    if p == "" {
    } else {
      assert s != "";
      assert p[0] in p;
      assert Escape(s)[1..] == Escape(s[1..]);
      assert p[1..] <= Escape(s[1..]);
      PrefixSurvivesUnescape(p[1..], s[1..]);
      assert p == [p[0]] + p[1..] && s == [s[0]] + s[1..];
    }
  }

  lemma {:induction false} OccurrenceSurvivesUnescape(p: string, s: string, i: nat)
    requires p != "" && '\'' !in p && '"' !in p && OccursAt(p, Escape(s), i)
    ensures Occurs(p, s)
  {
    var e := Escape(s);
    assert s != "";
    var w := if s[0] == '\'' then 5 else 1;
    assert e[w..] == Escape(s[1..]) && |e| == w + |Escape(s[1..])|;
    if i >= w {
      OccursLater(p, e, w, i);
      OccurrenceSurvivesUnescape(p, s[1..], i - w);
      OccursInRest(p, s);
    } else {
      assert p[0] == e[i] && p[0] in p;
      assert s[0] != '\'';
      PrefixSurvivesUnescape(p, s);
      assert OccursAt(p, s, 0);
    }
  }

  lemma OccursLater(p: string, e: string, w: nat, i: nat)
    requires w <= i && w <= |e| && OccursAt(p, e, i)
    ensures OccursAt(p, e[w..], i - w)
  {
    assert e[w..][i - w..i - w + |p|] == e[i..i + |p|];
  }

  lemma OccursInRest(p: string, s: string)
    requires s != "" && Occurs(p, s[1..])
    ensures Occurs(p, s)
  {
    var j: nat :| OccursAt(p, s[1..], j);
    assert s[1..][j..j + |p|] == s[j + 1..j + 1 + |p|];
    assert OccursAt(p, s, j + 1);
  }

  /** Quoting cannot bring a quote-free word into existence. */
  lemma QuoteAddsNoOccurrence(p: string, s: string)
    requires p != "" && '\'' !in p && '"' !in p && !Occurs(p, s)
    ensures !Occurs(p, Quote(s))
  {
    hide IsShellSafe;
    var q := Quote(s);
    var e := Escape(s);
    if q != s {
      assert q == "'" + e + "'";
      forall i: nat ensures !OccursAt(p, q, i) {
        if OccursAt(p, q, i) {
          OccursBetweenQuotes(p, e, i);
          OccurrenceSurvivesUnescape(p, s, i - 1);
        }
      }
    }
  }

  /** A word without quotes that occurs in quoted text occurs between the quotes. */
  lemma OccursBetweenQuotes(p: string, e: string, i: nat)
    requires p != "" && '\'' !in p && OccursAt(p, "'" + e + "'", i)
    ensures 0 < i && OccursAt(p, e, i - 1)
  {
    var q := "'" + e + "'";
    assert p[0] in p && p[|p| - 1] in p;
    assert q[i] == p[0] && q[i + |p| - 1] == p[|p| - 1];
    assert q[0] == '\'' && q[|q| - 1] == '\'';
    assert q[i..i + |p|] == e[i - 1..i - 1 + |p|];
  }

  // ------------------------------------------------------------------ base64

  type Byte = n: int | 0 <= n < 256

  type Sextet = n: int | 0 <= n < 64

  function Base64Digit(n: Sextet): (c: char)
    ensures IsShellSafe(c) && c != '\n' && c != '_' && c != ' '
  {
    if n < 26 then ('A' as int + n) as char
    else if n < 52 then ('a' as int + n - 26) as char
    else if n < 62 then ('0' as int + n - 52) as char
    else if n == 62 then '+' else '/'
  }

  /** `base64.b64encode(b)`. */
  function Base64(b: seq<Byte>): string {
    if b == [] then ""
    else
      var first := [Base64Digit(b[0] / 4)];
      if |b| == 1 then first + [Base64Digit(b[0] % 4 * 16)] + "=="
      else
        var second := [Base64Digit(b[0] % 4 * 16 + b[1] / 16)];
        if |b| == 2 then first + second + [Base64Digit(b[1] % 16 * 4)] + "="
        else
          first + second + [Base64Digit(b[1] % 16 * 4 + b[2] / 64), Base64Digit(b[2] % 64)] + Base64(b[3..])
  }

  lemma {:induction false} Base64Alphabet(b: seq<Byte>)
    ensures forall c | c in Base64(b) :: IsShellSafe(c) && c != '\n' && c != '_' && c != ' '
  {
    if |b| < 3 {
    } else {
      Base64Alphabet(b[3..]);
    }
  }

  // ------------------------------------------------------------------- sizes

  /** `len(s.encode())`: bytes in UTF-8. */
  function Utf8Length(s: string): nat {
    if s == "" then 0
    else
      var c := s[0] as int;
      (if c < 0x80 then 1 else if c < 0x800 then 2 else if c < 0x1_0000 then 3 else 4) + Utf8Length(s[1..])
  }

  /** How many characters have at least this code point. */
  function From(s: string, least: int): nat {
    if s == "" then 0 else (if s[0] as int >= least then 1 else 0) + From(s[1..], least)
  }

  /** Each character is one byte, and one more from each of the code points where the encoding widens. */
  lemma {:induction false} Utf8LengthCounts(s: string)
    ensures Utf8Length(s) == |s| + From(s, 0x80) + From(s, 0x800) + From(s, 0x1_0000)
  {
    if s != "" {
      Utf8LengthCounts(s[1..]);
    }
  }
}
