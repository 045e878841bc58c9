/** `htmlToText` of internal/buddylist/htmltext.go: flattening the HTML envelope around a message. */
module HtmlText {
  import opened Listing

  /** `html.UnescapeString`, known here only to leave text without `&` alone. */
  type Unescape = string -> string

  ghost predicate LeavesPlainText(u: Unescape) { forall s | '&' !in s :: u(s) == s }

  predicate IsSpace(c: char) {
    c == ' ' || c == '\t' || c == '\n' || c == '\r' || c == '\U{000B}' || c == '\U{000C}'
  }

  function TrimLeft(s: string): string { if s != "" && IsSpace(s[0]) then TrimLeft(s[1..]) else s }

  function TrimRight(s: string): string { if s != "" && IsSpace(s[|s| - 1]) then TrimRight(s[..|s| - 1]) else s }

  /** `strings.TrimSpace` */
  function Trim(s: string): string { TrimRight(TrimLeft(s)) }

  function Upper(c: char): char { if 'a' <= c <= 'z' then (c as int - 32) as char else c }

  predicate SameFolded(c: char, upper: char) { Upper(c) == upper }

  /** The text begins an envelope: `<HTML`, in any case, after white space. */
  predicate Enveloped(s: string) {
    var t := Trim(s);
    |t| >= 5 && t[0] == '<' && SameFolded(t[1], 'H') && SameFolded(t[2], 'T') && SameFolded(t[3], 'M') && SameFolded(t[4], 'L')
  }

  /** `<HTML` stands at position `k`, in any case, with white space alone before it. */
  ghost predicate OpensAt(s: string, k: nat) {
    && k + 5 <= |s| && (forall j | 0 <= j < k :: SpaceAt(s, j))
    && s[k] == '<' && (s[k + 1] == 'H' || s[k + 1] == 'h') && (s[k + 2] == 'T' || s[k + 2] == 't')
    && (s[k + 3] == 'M' || s[k + 3] == 'm') && (s[k + 4] == 'L' || s[k + 4] == 'l')
  }

  /** A message is an envelope exactly when it opens so; any other is left as it came. */
  lemma EnvelopedMeans(s: string)
    ensures Enveloped(s) <==> exists k: nat :: OpensAt(s, k)
  {
    hide Enveloped, OpensAt;
    if Enveloped(s) {
      EnvelopedOpens(s);
    }
    if exists k: nat :: OpensAt(s, k) {
      var k: nat :| OpensAt(s, k);
      OpeningIsEnveloped(s, k);
    }
  }

  lemma EnvelopedOpens(s: string)
    requires Enveloped(s)
    ensures OpensAt(s, LeftSpace(s))
  {
    hide Trim, SpaceAt, LeftSpace;
    TrimMeans(s);
    var t, a := Trim(s), LeftSpace(s);
    assert t[0] == s[a] && t[1] == s[a + 1] && t[2] == s[a + 2] && t[3] == s[a + 3] && t[4] == s[a + 4];
  }

  lemma OpeningIsEnveloped(s: string, k: nat)
    requires OpensAt(s, k)
    ensures Enveloped(s)
  {
    hide Trim, LeftSpace, SpaceAt;
    TrimMeans(s);
    MarkIsNoSpace(s, k);
    MarkIsNoSpace(s, k + 4);
    var t, a := Trim(s), LeftSpace(s);
    assert a <= k && k + 4 < a + |t|;
    assert a == k;
    assert t[0] == s[k] && t[1] == s[k + 1] && t[2] == s[k + 2] && t[3] == s[k + 3] && t[4] == s[k + 4];
  }

  lemma MarkIsNoSpace(s: string, j: nat)
    requires j < |s| && (s[j] == '<' || s[j] == 'L' || s[j] == 'l')
    ensures !SpaceAt(s, j)
  {}

  /** How many characters of white space begin the text. */
  function LeftSpace(s: string): nat { if s != "" && IsSpace(s[0]) then 1 + LeftSpace(s[1..]) else 0 }

  predicate SpaceAt(s: string, j: int)
    requires 0 <= j < |s|
  {
    (s[j] as int) in {9, 10, 11, 12, 13, 32}
  }

  lemma {:induction false} TrimLeftMeans(s: string)
    ensures LeftSpace(s) <= |s| && TrimLeft(s) == s[LeftSpace(s)..]
    ensures forall j | 0 <= j < LeftSpace(s) :: SpaceAt(s, j)
    ensures LeftSpace(s) < |s| ==> !SpaceAt(s, LeftSpace(s))
  {
    if s != "" && IsSpace(s[0]) {
      TrimLeftMeans(s[1..]);
      assert forall j | 0 < j < |s| :: SpaceAt(s, j) <==> SpaceAt(s[1..], j - 1);
    }
  }

  lemma {:induction false} TrimRightMeans(s: string)
    ensures TrimRight(s) <= s && (TrimRight(s) != "" ==> !SpaceAt(s, |TrimRight(s)| - 1))
    ensures forall j | |TrimRight(s)| <= j < |s| :: SpaceAt(s, j)
    decreases |s|
  {
    if s != "" && IsSpace(s[|s| - 1]) {
      TrimRightMeans(s[..|s| - 1]);
      assert forall j | 0 <= j < |s| - 1 :: SpaceAt(s, j) <==> SpaceAt(s[..|s| - 1], j);
    }
  }

  /** Trimming takes the outer white space, all of it, and nothing else. */
  lemma TrimMeans(s: string)
    ensures var a, n := LeftSpace(s), |Trim(s)|;
            && a + n <= |s| && Trim(s) == s[a..a + n]
            && (forall j | 0 <= j < a || a + n <= j < |s| :: SpaceAt(s, j))
            && (n > 0 ==> !SpaceAt(s, a) && !SpaceAt(s, a + n - 1))
  {
    hide SpaceAt, TrimLeft, TrimRight;
    TrimLeftMeans(s);
    TrimRightMeans(TrimLeft(s));
    var a, l := LeftSpace(s), TrimLeft(s);
    forall j | 0 <= j < |l| ensures SpaceAt(l, j) <==> SpaceAt(s, a + j) {
      SameSpace(l, j, s, a + j);
    }
    assert forall j | a <= j < |s| :: SpaceAt(s, j) <==> SpaceAt(l, j - a);
  }

  lemma SameSpace(s: string, i: nat, t: string, j: nat)
    requires i < |s| && j < |t| && s[i] == t[j]
    ensures SpaceAt(s, i) <==> SpaceAt(t, j)
  {}

  /** Such a message: text with a `<` of its own. */
  lemma PlainMessageIsNoEnvelope()
    ensures !Enveloped("i <3 u")
  {
    var s := "i <3 u";
    EnvelopedMeans(s);
    forall k: nat ensures !OpensAt(s, k) {
      assert s[0] == 'i';
    }
  }

  predicate IsBreakTag(s: string) { |s| >= 3 && s[0] == '<' && SameFolded(s[1], 'B') && SameFolded(s[2], 'R') }

  /** What is left of `s`, read from inside or outside a tag: a line break for each `<BR`. */
  function StripTags(s: string, inTag: bool): string {
    if s == "" then ""
    else if inTag then StripTags(s[1..], s[0] != '>')
    else if s[0] == '<' then (if IsBreakTag(s) then "\n" else "") + StripTags(s[1..], true)
    else [s[0]] + StripTags(s[1..], false)
  }

  function Flattened(s: string, u: Unescape): string { Trim(u(StripTags(s, false))) }

  /** What one byte adds to the text. */
  function Piece(s: string, i: nat, inTag: bool): string
    requires i < |s|
  {
    if inTag then ""
    else if s[i] != '<' then [s[i]]
    else if i + 3 <= |s| && SameFolded(s[i + 1], 'B') && SameFolded(s[i + 2], 'R') then "\n" else ""
  }

  method HtmlToText(s: string, u: Unescape) returns (r: string)
    ensures r == if Enveloped(s) then Flattened(s, u) else s
    ensures (forall k: nat :: !OpensAt(s, k)) ==> r == s
  {
    hide StripTags, SameFolded, Enveloped, Trim, OpensAt;
    EnvelopedMeans(s);
    if !Enveloped(s) {
      return s;
    }
    assert s[0..] == s;
    var b, inTag := "", false;
    var i := 0;
    while i < |s|
      invariant 0 <= i <= |s|
      invariant StripTags(s, false) == b + StripTags(s[i..], inTag)
    {
      StripOneMore(s, i, inTag);
      Associative(b, Piece(s, i, inTag), StripTags(s[i + 1..], if inTag then s[i] != '>' else s[i] == '<'));
      if inTag {
        if s[i] == '>' {
          inTag := false;
        }
      } else if s[i] == '<' {
        if i + 3 <= |s| && SameFolded(s[i + 1], 'B') && SameFolded(s[i + 2], 'R') {
          b := b + "\n";
        }
        inTag := true;
      } else {
        b := b + [s[i]];
      }
      i := i + 1;
    }
    NothingLeft(inTag);
    assert s[|s|..] == "" && b + "" == b;
    return Trim(u(b));
  }

  lemma NothingLeft(inTag: bool)
    ensures StripTags("", inTag) == ""
  {}

  lemma StripOneMore(s: string, i: nat, inTag: bool)
    requires i < |s|
    ensures StripTags(s[i..], inTag) == Piece(s, i, inTag) + StripTags(s[i + 1..], if inTag then s[i] != '>' else s[i] == '<')
  {
    assert s[i..][1..] == s[i + 1..] && s[i..][0] == s[i];
  }

  /** The inside of a break tag begins `BR`, in any case. */
  predicate BeginsBreak(inner: string) {
    |inner| >= 2 && (inner[0] == 'B' || inner[0] == 'b') && (inner[1] == 'R' || inner[1] == 'r')
  }

  /** Stripping, part by part: text before a tag stays, a closed tag goes, and so does one that never closes,
      each leaving a line break where it begins `BR`. */
  lemma StrippedByParts(text: string, inner: string, rest: string)
    requires '<' !in text && '>' !in inner
    ensures StripTags("", false) == "" && StripTags(text + rest, false) == text + StripTags(rest, false)
    ensures StripTags("<" + inner + ">" + rest, false) == (if BeginsBreak(inner) then "\n" else "") + StripTags(rest, false)
    ensures StripTags("<" + inner, false) == if BeginsBreak(inner) then "\n" else ""
  {
    hide StripTags, IsBreakTag, BeginsBreak;
    NothingLeft(false);
    TextIsKept(text, rest);
    TagIsRead(inner, rest);
    assert "<" + inner + ">" + rest == Tag(inner) + rest;
    BreakTagBegins(inner, ">");
    BreakTagBegins(inner, "");
    assert Tag(inner) == "<" + inner + ">" && "<" + inner + "" == "<" + inner;
    OpenTagIsRead(inner);
  }

  lemma BreakTagBegins(inner: string, end: string)
    requires end == "" || end == ">"
    ensures IsBreakTag("<" + inner + end) <==> BeginsBreak(inner)
  {
    var s := "<" + inner + end;
    assert |inner| >= 2 ==> s[1] == inner[0] && s[2] == inner[1];
    assert |inner| == 1 && end == ">" ==> s[2] == '>';
  }

  lemma OpenTagIsRead(inner: string)
    requires '>' !in inner
    ensures StripTags("<" + inner, false) == if IsBreakTag("<" + inner) then "\n" else ""
  {
    assert ("<" + inner)[1..] == inner;
    InsideNeverEnds(inner);
  }

  lemma {:induction false} InsideNeverEnds(inner: string)
    requires '>' !in inner
    ensures StripTags(inner, true) == ""
  {
    if inner != "" {
      assert inner[0] in inner;
      InsideNeverEnds(inner[1..]);
    }
  }

  lemma {:induction false} TextIsKept(text: string, rest: string)
    requires '<' !in text
    ensures StripTags(text + rest, false) == text + StripTags(rest, false)
  {
    if text == "" {
      assert text + rest == rest;
    } else {
      assert text[0] in text && (text + rest)[1..] == text[1..] + rest;
      TextIsKept(text[1..], rest);
    }
  }

  // -------------------------------------------------------------- round trip

  /** Newlines become break tags. */
  function WithBreaks(text: string): string {
    if text == "" then ""
    else (if text[0] == '\n' then Tag("BR") else [text[0]]) + WithBreaks(text[1..])
  }

  function Tag(inner: string): string { "<" + inner + ">" }

  function Tags(inners: seq<string>): string {
    if inners == [] then "" else Tag(inners[0]) + Tags(inners[1..])
  }

  /** The inside of a tag that is not a break. */
  predicate IsInner(inner: string) { '>' !in inner && '&' !in inner && !IsBreakTag(Tag(inner)) }

  predicate IsHtml(inner: string) {
    |inner| >= 4 && SameFolded(inner[0], 'H') && SameFolded(inner[1], 'T') && SameFolded(inner[2], 'M') && SameFolded(inner[3], 'L')
  }

  /** Tags to open and to close with, the first of them `<HTML`, with nothing to unescape in them. */
  predicate IsEnvelope(open: seq<string>, close: seq<string>) {
    && (forall t | t in open + close :: IsInner(t))
    && open != [] && IsHtml(open[0])
  }

  function Envelope(open: seq<string>, text: string, close: seq<string>): string {
    Tags(open) + (WithBreaks(text) + Tags(close))
  }

  lemma {:induction false} InsideIsSkipped(inner: string, rest: string)
    requires '>' !in inner
    ensures StripTags(inner + ">" + rest, true) == StripTags(rest, false)
  {
    var s := inner + ">" + rest;
    if inner == "" {
      assert s[0] == '>' && s[1..] == rest;
    } else {
      assert inner[0] in inner;
      assert s[0] == inner[0] && s[1..] == inner[1..] + ">" + rest;
      InsideIsSkipped(inner[1..], rest);
    }
  }

  lemma TagIsRead(inner: string, rest: string)
    requires '>' !in inner
    ensures StripTags(Tag(inner) + rest, false) == (if IsBreakTag(Tag(inner)) then "\n" else "") + StripTags(rest, false)
  {
    var s := Tag(inner) + rest;
    assert s[0] == '<' && s[1..] == inner + ">" + rest;
    TagDecidesBreak(inner, rest);
    InsideIsSkipped(inner, rest);
  }

  /** Whether a tag is a break does not depend on what follows it. */
  lemma TagDecidesBreak(inner: string, rest: string)
    ensures IsBreakTag(Tag(inner) + rest) <==> IsBreakTag(Tag(inner))
  {
    var t := Tag(inner);
    var s := t + rest;
    if |t| >= 3 {
      assert s[0] == t[0] && s[1] == t[1] && s[2] == t[2];
    } else {
      assert s[1] == t[1] == '>';
    }
  }

  lemma {:induction false} TagsAreSkipped(inners: seq<string>, rest: string)
    requires forall t | t in inners :: IsInner(t)
    ensures StripTags(Tags(inners) + rest, false) == StripTags(rest, false)
  {
    hide StripTags, IsBreakTag, Tag;
    if inners == [] {
      assert Tags(inners) + rest == rest;
    } else {
      assert IsInner(inners[0]);
      TagIsRead(inners[0], Tags(inners[1..]) + rest);
      assert Tags(inners) + rest == Tag(inners[0]) + (Tags(inners[1..]) + rest);
      TagsAreSkipped(inners[1..], rest);
    }
  }

  lemma CharIsRead(c: char, rest: string)
    requires c != '<'
    ensures StripTags((if c == '\n' then Tag("BR") else [c]) + rest, false) == [c] + StripTags(rest, false)
  {
    if c == '\n' {
      TagIsRead("BR", rest);
      assert Tag("BR")[0] == '<' && Tag("BR")[1] == 'B' && Tag("BR")[2] == 'R';
    } else {
      assert ([c] + rest)[1..] == rest;
    }
  }

  lemma {:induction false} BodyIsRead(text: string, close: seq<string>)
    requires '<' !in text && forall t | t in close :: IsInner(t)
    ensures StripTags(WithBreaks(text) + Tags(close), false) == text
    decreases |text|
  {
    hide StripTags, Tags, Tag, IsInner;
    if text == "" {
      TagsAreSkipped(close, "");
      NothingLeft(false);
      assert WithBreaks(text) + Tags(close) == Tags(close) + "";
    } else {
      assert text[0] in text && text == [text[0]] + text[1..];
      BodyIsRead(text[1..], close);
      Associative(if text[0] == '\n' then Tag("BR") else [text[0]], WithBreaks(text[1..]), Tags(close));
      CharIsRead(text[0], WithBreaks(text[1..]) + Tags(close));
    }
  }

  lemma {:induction false} StripDropsAngles(s: string, inTag: bool)
    ensures '<' !in StripTags(s, inTag)
    ensures '&' !in s ==> '&' !in StripTags(s, inTag)
    decreases |s|
  {
    hide IsBreakTag;
    if s == "" {
    } else {
      StripDropsAngles(s[1..], if inTag then s[0] != '>' else s[0] == '<');
      assert s[0] in s;
    }
  }

  lemma {:induction false} BreaksAddNoEntity(text: string)
    requires '&' !in text
    ensures '&' !in WithBreaks(text)
  {
    if text == "" {
    } else {
      BreaksAddNoEntity(text[1..]);
      assert text[0] in text;
    }
  }

  lemma {:induction false} TagsAddNoEntity(inners: seq<string>)
    requires forall t | t in inners :: IsInner(t)
    ensures '&' !in Tags(inners)
  {
    hide IsBreakTag;
    if inners == [] {
    } else {
      TagsAddNoEntity(inners[1..]);
      assert IsInner(inners[0]);
    }
  }

  /** Trimming on the right stops at the last character that is not white space. */
  lemma {:induction false} TrimKeepsWord(s: string, n: nat)
    requires 0 < n <= |s| && !IsSpace(s[n - 1])
    ensures |TrimRight(s)| >= n && TrimRight(s) <= s
    decreases |s|
  {
    if IsSpace(s[|s| - 1]) {
      TrimKeepsWord(s[..|s| - 1], n);
    }
  }

  lemma EnvelopeIsEnveloped(inner: string, rest: string)
    requires IsHtml(inner)
    ensures Enveloped(Tag(inner) + rest)
  {
    var s := Tag(inner) + rest;
    assert s[0] == '<' && s[1] == inner[0] && s[2] == inner[1] && s[3] == inner[2] && s[4] == inner[3];
    assert TrimLeft(s) == s;
    TrimKeepsWord(s, 5);
    var t := TrimRight(s);
    assert forall k | 0 <= k < 5 :: t[k] == s[k];
  }

  lemma {:induction false} LeftDropsOnly(s: string)
    ensures forall c | c in TrimLeft(s) :: c in s
  {
    if s == "" {
    } else {
      LeftDropsOnly(s[1..]);
    }
  }

  lemma {:induction false} RightDropsOnly(s: string)
    ensures forall c | c in TrimRight(s) :: c in s
    decreases |s|
  {
    if s == "" {
    } else {
      RightDropsOnly(s[..|s| - 1]);
    }
  }

  /** Wrapping a message without entities and reading it back gives the message exactly when it has no
      `<` and no outer white space: otherwise what comes back is not what went in. */
  lemma EnvelopeRoundTrip(open: seq<string>, text: string, close: seq<string>, u: Unescape)
    requires IsEnvelope(open, close) && '&' !in text && LeavesPlainText(u)
    ensures Enveloped(Envelope(open, text, close))
    ensures Flattened(Envelope(open, text, close), u) == text <==> '<' !in text && Trim(text) == text
  {
    hide Enveloped, StripTags, IsInner, IsHtml, Envelope, TrimLeft, TrimRight;
    var s := Envelope(open, text, close);
    EnvelopeIsRead(open, text, close);
    if '<' in text {
      StripDropsAngles(s, false);
      LeftDropsOnly(StripTags(s, false));
      RightDropsOnly(TrimLeft(StripTags(s, false)));
    }
  }

  /** The envelope is seen as one, no entity comes out of it, and text without `<` comes out as it is. */
  lemma EnvelopeIsRead(open: seq<string>, text: string, close: seq<string>)
    requires IsEnvelope(open, close) && '&' !in text
    ensures Enveloped(Envelope(open, text, close))
    ensures '&' !in StripTags(Envelope(open, text, close), false)
    ensures '<' !in text ==> StripTags(Envelope(open, text, close), false) == text
  {
    hide Enveloped, StripTags, IsInner, IsHtml, Tag, WithBreaks;
    var s := Envelope(open, text, close);
    var body := WithBreaks(text) + Tags(close);
    assert s == Tags(open) + body == Tag(open[0]) + (Tags(open[1..]) + body);
    EnvelopeIsEnveloped(open[0], Tags(open[1..]) + body);
    TagsAreSkipped(open, body);
    BreaksAddNoEntity(text);
    TagsAddNoEntity(open);
    TagsAddNoEntity(close);
    StripDropsAngles(s, false);
    if '<' !in text {
      BodyIsRead(text, close);
    }
  }

  const AIM_OPEN: seq<string> := ["HTML", "BODY BGCOLOR=\"#ffffff\"", "FONT LANG=\"0\""]
  const AIM_CLOSE: seq<string> := ["/FONT", "/BODY", "/HTML"]

  /** The envelope measured from AIM 5.1 is one. */
  lemma AimEnvelope()
    ensures IsEnvelope(AIM_OPEN, AIM_CLOSE)
  {
    hide IsInner;
    PlainTag("HTML");
    PlainTag("BODY BGCOLOR=\"#ffffff\"");
    PlainTag("FONT LANG=\"0\"");
    PlainTag("/FONT");
    PlainTag("/BODY");
    PlainTag("/HTML");
  }

  /** So a message without entities survives AIM's own envelope exactly when it has no `<` and no outer
      white space. */
  lemma AimRoundTrip(text: string, u: Unescape)
    requires '&' !in text && LeavesPlainText(u)
    ensures Flattened(Envelope(AIM_OPEN, text, AIM_CLOSE), u) == text <==> '<' !in text && Trim(text) == text
  {
    hide IsEnvelope, Flattened, Envelope, Trim;
    AimEnvelope();
    EnvelopeRoundTrip(AIM_OPEN, text, AIM_CLOSE, u);
  }

  lemma PlainTag(inner: string)
    requires |inner| > 1 && '>' !in inner && '&' !in inner && Upper(inner[1]) != 'R'
    ensures IsInner(inner)
  {
    assert Tag(inner)[2] == inner[1];
  }
}
