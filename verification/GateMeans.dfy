/** What a settings file's gate hooks must say, character by character. */
module GateMeans {
  import opened Json
  import opened Text
  import opened GateHook

  // ------------------------------------------------------------------- matchers

  predicate Separates(c: char) { c == '|' || c == ',' }

  /** What a list of names may be written with. */
  predicate InLists(c: char) {
    'A' <= c <= 'Z' || 'a' <= c <= 'z' || '0' <= c <= '9' || c in {'_', '-', ' ', ',', '|'}
  }

  ghost predicate Written(m: string) { m != "" && forall i | 0 <= i < |m| :: InLists(m[i]) }

  ghost predicate NoneSeparates(s: string) { forall i | 0 <= i < |s| :: !Separates(s[i]) }

  /** `p` is what stands in `s` between two separators, or an end, from `a` to `d`. */
  ghost predicate PieceAt(p: string, s: string, a: nat, d: nat) {
    && a <= d <= |s| && s[a..d] == p && NoneSeparates(p)
    && (a == 0 || Separates(s[a - 1])) && (d == |s| || Separates(s[d]))
  }

  ghost predicate IsPiece(p: string, s: string) { exists a: nat, d: nat :: PieceAt(p, s, a, d) }

  /** How much of the list comes before its first separator. */
  function First(s: string): (h: nat)
    ensures h <= |s| && (forall i | 0 <= i < h :: !Separates(s[i])) && (h < |s| ==> Separates(s[h]))
  {
    if s == "" || Separates(s[0]) then 0 else 1 + First(s[1..])
  }

  lemma {:induction false} UnseparatedIsOne(s: string)
    requires NoneSeparates(s)
    ensures SplitBy(s, IsBar) == [s]
  {
    if s != "" {
      assert !Separates(s[0]);
      assert forall i | 0 <= i < |s[1..]| :: s[1..][i] == s[i + 1];
      UnseparatedIsOne(s[1..]);
      assert s == [s[0]] + s[1..];
    }
  }

  /** The pieces of a list are what stands between its separators. */
  lemma {:induction false} SplitIsPieces(p: string, s: string)
    ensures p in SplitBy(s, IsBar) <==> IsPiece(p, s)
    decreases |s|
  {
    hide Separates, SplitBy, IsPiece;
    var h := First(s);
    FirstPiece(p, s);
    if h == |s| {
      UnseparatedIsOne(s);
      assert s[..h] == s;
    } else {
      var a, b := s[..h], s[h + 1..];
      SeparatorIsBar(s[h]);
      SplitOfJoin(a, s[h], b, IsBar);
      assert s == a + [s[h]] + b;
      UnseparatedIsOne(a);
      SplitIsPieces(p, b);
    }
  }

  lemma SeparatorIsBar(c: char)
    ensures IsBar(c) <==> Separates(c)
  {}

  lemma FirstPiece(p: string, s: string)
    ensures var h := First(s);
            IsPiece(p, s) <==> p == s[..h] || (h < |s| && IsPiece(p, s[h + 1..]))
  {
    hide Separates, First, PieceAt;
    var h := First(s);
    FirstIsPiece(s);
    if p == s[..h] {
      assert PieceAt(p, s, 0, h);
    }
    if h < |s| && IsPiece(p, s[h + 1..]) {
      LaterIsPiece(p, s, h);
    }
    if IsPiece(p, s) {
      var a: nat, d: nat :| PieceAt(p, s, a, d);
      PieceIsFirstOrLater(p, s, a, d);
    }
  }

  lemma FirstIsPiece(s: string)
    ensures PieceAt(s[..First(s)], s, 0, First(s))
  {
    hide Separates, First;
  }

  lemma LaterIsPiece(p: string, s: string, h: nat)
    requires h < |s| && Separates(s[h]) && IsPiece(p, s[h + 1..])
    ensures IsPiece(p, s)
  {
    hide Separates;
    var a: nat, d: nat :| PieceAt(p, s[h + 1..], a, d);
    assert s[h + 1..][a..d] == s[h + 1 + a..h + 1 + d];
    assert a > 0 ==> s[h + 1..][a - 1] == s[h + a];
    assert d < |s[h + 1..]| ==> s[h + 1..][d] == s[h + 1 + d];
    assert PieceAt(p, s, h + 1 + a, h + 1 + d);
  }

  lemma PieceIsFirstOrLater(p: string, s: string, a: nat, d: nat)
    requires PieceAt(p, s, a, d)
    ensures var h := First(s); p == s[..h] || (h < |s| && IsPiece(p, s[h + 1..]))
  {
    hide Separates, First, PieceAt, IsPiece;
    if a <= First(s) {
      EarlyPieceIsFirst(p, s, a, d);
    } else {
      LatePieceIsLater(p, s, a, d);
    }
  }

  lemma EarlyPieceIsFirst(p: string, s: string, a: nat, d: nat)
    requires PieceAt(p, s, a, d) && a <= First(s)
    ensures p == s[..First(s)]
  {
    hide Separates;
    var h := First(s);
    assert forall i | a <= i < d :: s[i] == p[i - a];
    assert a == 0 && d == h;
  }

  lemma LatePieceIsLater(p: string, s: string, a: nat, d: nat)
    requires PieceAt(p, s, a, d) && a > First(s)
    ensures First(s) < |s| && IsPiece(p, s[First(s) + 1..])
  {
    hide First, PieceAt;
    PieceIsWithin(p, s, a, d);
    PieceMoves(p, s, First(s) + 1, a, d);
  }

  lemma PieceIsWithin(p: string, s: string, a: nat, d: nat)
    requires PieceAt(p, s, a, d)
    ensures a <= d <= |s|
  {
    hide Separates;
  }

  /** A piece from `k` on is one of what is left there. */
  lemma PieceMoves(p: string, s: string, k: nat, a: nat, d: nat)
    requires PieceAt(p, s, a, d) && k <= a && k <= |s|
    ensures PieceAt(p, s[k..], a - k, d - k)
  {
    hide Separates, NoneSeparates;
    SliceOfRest(s, k, a, d);
    assert a > k ==> s[k..][a - k - 1] == s[a - 1];
    assert d < |s| ==> s[k..][d - k] == s[d];
  }

  lemma SliceOfRest(s: string, k: nat, a: nat, d: nat)
    requires k <= a <= d <= |s|
    ensures s[k..][a - k..d - k] == s[a..d]
  {}

  // --------------------------------------------------------------------- names

  ghost predicate Spaces(s: string) { forall i | 0 <= i < |s| :: s[i] == ' ' }

  /** The name stands in the piece with spaces alone around it. */
  ghost predicate Pads(name: string, p: string) {
    exists x: string, y: string :: p == x + name + y && Spaces(x) && Spaces(y)
  }

  /** A name as a matcher can hold one: not empty, no separator in it and no space at either end. */
  ghost predicate IsName(name: string) { name != "" && NoneSeparates(name) && name[0] != ' ' && name[|name| - 1] != ' ' }

  lemma {:induction false} LeftSpacesGo(s: string) returns (x: string)
    ensures Spaces(x) && s == x + StripLeft(s)
    ensures StripLeft(s) != "" ==> StripLeft(s)[0] != ' '
  {
    if s != "" && s[0] == ' ' {
      x := LeftSpacesGo(s[1..]);
      x := [' '] + x;
      assert s == [s[0]] + s[1..];
    } else {
      x := "";
      assert s == "" + s;
    }
  }

  lemma {:induction false} RightSpacesGo(s: string) returns (y: string)
    ensures Spaces(y) && s == StripRight(s) + y
    ensures StripRight(s) != "" ==> StripRight(s)[|StripRight(s)| - 1] != ' '
    decreases |s|
  {
    if s != "" && s[|s| - 1] == ' ' {
      y := RightSpacesGo(s[..|s| - 1]);
      y := y + [' '];
      assert s == s[..|s| - 1] + [' '];
    } else {
      y := "";
      assert s == s + "";
    }
  }

  lemma {:induction false} LeftPadGoes(x: string, rest: string)
    requires Spaces(x) && rest != "" && rest[0] != ' '
    ensures StripLeft(x + rest) == rest
  {
    if x == "" {
      assert x + rest == rest;
    } else {
      assert (x + rest)[1..] == x[1..] + rest;
      LeftPadGoes(x[1..], rest);
    }
  }

  lemma {:induction false} RightPadGoes(rest: string, y: string)
    requires Spaces(y) && rest != "" && rest[|rest| - 1] != ' '
    ensures StripRight(rest + y) == rest
    decreases |y|
  {
    if y == "" {
      assert rest + y == rest;
    } else {
      assert (rest + y)[..|rest + y| - 1] == rest + y[..|y| - 1];
      RightPadGoes(rest, y[..|y| - 1]);
    }
  }

  lemma StripMeans(name: string, p: string)
    requires IsName(name)
    ensures Strip(p) == name <==> Pads(name, p)
  {
    hide StripLeft, StripRight, NoneSeparates;
    if Strip(p) == name {
      var x := LeftSpacesGo(p);
      var y := RightSpacesGo(StripLeft(p));
      assert p == x + name + y;
    }
    if Pads(name, p) {
      var x: string, y: string :| p == x + name + y && Spaces(x) && Spaces(y);
      assert p == x + (name + y);
      LeftPadGoes(x, name + y);
      RightPadGoes(name, y);
    }
  }

  /** The list names this: between two separators, or an end, it stands with spaces alone around it. */
  ghost predicate Lists(list: string, name: string) { exists p :: IsPiece(p, list) && Pads(name, p) }

  lemma NamedMeans(list: string, name: string)
    requires IsName(name)
    ensures name in Named(list) <==> Lists(list, name)
  {
    hide IsPiece, Pads, IsName, SplitBy, Strip;
    forall p ensures p in SplitBy(list, IsBar) <==> IsPiece(p, list) {
      SplitIsPieces(p, list);
    }
    forall p ensures Strip(p) == name <==> Pads(name, p) {
      StripMeans(name, p);
    }
  }

  /** No matcher, an empty one or a star. */
  ghost predicate MatchesAll(m: Json) { m.Null? || (m.Str? && (m.text == "" || m.text == "*")) }

  /** What a matcher says: everything, exactly the names a list of them holds, or nothing that can be read. */
  lemma MatcherMeans(m: Json)
    ensures MatcherNames(m).Every? <==> MatchesAll(m)
    ensures MatcherNames(m).Exactly? <==> !MatchesAll(m) && m.Str? && Written(m.text)
    ensures MatcherNames(m).Exactly? ==> forall name | IsName(name) :: name in MatcherNames(m).names <==> Lists(m.text, name)
  {
    hide Named, Lists, IsName, IsListChar, InLists;
    if m.Str? {
      WrittenIsList(m.text);
      StarAndEmpty();
      forall name | IsName(name) ensures name in Named(m.text) <==> Lists(m.text, name) {
        NamedMeans(m.text, name);
      }
    }
  }

  lemma StarAndEmpty()
    ensures |"*"| == 1 && "*"[0] == '*' && |""| == 0
  {}

  lemma WrittenIsList(s: string)
    ensures Written(s) <==> IsList(s)
  {
    hide IsListChar, InLists;
    forall c ensures IsListChar(c) <==> InLists(c) {
      CharsAgree(c);
    }
    assert forall i | 0 <= i < |s| :: s[i] in s;
  }

  lemma CharsAgree(c: char)
    ensures IsListChar(c) <==> InLists(c)
  {}

  /** The matcher selects the tool: it selects all, or is a list that names it. */
  ghost predicate SelectsTool(m: Json, tool: string) { MatchesAll(m) || (m.Str? && Written(m.text) && Lists(m.text, tool)) }

  lemma SelectsMeans(m: Json, tool: string)
    requires IsName(tool)
    ensures Selects(m, tool) <==> SelectsTool(m, tool)
    ensures MatcherNames(m).Unreadable? <==> !(MatchesAll(m) || (m.Str? && Written(m.text)))
  {
    hide MatcherNames, MatchesAll, Written, Lists, IsName;
    MatcherMeans(m);
  }

  /** The tools the gate is for. */
  predicate IsGated(tool: string) { tool == "Edit" || tool == "Write" || tool == "NotebookEdit" || tool == "Bash" }

  lemma NeededAreNames()
    ensures forall tool :: tool in NEEDED <==> IsGated(tool)
    ensures forall tool | tool in NEEDED :: IsName(tool)
  {
    assert IsName("Edit") && IsName("Write") && IsName("NotebookEdit") && IsName("Bash");
  }

  // ---------------------------------------------------------------------- files

  /** README's command, run as a shell command that blocks on failure within ten minutes, on every call. */
  ghost predicate RunsReadmes(h: Hook, readme: Readme) {
    && Get(h, "command") == Str(readme.command) && Get(h, "type") == Str("command") && Get(h, "onFailure") == Str("block")
    && Get(h, "timeout").Num? && 1.0 <= Get(h, "timeout").number <= 600.0
    && Get(h, "async") != Bool(true) && Get(h, "asyncRewake") != Bool(true)
    && "if" !in h && "args" !in h && "shell" !in h
  }

  ghost predicate IsOld(g: Gate, readme: Readme) { Get(g.1, "command") == Str(readme.legacy) }

  /** A settings file is clean exactly when hooks are on, every gate hook but the old one runs README's command
      under a matcher that is read, and each of the four tools is selected for one of them. */
  lemma CleanFileMeans(gates: seq<Gate>, readme: Readme, disabled: bool)
    ensures Covered(Others(gates, readme), disabled) <==>
            && !disabled
            && (forall g | g in gates && !IsOld(g, readme) ::
                  RunsReadmes(g.1, readme) && (MatchesAll(g.0) || (g.0.Str? && Written(g.0.text))))
            && (forall tool | IsGated(tool) ::
                  exists g :: g in gates && !IsOld(g, readme) && SelectsTool(g.0, tool))
  {
    hide Covered, Others, IsReadmeHook, RunsReadmes, MatcherNames, MatchesAll, Written, SelectsTool, Selects, NEEDED, IsName, IsGated;
    CleanSetIsReadmes(gates, readme, disabled);
    NeededAreNames();
    forall g: Gate
      ensures IsLegacy(g.1, readme) <==> IsOld(g, readme)
      ensures IsReadmeHook(g.1, readme) <==> RunsReadmes(g.1, readme)
    {
      HookMeans(g, readme);
    }
    forall g: Gate
      ensures MatcherNames(g.0).Unreadable? <==> !(MatchesAll(g.0) || (g.0.Str? && Written(g.0.text)))
      ensures forall tool | tool in NEEDED :: Selects(g.0, tool) <==> SelectsTool(g.0, tool)
    {
      SomeToolIsNeeded();
      forall tool | tool in NEEDED
        ensures Selects(g.0, tool) <==> SelectsTool(g.0, tool)
        ensures MatcherNames(g.0).Unreadable? <==> !(MatchesAll(g.0) || (g.0.Str? && Written(g.0.text)))
      {
        SelectsMeans(g.0, tool);
      }
    }
  }

  lemma SomeToolIsNeeded()
    ensures exists tool :: tool in NEEDED
  {
    assert NEEDED[0] in NEEDED;
  }

  lemma HookMeans(g: Gate, readme: Readme)
    ensures IsLegacy(g.1, readme) <==> IsOld(g, readme)
    ensures IsReadmeHook(g.1, readme) <==> RunsReadmes(g.1, readme)
  {}
}
