/** What the admission tables are told, character by character, and when the committed records decide. */
module AdmissionMeans {
  import opened Option
  import opened Json
  import opened Text
  import opened CandidateScan
  import opened Admission

  // ------------------------------------------------------------------ spelling

  /** Digits and single dots, a digit at either end. */
  ghost predicate Dotted(v: string) {
    && DigitsAndDots(v) && v != "" && v[0] != '.' && v[|v| - 1] != '.'
  }

  ghost predicate DigitsAndDots(v: string) {
    && (forall i | 0 <= i < |v| :: '0' <= v[i] <= '9' || v[i] == '.')
    && (forall i | 0 < i < |v| :: v[i] == '.' ==> v[i - 1] != '.')
  }

  /** Every piece is of digits, and every piece after the first holds some. */
  ghost predicate NumbersAfter(pieces: seq<string>) {
    && (forall k | 0 <= k < |pieces| :: AllDigits(pieces[k]))
    && (forall k | 0 < k < |pieces| :: pieces[k] != "")
  }

  lemma {:induction false} PiecesAreNumbers(v: string)
    ensures NumbersAfter(SplitBy(v, IsDot)) <==> DigitsAndDots(v) && (v != "" ==> v[|v| - 1] != '.')
    ensures SplitBy(v, IsDot)[0] == "" <==> v == "" || v[0] == '.'
    decreases |v|
  {
    hide NumbersAfter, DigitsAndDots;
    if v == "" {
      NothingIsNumbers();
    } else {
      PiecesAreNumbers(v[1..]);
      OneMoreChar(v, SplitBy(v[1..], IsDot));
      OneMoreDigitOrDot(v);
    }
  }

  lemma NothingIsNumbers()
    ensures NumbersAfter([""]) && DigitsAndDots("")
  {}

  lemma OneMoreDigitOrDot(v: string)
    requires v != ""
    ensures var t := v[1..];
            DigitsAndDots(v) <==> ('0' <= v[0] <= '9' || v[0] == '.') && DigitsAndDots(t) && (t != "" && t[0] == '.' ==> v[0] != '.')
  {
    assert forall i | 0 < i < |v| :: v[i] == v[1..][i - 1];
    assert forall i | 0 <= i < |v[1..]| :: v[1..][i] == v[i + 1];
  }

  lemma OneMoreChar(v: string, pieces: seq<string>)
    requires v != "" && |pieces| >= 1
    ensures var r := Push(v[0] == '.', v[0], pieces);
            && (r[0] == "" <==> v[0] == '.')
            && (NumbersAfter(r) <==> if v[0] == '.' then NumbersAfter(pieces) && pieces[0] != "" else '0' <= v[0] <= '9' && NumbersAfter(pieces))
  {
    var r := Push(v[0] == '.', v[0], pieces);
    if v[0] == '.' {
      assert forall k | 0 <= k < |pieces| :: r[k + 1] == pieces[k];
      assert forall k | 0 < k < |r| :: r[k] == pieces[k - 1];
    } else {
      assert r[0] == [v[0]] + pieces[0];
      assert v[0] in r[0] && forall c :: c in r[0] <==> c == v[0] || c in pieces[0];
      assert forall k | 0 < k < |pieces| :: r[k] == pieces[k];
    }
  }

  lemma VersionIsDotted(v: string)
    ensures IsVersion(v) <==> Dotted(v)
  {
    hide SplitBy, AllDigits, DigitsAndDots;
    var pieces := SplitBy(v, IsDot);
    PiecesAreNumbers(v);
    assert forall p :: p in pieces <==> exists k :: 0 <= k < |pieces| && pieces[k] == p;
    assert forall k | 0 <= k < |pieces| :: pieces[k] in pieces;
  }

  /** A version line is read exactly when it is the harness's own: the version, and what Claude appends or
      Codex prefixes, and no more. */
  lemma VersionLineIsExact(h: string, text: string, v: string)
    ensures ParseVersion(h, text) == Ok(v) <==>
            Dotted(v) && ((h == "claude" && text == v + " (Claude Code)") || (h == "codex" && text == "codex-cli " + v))
  {
    hide IsVersion, Dotted;
    VersionIsDotted(v);
    HarnessesDiffer();
    var suffix, prefix := " (Claude Code)", "codex-cli ";
    if text == v + suffix {
      assert text[|text| - |suffix|..] == suffix && text[..|text| - |suffix|] == v;
    }
    if text == prefix + v {
      assert prefix <= text && text[|prefix|..] == v;
    }
    if h == "claude" && |text| >= |suffix| && text[|text| - |suffix|..] == suffix {
      assert text == text[..|text| - |suffix|] + suffix;
    }
    if h == "codex" && prefix <= text {
      assert text == prefix + text[|prefix|..];
    }
  }

  lemma HarnessesDiffer()
    ensures "claude" != "codex"
  {
    assert |"claude"| == 6 && |"codex"| == 5;
  }

  // ------------------------------------------------------------------ arguments

  lemma {:induction false} OnePiece(a: string)
    requires ':' !in a
    ensures SplitBy(a, IsColon) == [a]
  {
    if a != "" {
      OnePiece(a[1..]);
      assert a[0] in a && a == [a[0]] + a[1..];
    }
  }

  lemma ThreePieces(a: string, b: string, c: string)
    requires ':' !in a && ':' !in b && ':' !in c
    ensures SplitBy(a + ":" + b + ":" + c, IsColon) == [a, b, c]
  {
    hide SplitBy;
    SplitOfJoin(a, ':', b + [':'] + c, IsColon);
    SplitOfJoin(b, ':', c, IsColon);
    OnePiece(a);
    OnePiece(b);
    OnePiece(c);
    assert a + ":" + b + ":" + c == a + [':'] + (b + [':'] + c);
  }

  /** The pieces with colons between them. */
  function Joined(pieces: seq<string>): string
    requires |pieces| >= 1
  {
    if |pieces| == 1 then pieces[0] else pieces[0] + ":" + Joined(pieces[1..])
  }

  lemma {:induction false} PiecesJoin(s: string)
    ensures Joined(SplitBy(s, IsColon)) == s && forall p | p in SplitBy(s, IsColon) :: ':' !in p
    decreases |s|
  {
    hide Joined;
    if s == "" {
      assert SplitBy(s, IsColon) == [""];
      OneJoins("");
    } else {
      var pieces := SplitBy(s[1..], IsColon);
      PiecesJoin(s[1..]);
      assert s == [s[0]] + s[1..];
      PushJoins(s[0], pieces);
    }
  }

  lemma OneJoins(p: string)
    ensures Joined([p]) == p
  {}

  lemma PushJoins(c: char, pieces: seq<string>)
    requires |pieces| >= 1 && forall p | p in pieces :: ':' !in p
    ensures var r := Push(c == ':', c, pieces); Joined(r) == [c] + Joined(pieces) && forall p | p in r :: ':' !in p
  {
    if c == ':' {
      assert ([""] + pieces)[1..] == pieces && "" + ":" == ":";
    } else {
      var r := [[c] + pieces[0]] + pieces[1..];
      assert r[1..] == pieces[1..];
      if |pieces| > 1 {
        assert [c] + pieces[0] + ":" + Joined(pieces[1..]) == [c] + (pieces[0] + ":" + Joined(pieces[1..]));
      }
      assert forall p | p in r :: p == [c] + pieces[0] || p in pieces;
    }
  }

  /** 64 lower-case hexadecimal digits. */
  ghost predicate Digest(sha: string) {
    |sha| == 64 && forall i | 0 <= i < |sha| :: '0' <= sha[i] <= '9' || 'a' <= sha[i] <= 'f'
  }

  lemma DigestIsHex(sha: string)
    ensures Digest(sha) <==> |sha| == 64 && IsHex(sha)
    ensures Digest(sha) ==> ':' !in sha
  {
    assert forall i | 0 <= i < |sha| :: sha[i] in sha;
  }

  lemma DottedHasNoColon(v: string)
    requires Dotted(v)
    ensures ':' !in v
  {}

  /** An argument is read exactly when it is a harness, a dotted version and a digest with colons between, in
      that order; and it says just those three. */
  lemma ArgumentIsExact(value: string, h: string, v: string, sha: string)
    ensures ParseExpected(value) == Some((h, (v, sha))) <==>
            value == h + ":" + v + ":" + sha && (h == "claude" || h == "codex") && Dotted(v) && Digest(sha)
  {
    hide SplitBy, IsVersion, IsHex, Dotted, Digest;
    var parts := SplitBy(value, IsColon);
    VersionIsDotted(v);
    DigestIsHex(sha);
    if ParseExpected(value) == Some((h, (v, sha))) {
      PiecesJoin(value);
      assert parts == [h, v, sha];
      JoinedThree(h, v, sha);
    }
    if value == h + ":" + v + ":" + sha && (h == "claude" || h == "codex") && Dotted(v) && Digest(sha) {
      DottedHasNoColon(v);
      NamesHaveNoColon();
      ThreePieces(h, v, sha);
    }
  }

  lemma JoinedThree(a: string, b: string, c: string)
    ensures Joined([a, b, c]) == a + ":" + b + ":" + c
  {
    assert [a, b, c][1..] == [b, c] && [b, c][1..] == [c];
    assert Joined([c]) == c && Joined([b, c]) == b + ":" + c;
    assert a + ":" + (b + ":" + c) == a + ":" + b + ":" + c;
  }

  lemma NamesHaveNoColon()
    ensures ':' !in "claude" && ':' !in "codex"
  {}

  // --------------------------------------------------------------------- binding

  /** A version line of the harness's own that names this version. */
  ghost predicate Declares(h: string, line: string, v: string) {
    Dotted(v) && ((h == "claude" && line == v + " (Claude Code)") || (h == "codex" && line == "codex-cli " + v))
  }

  /** A bind succeeds exactly when the native is a regular file that resolves, declares a version and did not
      change meanwhile, and no other build is bound for its harness; it binds just what was read, and tells
      both tables of that harness and of no other. */
  lemma BindingIsWhatWasRead(t: Tables, h: string, native: Native, b: Bound)
    ensures Bind(t, h, native).1 == Ok(b) <==>
            && b.harness == h && native.resolved == Some(b.artifact) && native.regular
            && b.sha == native.digest == native.digestAfter
            && b.versionOutput == native.versionLine && Declares(h, native.versionLine, b.version)
            && (h in t.candidates ==> t.candidates[h] == b)
    ensures var (after, r) := Bind(t, h, native);
            if r.Err? then after == t
            else
              && after.candidates.Keys == t.candidates.Keys + {h} && after.expected.Keys == t.expected.Keys + {h}
              && after.candidates[h] == r.value && after.expected[h] == (r.value.version, r.value.sha)
              && (forall g | g in t.candidates && g != h :: after.candidates[g] == t.candidates[g])
              && (forall g | g in t.expected && g != h :: after.expected[g] == t.expected[g])
  {
    hide ParseVersion, Dotted;
    VersionLineIsExact(h, native.versionLine, b.version);
  }

  // -------------------------------------------------------------------- the rule

  /** Every control receipt's text is the digest of some binding. */
  ghost predicate Accounted(strays: set<string>, bindings: set<Binding>) {
    forall s | s in strays :: exists b :: b in bindings && b.sha == Str(s)
  }

  /** `b` is the harness's only binding. */
  ghost predicate OnlyBinding(h: string, bindings: set<Binding>, b: Binding) {
    b in bindings && b.harness == Str(h) && forall c | c in bindings && c.harness == Str(h) :: c == b
  }

  ghost predicate NoBinding(h: string, bindings: set<Binding>) { forall b | b in bindings :: b.harness != Str(h) }

  lemma OwnBindingsMean(h: string, bindings: set<Binding>)
    ensures OwnBindings(h, bindings) == {} <==> NoBinding(h, bindings)
    ensures forall b :: OnlyBinding(h, bindings, b) <==> OwnBindings(h, bindings) == {b}
    ensures |OwnBindings(h, bindings)| == 1 <==> exists b :: OwnBindings(h, bindings) == {b}
  {
    var mine := OwnBindings(h, bindings);
    assert forall b :: b in mine <==> b in bindings && b.harness == Str(h);
    if mine == {} {
    } else {
      var m :| m in mine;
      if |mine| == 1 {
        OneOf(mine);
        assert mine == {m};
      }
    }
  }

  lemma TheBinding(h: string, bindings: set<Binding>) returns (m: Binding)
    requires |OwnBindings(h, bindings)| == 1
    ensures OwnBindings(h, bindings) == {m} && forall b :: OnlyBinding(h, bindings, b) <==> b == m
  {
    hide OwnBindings, OnlyBinding;
    OwnBindingsMean(h, bindings);
    m :| OwnBindings(h, bindings) == {m};
    assert forall b :: {b} == {m} <==> b == m by {
      forall b ensures {b} == {m} <==> b == m {
        assert {b} == {m} ==> b in {m};
      }
    }
  }

  lemma ExplainedIsAccounted(strays: set<string>, bindings: set<Binding>)
    ensures Explained(strays, bindings) <==> Accounted(strays, bindings)
  {}

  /** The one binding of a run: of this version, carried by a control receipt and by the bytes that ran if
      they are known. */
  ghost predicate Carries(h: string, version: string, sha: string, bindings: set<Binding>, strays: set<string>, ran: Option<string>) {
    && (exists b :: OnlyBinding(h, bindings, b) && b.version == Str(version) && b.sha == Str(sha))
    && sha in strays && (ran.None? || ran == Some(sha))
  }

  /** A binding by its three parts. */
  lemma BindingIsItsParts(h: string, version: string, sha: string, bindings: set<Binding>)
    ensures (exists b :: OnlyBinding(h, bindings, b) && b.version == Str(version) && b.sha == Str(sha)) <==>
            OnlyBinding(h, bindings, Binding(Str(h), Str(version), Str(sha)))
  {}

  ghost predicate InRecords(records: Records, version: string, sha: string) { version in records && sha in records[version] }

  /** Without an expected build, the committed records decide: a run that bound one build is admitted for that
      build's version exactly when its bytes are recorded for it; one that bound nothing, when the bytes known
      to have run are recorded, or, none being known, when the version is. Nothing else is admitted. */
  lemma RecordsDecide(h: string, version: string, bindings: set<Binding>, strays: set<string>, ran: Option<string>,
                      expected: map<string, (string, string)>, records: Records)
    requires h !in expected
    ensures Admits(h, version, bindings, strays, ran, expected, records) <==>
            Accounted(strays, bindings)
            && ((exists sha :: Carries(h, version, sha, bindings, strays, ran) && InRecords(records, version, sha))
                || (NoBinding(h, bindings) && ran.Some? && InRecords(records, version, ran.value))
                || (NoBinding(h, bindings) && ran.None? && version in records))
  {
    hide OwnBindings, OnlyBinding, NoBinding, Accounted, Explained;
    OwnBindingsMean(h, bindings);
    ExplainedIsAccounted(strays, bindings);
    if |OwnBindings(h, bindings)| == 1 {
      var m := TheBinding(h, bindings);
      assert OnlyBinding(h, bindings, m);
      forall sha ensures Carries(h, version, sha, bindings, strays, ran) <==>
                m.version == Str(version) && m.sha == Str(sha) && sha in strays && (ran.None? || ran == Some(sha))
      {}
    }
  }

  /** With an expected build, whoever expected it, exactly a run of that build is admitted, recorded or not. */
  lemma ExpectedDecides(h: string, version: string, bindings: set<Binding>, strays: set<string>, ran: Option<string>,
                        expected: map<string, (string, string)>, records: Records)
    requires h in expected
    ensures Admits(h, version, bindings, strays, ran, expected, records) <==>
            Accounted(strays, bindings) && version == expected[h].0
            && (Carries(h, version, expected[h].1, bindings, strays, ran)
                || (NoBinding(h, bindings) && ran == Some(expected[h].1)))
  {
    hide OwnBindings, OnlyBinding, NoBinding, Accounted, Explained;
    OwnBindingsMean(h, bindings);
    ExplainedIsAccounted(strays, bindings);
    if |OwnBindings(h, bindings)| == 1 {
      var m := TheBinding(h, bindings);
    }
  }
}
