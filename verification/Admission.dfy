/** Which runs are admissible evidence for a build: the tables and the rule of scripts/admission_lib.py. */
module Admission {
  import opened Option
  import opened Json
  import opened Text
  import opened CandidateScan

  const CLAUDE: string := "claude"
  const CODEX: string := "codex"

  predicate IsHarness(h: string) { h == CLAUDE || h == CODEX }

  // ------------------------------------------------------------------ versions

  predicate IsDot(c: char) { c == '.' }

  predicate IsColon(c: char) { c == ':' }

  /** `version_key` returns: dotted decimal numbers. */
  predicate IsVersion(v: string) {
    forall part | part in SplitBy(v, IsDot) :: part != "" && AllDigits(part)
  }

  const CLAUDE_SUFFIX: string := " (Claude Code)"
  const CODEX_PREFIX: string := "codex-cli "

  /** The version in an exact `--version` line. */
  function ParseVersion(h: string, text: string): Result<string> {
    var v :=
      if h == CLAUDE && |text| >= |CLAUDE_SUFFIX| && text[|text| - |CLAUDE_SUFFIX|..] == CLAUDE_SUFFIX
      then Some(text[..|text| - |CLAUDE_SUFFIX|])
      else if h == CODEX && CODEX_PREFIX <= text then Some(text[|CODEX_PREFIX|..])
      else None;
    if v.Some? && IsVersion(v.value) then Ok(v.value) else Err
  }

  // -------------------------------------------------------------------- tables

  datatype Bound = Bound(harness: string, version: string, versionOutput: string, artifact: string, sha: string)

  /** What binding reads: the resolved path if it resolves, the file's kind, its bytes before and after, and its version line. */
  datatype Native = Native(resolved: Option<string>, regular: bool, digest: string, versionLine: string, digestAfter: string)

  datatype Tables = Tables(candidates: map<string, Bound>, expected: map<string, (string, string)>)

  /** The binding a native gives a harness, or a raise. */
  function BindingFor(h: string, native: Native): Result<Bound> {
    if !IsHarness(h) || native.resolved.None? || !native.regular then Err
    else
      var v := ParseVersion(h, native.versionLine);
      if v.Err? || native.digest != native.digestAfter then Err
      else Ok(Bound(h, v.value, native.versionLine, native.resolved.value, native.digest))
  }

  /** `bind` on the module's tables. */
  function Bind(t: Tables, h: string, native: Native): (Tables, Result<Bound>) {
    var b := BindingFor(h, native);
    if b.Err? || (h in t.candidates && t.candidates[h] != b.value) then (t, Err)
    else (Tables(t.candidates[h := b.value], t.expected[h := (b.value.version, b.value.sha)]), b)
  }

  predicate IsHex(s: string) { forall c | c in s :: IsDigit(c) || 'a' <= c <= 'f' }

  /** One `--candidate` argument: harness, version and digest. */
  function ParseExpected(value: string): Option<(string, (string, string))> {
    var parts := SplitBy(value, IsColon);
    if |parts| == 3 && IsHarness(parts[0]) && |parts[2]| == 64 && IsHex(parts[2]) && IsVersion(parts[1])
    then Some((parts[0], (parts[1], parts[2])))
    else None
  }

  /** The table `--candidate` arguments build, left to right; none once one raises. */
  function ExpectedOf(values: seq<string>): Option<map<string, (string, string)>> {
    if values == [] then Some(map[])
    else
      var last := |values| - 1;
      var before := ExpectedOf(values[..last]);
      var one := ParseExpected(values[last]);
      if before.None? || one.None? || one.value.0 in before.value then None
      else Some(before.value[one.value.0 := one.value.1])
  }

  /** The two module tables, written in place. */
  class AdmissionTables {
    var candidates: map<string, Bound>
    var expected: map<string, (string, string)>

    constructor ()
      ensures View() == Tables(map[], map[])
    {
      candidates, expected := map[], map[];
    }

    function View(): Tables
      reads this
    {
      Tables(candidates, expected)
    }

    /** A refusal leaves both tables as they were; a binding sets both. */
    method BindNative(h: string, native: Native) returns (r: Result<Bound>)
      modifies this
      ensures (View(), r) == Bind(old(View()), h, native)
    {
      if !IsHarness(h) || native.resolved.None? || !native.regular {
        return Err;
      }
      var v := ParseVersion(h, native.versionLine);
      if v.Err? || native.digest != native.digestAfter {
        return Err;
      }
      var binding := Bound(h, v.value, native.versionLine, native.resolved.value, native.digest);
      if h in candidates && candidates[h] != binding {
        return Err;
      }
      candidates := candidates[h := binding];
      expected := expected[h := (binding.version, binding.sha)];
      return Ok(binding);
    }

    /** `expect`: the table is cleared first, so a raise leaves only the arguments before it. */
    method Expect(values: seq<string>) returns (ok: bool)
      modifies this`expected
      ensures ok <==> ExpectedOf(values).Some?
      ensures ok ==> expected == ExpectedOf(values).value
      ensures !ok ==> exists k | 0 <= k < |values| ::
                ExpectedOf(values[..k]) == Some(expected) && ExpectedOf(values[..k + 1]).None?
    {
      expected := map[];
      for i := 0 to |values|
        invariant ExpectedOf(values[..i]) == Some(expected)
      {
        assert values[..i + 1][..i] == values[..i];
        var one := ParseExpected(values[i]);
        if one.None? || one.value.0 in expected {
          NoneStays(values, i + 1);
          return false;
        }
        expected := expected[one.value.0 := one.value.1];
      }
      assert values[..|values|] == values;
      return true;
    }
  }

  lemma {:induction false} NoneStays(values: seq<string>, k: nat)
    requires k <= |values| && ExpectedOf(values[..k]).None?
    ensures ExpectedOf(values).None?
    decreases |values| - k
  {
    if k == |values| {
      assert values[..k] == values;
    } else {
      assert values[..k + 1][..k] == values[..k];
      NoneStays(values, k + 1);
    }
  }

  /** Each argument is read, names its own harness, and the table is exactly what they say. */
  ghost predicate Says(values: seq<string>, table: map<string, (string, string)>) {
    && (forall i | 0 <= i < |values| :: ParseExpected(values[i]).Some?)
    && (forall i, j | 0 <= i < j < |values| :: ParseExpected(values[i]).value.0 != ParseExpected(values[j]).value.0)
    && (forall h, e :: (h in table && table[h] == e) <==>
          exists i | 0 <= i < |values| :: ParseExpected(values[i]) == Some((h, e)))
  }

  /** The arguments accepted name each harness once, and the table is exactly what they say. */
  lemma {:induction false} ExpectedSaysWhatItIsTold(values: seq<string>)
    requires ExpectedOf(values).Some?
    ensures Says(values, ExpectedOf(values).value)
  {
    hide ParseExpected, Says;
    if values == [] {
      NothingSaid();
    } else {
      var last := |values| - 1;
      ExpectedSaysWhatItIsTold(values[..last]);
      assert values == values[..last] + [values[last]];
      SaysOneMore(values[..last], ExpectedOf(values[..last]).value, values[last], ParseExpected(values[last]).value);
    }
  }

  lemma NothingSaid()
    ensures Says([], map[])
  {}

  lemma SaysOneMore(values: seq<string>, table: map<string, (string, string)>, value: string, one: (string, (string, string)))
    requires Says(values, table) && ParseExpected(value) == Some(one) && one.0 !in table
    ensures Says(values + [value], table[one.0 := one.1])
  {
    hide ParseExpected;
    var more := values + [value];
    assert forall i | 0 <= i < |values| :: more[i] == values[i];
    forall i | 0 <= i < |values| ensures ParseExpected(values[i]).value.0 in table {
      var two := ParseExpected(values[i]).value;
      assert ParseExpected(values[i]) == Some((two.0, two.1));
    }
    forall h, e
      ensures (h in table[one.0 := one.1] && table[one.0 := one.1][h] == e) <==>
              exists i | 0 <= i < |more| :: ParseExpected(more[i]) == Some((h, e))
    {
      if (h, e) == one {
        assert ParseExpected(more[|values|]) == Some((h, e));
      } else if h in table && table[h] == e {
        var i :| 0 <= i < |values| && ParseExpected(values[i]) == Some((h, e));
        assert ParseExpected(more[i]) == Some((h, e));
      }
    }
  }

  // ------------------------------------------------------------------ the rule

  /** Every control receipt's digest belongs to some binding. */
  predicate Explained(strays: set<string>, bindings: set<Binding>) {
    forall s | s in strays :: exists b | b in bindings :: b.sha == Str(s)
  }

  function OwnBindings(h: string, bindings: set<Binding>): set<Binding> {
    set b | b in bindings && b.harness == Str(h)
  }

  /** Version to digests, of one harness's committed records. */
  type Records = map<string, set<string>>

  predicate Recorded(records: Records, version: string, sha: string) {
    version in records && sha in records[version]
  }

  /** `admits`, over what `scan` found. */
  predicate Admits(h: string, version: string, bindings: set<Binding>, strays: set<string>, native: Option<string>,
                   expected: map<string, (string, string)>, records: Records) {
    if !Explained(strays, bindings) then false
    else
      var mine := OwnBindings(h, bindings);
      if |mine| > 1 then false
      else if mine != {} then
        OneOf(mine);
        var b :| b in mine;
        && b.version == Str(version) && b.sha.Str? && b.sha.text in strays
        && (native.None? || native == Some(b.sha.text))
        && (if h in expected then expected[h] == (version, b.sha.text) else Recorded(records, version, b.sha.text))
      else if native.Some? then
        if h in expected then expected[h] == (version, native.value) else Recorded(records, version, native.value)
      else h !in expected && version in records
  }

  /** A set of at most one element has one choice. */
  lemma OneOf<T>(s: set<T>)
    requires |s| <= 1
    ensures forall x, y | x in s && y in s :: x == y
  {
    forall x, y | x in s && y in s ensures x == y {
      if x != y {
        assert {x, y} <= s;
        SubsetSize({x, y}, s);
      }
    }
  }

  lemma SubsetSize<T>(a: set<T>, b: set<T>)
    requires a <= b
    ensures |a| <= |b|
  {
    assert b == a + (b - a);
  }

  /** The binding this process made, as a run of it is recorded. */
  function BoundBinding(b: Bound): Binding { Binding(Str(b.harness), Str(b.version), Str(b.sha)) }

  /** After a successful bind, admission of that harness is settled by the bound bytes alone, records
      or not: a run whose only binding for it is this one, carried by a control receipt and by the bytes
      that ran if they are known; or a run with no binding for it whose bytes are known to be these. In
      either case every other control receipt is explained. */
  lemma AdmitsExactlyTheBound(t: Tables, h: string, native: Native, version: string, bindings: set<Binding>,
                              strays: set<string>, ran: Option<string>, records: Records)
    requires Bind(t, h, native).1.Ok?
    ensures var (after, r) := Bind(t, h, native);
            var b := r.value;
            Admits(h, version, bindings, strays, ran, after.expected, records) <==>
            && Explained(strays, bindings) && version == b.version
            && if OwnBindings(h, bindings) == {} then ran == Some(b.sha)
               else OwnBindings(h, bindings) == {BoundBinding(b)} && b.sha in strays && (ran.None? || ran == Some(b.sha))
  {
    hide ParseVersion, Explained;
    var (after, r) := Bind(t, h, native);
    var b := r.value;
    var mine := OwnBindings(h, bindings);
    assert after.expected[h] == (b.version, b.sha) && b.harness == h;
    if |mine| == 1 {
      OneOf(mine);
      var m :| m in mine;
      assert mine == {m};
    } else if mine != {} {
      assert mine != {BoundBinding(b)};
    }
  }

  /** A conflicting bind changes nothing, and binding the same native again changes nothing either. */
  lemma RebindChangesNothing(t: Tables, h: string, native: Native, other: Native)
    requires Bind(t, h, native).1.Ok?
    ensures var after := Bind(t, h, native).0;
            && Bind(after, h, native) == (after, Bind(t, h, native).1)
            && Bind(after, h, other).0 == after
            && (Bind(after, h, other).1.Ok? <==> BindingFor(h, other) == BindingFor(h, native))
  {
    hide ParseVersion;
    var after := Bind(t, h, native).0;
    var b := Bind(t, h, native).1.value;
    assert after.candidates[h := b] == after.candidates;
    assert after.expected[h := (b.version, b.sha)] == after.expected;
  }

  /** From the documents themselves: when this process's build is admitted and the run bound it, some
      open path of some document names exactly that build, some holds its digest as a control receipt, and
      every digest any control receipt holds is that of some binding. */
  lemma AdmittedRunShowsItsBuild(t: Tables, h: string, native: Native, docs: seq<Json>, repr: Repr,
                                 ran: Option<string>, records: Records, version: string)
    requires Bind(t, h, native).1.Ok? && OwnBindings(h, BindingsIn(Found(docs))) != {}
    requires Admits(h, version, BindingsIn(Found(docs)), StraysIn(Found(docs), repr), ran, Bind(t, h, native).0.expected, records)
    ensures var b := Bind(t, h, native).1.value;
            exists d, path, x :: d in docs && CandidateAt(d, path, x) && x.Obj? && Get(x.fields, "harness") == Str(h)
              && Get(x.fields, "version") == Str(b.version) && Get(x.fields, "sha256") == Str(b.sha)
    ensures var b := Bind(t, h, native).1.value;
            exists d, path, x :: d in docs && CandidateAt(d, path, x)
              && (x == Str(b.sha) || (!x.Obj? && !x.Null? && !x.Str? && repr(x) == b.sha))
    ensures forall d, path, s | d in docs && CandidateAt(d, path, Str(s)) ::
              exists e, way, x :: e in docs && CandidateAt(e, way, x) && x.Obj? && Get(x.fields, "sha256") == Str(s)
  {
    hide Admits, CandidateAt, Candidates, Bind;
    AdmitsExactlyTheBound(t, h, native, version, BindingsIn(Found(docs)), StraysIn(Found(docs), repr), ran, records);
    var b := Bind(t, h, native).1.value;
    assert BoundBinding(b) in OwnBindings(h, BindingsIn(Found(docs)));
    var x :| x in Found(docs) && x.Obj? && BindingOf(x.fields) == BoundBinding(b);
    ShowFound(docs, x);
    BindNamesItsHarness(t, h, native);
    var y :| y in Found(docs) && !y.Obj? && !y.Null? && StrayOf(y, repr) == b.sha;
    ShowFound(docs, y);
    forall d, path, s | d in docs && CandidateAt(d, path, Str(s))
      ensures exists e, way, z :: e in docs && CandidateAt(e, way, z) && z.Obj? && Get(z.fields, "sha256") == Str(s)
    {
      CandidatesAreThoseOnOpenPaths(d, Str(s));
      FoundInSome(docs);
      assert Str(s) in Found(docs);
      assert StrayOf(Str(s), repr) in StraysIn(Found(docs), repr);
      var q :| q in BindingsIn(Found(docs)) && q.sha == Str(s);
      var z :| z in Found(docs) && z.Obj? && BindingOf(z.fields) == q;
      ShowFound(docs, z);
    }
  }

  lemma BindNamesItsHarness(t: Tables, h: string, native: Native)
    requires Bind(t, h, native).1.Ok?
    ensures Bind(t, h, native).1.value.harness == h
  {
    hide ParseVersion;
  }

  lemma ShowFound(docs: seq<Json>, x: Json)
    requires x in Found(docs)
    ensures exists d, path :: d in docs && CandidateAt(d, path, x)
  {
    FoundInSome(docs);
    var d :| d in docs && x in Candidates(d);
    CandidatesAreThoseOnOpenPaths(d, x);
  }
}
