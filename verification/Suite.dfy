/** Binding the cases of a suite to one run and one contract, and moving a case's evidence:
    `suite_binding` and `relocated_case` of scripts/check-mixed-fleet.py. */
module Suite {
  import opened Option
  import opened Json

  type Fields = map<string, Json>

  // ---------------------------------------------------------------- relocation

  /** `value` is the root or lies below it. */
  predicate Under(value: string, root: string) { value == root || root + "/" <= value }

  function Swap(value: string, old': string, new': string): string {
    if Under(value, old') then new' + value[|old'|..] else value
  }

  function SwapJson(value: Json, old': string, new': string): Json {
    if value.Str? then Str(Swap(value.text, old', new')) else value
  }

  /** Every session is an object with a worktree. */
  predicate HasWorktrees(sessions: Fields) {
    forall role | role in sessions :: sessions[role].Obj? && "worktree" in sessions[role].fields
  }

  function MoveSession(session: Json, old': string, new': string): Json
    requires session.Obj? && "worktree" in session.fields
  {
    Obj(session.fields["worktree" := SwapJson(session.fields["worktree"], old', new')])
  }

  function MoveSessions(sessions: Fields, old': string, new': string): Fields
    requires HasWorktrees(sessions)
  {
    map role | role in sessions :: MoveSession(sessions[role], old', new')
  }

  predicate IsCase(c: Fields) {
    && "root" in c && c["root"].Str?
    && ("sessions" in c ==> c["sessions"].Obj? && HasWorktrees(c["sessions"].fields))
  }

  /** The case as it points after its evidence is copied from one root to another. */
  function Moved(c: Fields, old': string, new': string): (r: Fields)
    requires IsCase(c)
    ensures r.Keys == c.Keys && IsCase(r)
  {
    map k | k in c :: if k == "sessions" then Obj(MoveSessions(c[k].fields, old', new')) else SwapJson(c[k], old', new')
  }

  /** `relocated_case`, the copy of the files aside: a target that exists, or a malformed case, raises. */
  method RelocatedCase(c: Fields, destination: string, exists': bool) returns (r: Result<Fields>)
    ensures r == if exists' || !IsCase(c) then Err else Ok(Moved(c, c["root"].text, destination))
  {
    hide SwapJson, MoveSession, HasWorktrees;
    if exists' || !IsCase(c) {
      return Err;
    }
    var old', new' := c["root"].text, destination;
    var moved, keys := c, c.Keys;
    while keys != {}
      invariant keys <= c.Keys && moved.Keys == c.Keys
      invariant forall k | k in c :: moved[k] == if k in keys then c[k] else SwapJson(c[k], old', new')
    {
      var k :| k in keys;
      moved := moved[k := SwapJson(moved[k], old', new')];
      keys := keys - {k};
    }
    if "sessions" in c {
      var sessions := RelocatedSessions(c["sessions"].fields, old', new');
      moved := moved["sessions" := Obj(sessions)];
    }
    assert moved == Moved(c, old', new');
    return Ok(moved);
  }

  /** The worktree of every session. */
  method RelocatedSessions(from: Fields, old': string, new': string) returns (sessions: Fields)
    requires HasWorktrees(from)
    ensures sessions == MoveSessions(from, old', new')
  {
    hide SwapJson;
    sessions := from;
    var roles := from.Keys;
    while roles != {}
      invariant roles <= from.Keys && sessions.Keys == from.Keys
      invariant forall role | role in sessions ::
                  sessions[role] == if role in roles then from[role] else MoveSession(from[role], old', new')
    {
      var role :| role in roles;
      sessions := sessions[role := MoveSession(sessions[role], old', new')];
      roles := roles - {role};
    }
    assert sessions == MoveSessions(from, old', new');
  }

  /** A string that only shares the root's spelling stays. */
  lemma SiblingStays(root: string, rest: string, new': string)
    requires rest != "" && rest[0] != '/'
    ensures Swap(root + rest, root, new') == root + rest
  {
    assert (root + rest)[|root|] == rest[0];
    assert (root + "/")[|root|] == '/';
  }

  /** There and back is the identity exactly for what was under the old root, or is not under the new. */
  lemma SwapRoundTrip(value: string, old': string, new': string)
    ensures Swap(Swap(value, old', new'), new', old') == value <==>
            Under(value, old') || !Under(value, new') || old' == new'
  {
    if Under(value, old') {
      var rest := value[|old'|..];
      assert value == old' + rest;
      assert rest == "" || rest[0] == '/' by {
        assert value != old' ==> value[|old'|] == (old' + "/")[|old'|];
      }
      var moved := new' + rest;
      assert rest != "" ==> new' + "/" <= moved;
      assert moved[|new'|..] == rest;
    } else if Under(value, new') {
      var rest := value[|new'|..];
      assert value == new' + rest;
      var back := old' + rest;
      assert |old'| == |new'| ==> back[..|new'|] == old' && value[..|new'|] == new';
    }
  }

  /** A location a checker resolves: a top-level string, or a session's worktree. */
  ghost predicate IsLocation(c: Fields, x: string)
    requires IsCase(c)
  {
    || (exists k | k in c :: c[k] == Str(x))
    || ("sessions" in c && exists role | role in c["sessions"].fields :: c["sessions"].fields[role].fields["worktree"] == Str(x))
  }

  /** Moving a case there and back gives the case exactly when nothing in it already lay under the new
      root without lying under the old one. */
  lemma RelocationRoundTrip(c: Fields, old': string, new': string)
    requires IsCase(c) && old' != new'
    ensures Moved(Moved(c, old', new'), new', old') == c <==>
            forall x | IsLocation(c, x) :: Under(x, old') || !Under(x, new')
  {
    hide Swap, Under;
    var back := Moved(Moved(c, old', new'), new', old');
    if forall x | IsLocation(c, x) :: Under(x, old') || !Under(x, new') {
      forall k | k in c ensures back[k] == c[k] {
        if k == "sessions" {
          SessionsRoundTrip(c, old', new');
        } else if c[k].Str? {
          assert IsLocation(c, c[k].text);
          SwapRoundTrip(c[k].text, old', new');
        }
      }
    }
    if back == c {
      forall x | IsLocation(c, x) ensures Under(x, old') || !Under(x, new') {
        SwapRoundTrip(x, old', new');
        if k :| k in c && c[k] == Str(x) {
          assert back[k] == c[k];
        } else {
          var role :| role in c["sessions"].fields && c["sessions"].fields[role].fields["worktree"] == Str(x);
          assert back["sessions"].fields[role] == c["sessions"].fields[role];
        }
      }
    }
  }

  lemma SessionsRoundTrip(c: Fields, old': string, new': string)
    requires IsCase(c) && old' != new' && "sessions" in c
    requires forall x | IsLocation(c, x) :: Under(x, old') || !Under(x, new')
    ensures Moved(Moved(c, old', new'), new', old')["sessions"] == c["sessions"]
  {
    hide Swap, Under;
    var sessions := c["sessions"].fields;
    var there := MoveSessions(sessions, old', new');
    var back := MoveSessions(there, new', old');
    forall role | role in sessions ensures back[role] == sessions[role] {
      var w := sessions[role].fields["worktree"];
      if w.Str? {
        assert IsLocation(c, w.text);
        SwapRoundTrip(w.text, old', new');
      }
      assert back[role].fields == sessions[role].fields;
    }
    assert back == sessions;
  }

  // -------------------------------------------------------------- suite binding

  /** What the check asks of the file system. */
  datatype Fs = Fs(absolute: string -> bool, resolve: string -> Option<string>)

  const REQUIRED: seq<string> := ["source_manifest_sha256", "buddy_sha256", "adapter_sha256", "fixture_sources"]
  const UNIFORM: seq<string> := ["claude_version", "codex_version", "native_versions", "source_head", "sdk"]

  datatype Contract = Contract(required: seq<Json>, uniform: seq<Option<Json>>, natives: map<string, (Json, Json)>)

  predicate HasNatives(c: Fields) {
    && "sessions" in c && c["sessions"].Obj?
    && forall role | role in c["sessions"].fields ::
         var s := c["sessions"].fields[role];
         s.Obj? && "native_version" in s.fields && "native_sha256" in s.fields
  }

  predicate HasRequired(c: Fields) { forall k | k in REQUIRED :: k in c && Truthy(c[k]) }

  /** One case's contract; none where reading it raises. */
  function ContractOf(c: Fields): Option<Contract> {
    if !HasRequired(c) || !HasNatives(c) then None
    else
      Some(Contract(
             seq(|REQUIRED|, i requires 0 <= i < |REQUIRED| && HasRequired(c) => c[REQUIRED[i]]),
             seq(|UNIFORM|, i requires 0 <= i < |UNIFORM| => if UNIFORM[i] in c then Some(c[UNIFORM[i]]) else None),
             map role | role in c["sessions"].fields ::
               (c["sessions"].fields[role].fields["native_version"], c["sessions"].fields[role].fields["native_sha256"])))
  }

  /** A check that is lazy over its cases ends true, false, or in a raise. */
  datatype Outcome = Yes | No | Raises

  /** One case lives at its own place under the suite's root. */
  function CaseAt(c: Fields, mode: string, top: string, fs: Fs): Outcome {
    if "mode" !in c then Raises
    else if c["mode"] != Str(mode) then No
    else if "root" !in c || !c["root"].Str? then Raises
    else if !fs.absolute(c["root"].text) then No
    else if fs.resolve(c["root"].text).None? then Raises
    else if fs.resolve(c["root"].text) == Some(top + "/" + mode) then Yes else No
  }

  function CasesAt(cases: seq<Fields>, modes: seq<string>, top: string, fs: Fs): Outcome
    requires |cases| == |modes|
  {
    if cases == [] then Yes
    else
      var first := CaseAt(cases[0], modes[0], top, fs);
      if first.Yes? then CasesAt(cases[1..], modes[1..], top, fs) else first
  }

  predicate SameContract(cases: seq<Fields>) {
    && cases != [] && ContractOf(cases[0]).Some? && ContractOf(cases[0]).value.natives.Keys != {}
    && forall c | c in cases :: ContractOf(c) == ContractOf(cases[0])
  }

  datatype Binding = Binding(sameRun: bool, sameContract: bool)

  /** `suite_binding`, on the suite's root and its cases in mode order. A raise while placing the cases
      also leaves the contract unchecked. */
  function SuiteBinding(root: string, cases: seq<Fields>, modes: seq<string>, fs: Fs): Binding
    requires |cases| == |modes|
  {
    var placed :=
      if !fs.absolute(root) then No
      else if fs.resolve(root).None? then Raises
      else CasesAt(cases, modes, fs.resolve(root).value, fs);
    if placed.Raises? then Binding(false, false) else Binding(placed.Yes?, SameContract(cases))
  }

  // ------------------------------------------------------------------ splices

  lemma {:induction false} AllPlaced(cases: seq<Fields>, modes: seq<string>, top: string, fs: Fs)
    requires |cases| == |modes|
    ensures CasesAt(cases, modes, top, fs).Yes? <==> forall i | 0 <= i < |cases| :: CaseAt(cases[i], modes[i], top, fs).Yes?
  {
    if cases == [] {
    } else {
      AllPlaced(cases[1..], modes[1..], top, fs);
      assert forall i | 0 < i < |cases| :: cases[i] == cases[1..][i - 1] && modes[i] == modes[1..][i - 1];
    }
  }

  lemma {:induction false} FirstFailureDecides(cases: seq<Fields>, modes: seq<string>, top: string, fs: Fs, i: nat)
    requires |cases| == |modes| && i < |cases|
    requires forall j | 0 <= j < i :: CaseAt(cases[j], modes[j], top, fs).Yes?
    requires !CaseAt(cases[i], modes[i], top, fs).Yes?
    ensures CasesAt(cases, modes, top, fs) == CaseAt(cases[i], modes[i], top, fs)
    decreases i
  {
    if i == 0 {
    } else {
      assert forall j | 0 <= j < i - 1 :: cases[1..][j] == cases[j + 1] && modes[1..][j] == modes[j + 1];
      FirstFailureDecides(cases[1..], modes[1..], top, fs, i - 1);
    }
  }

  /** Moving a case changes its contract only through a contract field that is itself a path under its root. */
  predicate ContractHoldsNoPath(c: Fields, root: string) {
    forall k | k in REQUIRED + UNIFORM && k in c && c[k].Str? :: !Under(c[k].text, root)
  }

  /** The same contract fields, one that is absent absent in both, and the same natives by role. */
  ghost predicate SameContractFields(c: Fields, m: Fields) {
    && HasNatives(c) && HasNatives(m)
    && (forall k | k in REQUIRED + UNIFORM :: (k in c <==> k in m) && (k in c ==> c[k] == m[k]))
    && c["sessions"].fields.Keys == m["sessions"].fields.Keys
    && forall role | role in c["sessions"].fields :: SameNative(c["sessions"].fields[role].fields, m["sessions"].fields[role].fields)
  }

  predicate SameNative(s: Fields, u: Fields) {
    Get(s, "native_version") == Get(u, "native_version") && Get(s, "native_sha256") == Get(u, "native_sha256")
  }

  /** A contract is its fields and natives: two cases have one contract exactly when they agree on those. */
  lemma ContractIsItsFields(c: Fields, m: Fields)
    requires ContractOf(c).Some?
    ensures ContractOf(m) == ContractOf(c) <==> SameContractFields(c, m)
  {
    hide ContractOf;
    if ContractOf(m) == ContractOf(c) {
      SameContractSameFields(c, m);
      SameContractSameNatives(c, m);
    }
    if SameContractFields(c, m) {
      SameFieldsSameContract(c, m);
    }
  }

  lemma SameContractSameFields(c: Fields, m: Fields)
    requires ContractOf(c).Some? && ContractOf(m) == ContractOf(c)
    ensures forall k | k in REQUIRED + UNIFORM :: (k in c <==> k in m) && (k in c ==> c[k] == m[k])
  {
    forall k | k in REQUIRED + UNIFORM ensures (k in c <==> k in m) && (k in c ==> c[k] == m[k]) {
      if k in REQUIRED {
        var i :| 0 <= i < |REQUIRED| && REQUIRED[i] == k;
        assert ContractOf(m).value.required[i] == m[k] && ContractOf(c).value.required[i] == c[k];
      } else {
        var i :| 0 <= i < |UNIFORM| && UNIFORM[i] == k;
        assert ContractOf(m).value.uniform[i] == if k in m then Some(m[k]) else None;
        assert ContractOf(c).value.uniform[i] == if k in c then Some(c[k]) else None;
      }
    }
  }

  lemma SameContractSameNatives(c: Fields, m: Fields)
    requires ContractOf(c).Some? && ContractOf(m) == ContractOf(c)
    ensures HasNatives(c) && HasNatives(m) && c["sessions"].fields.Keys == m["sessions"].fields.Keys
    ensures forall role | role in c["sessions"].fields ::
              SameNative(c["sessions"].fields[role].fields, m["sessions"].fields[role].fields)
  {
    hide HasRequired;
    var x, y := ContractOf(c).value.natives, ContractOf(m).value.natives;
    assert x.Keys == c["sessions"].fields.Keys && y.Keys == m["sessions"].fields.Keys;
    assert forall role | role in x :: x[role] == y[role];
  }

  lemma SameFieldsSameContract(c: Fields, m: Fields)
    requires ContractOf(c).Some? && SameContractFields(c, m)
    ensures ContractOf(m) == ContractOf(c)
  {
    hide SameNative;
    assert forall k | k in REQUIRED :: k in REQUIRED + UNIFORM;
    assert forall k | k in UNIFORM :: k in REQUIRED + UNIFORM;
    assert HasRequired(m);
    SameNativesSameMap(c, m);
    assert ContractOf(m).value.natives == ContractOf(c).value.natives;
    assert ContractOf(m).value.required == ContractOf(c).value.required;
    assert ContractOf(m).value.uniform == ContractOf(c).value.uniform;
  }

  lemma SameNativesSameMap(c: Fields, m: Fields)
    requires SameContractFields(c, m)
    ensures forall role | role in c["sessions"].fields ::
              && c["sessions"].fields[role].fields["native_version"] == m["sessions"].fields[role].fields["native_version"]
              && c["sessions"].fields[role].fields["native_sha256"] == m["sessions"].fields[role].fields["native_sha256"]
  {}

  lemma MovedKeepsContract(c: Fields, old': string, new': string)
    requires IsCase(c) && ContractOf(c).Some? && old' != new'
    ensures ContractOf(Moved(c, old', new')) == ContractOf(c) <==> ContractHoldsNoPath(c, old')
  {
    hide Under, SameNative;
    var m := Moved(c, old', new');
    SessionsIsNoField();
    forall k | k in REQUIRED + UNIFORM && k in c
      ensures m[k] == c[k] <==> !(c[k].Str? && Under(c[k].text, old'))
    {
      if c[k].Str? {
        SwapMoves(c[k].text, old', new');
      }
    }
    MovedKeepsNatives(c, old', new');
    ContractIsItsFields(c, m);
  }

  lemma SwapMoves(value: string, old': string, new': string)
    requires old' != new'
    ensures Swap(value, old', new') == value <==> !Under(value, old')
  {
    if Under(value, old') {
      var rest := value[|old'|..];
      assert value == old' + rest;
      assert |old'| == |new'| ==> (new' + rest)[..|old'|] == new' && value[..|old'|] == old';
    }
  }

  /** The natives a case names are the same after a move: only worktrees change in its sessions. */
  lemma MovedKeepsNatives(c: Fields, old': string, new': string)
    requires IsCase(c) && HasNatives(c)
    ensures HasNatives(Moved(c, old', new'))
    ensures Moved(c, old', new')["sessions"].fields.Keys == c["sessions"].fields.Keys
    ensures forall role | role in c["sessions"].fields ::
              SameNative(c["sessions"].fields[role].fields, Moved(c, old', new')["sessions"].fields[role].fields)
  {
    hide Swap;
    assert "worktree"[0] == 'w' && "native_version"[0] == 'n' && "native_sha256"[0] == 'n';
  }

  lemma SessionsIsNoField()
    ensures "sessions" !in REQUIRED + UNIFORM
  {
    assert forall k | k in REQUIRED + UNIFORM :: |k| != 8;
  }

  /** In a suite that is one run of one contract, a case moved to a root elsewhere falsifies the run;
      the contract stays true exactly when no contract field of the case is a path under its old root. */
  lemma RelocatedCaseBreaksTheRun(root: string, cases: seq<Fields>, modes: seq<string>, fs: Fs, i: nat, new': string)
    requires |cases| == |modes| >= 2 && i < |cases|
    requires SuiteBinding(root, cases, modes, fs) == Binding(true, true) && IsCase(cases[i])
    requires fs.absolute(new') && fs.resolve(new').Some? && fs.resolve(new') != Some(fs.resolve(root).value + "/" + modes[i])
    requires !Under(modes[i], cases[i]["root"].text)
    ensures SuiteBinding(root, cases[i := Moved(cases[i], cases[i]["root"].text, new')], modes, fs)
            == Binding(false, ContractHoldsNoPath(cases[i], cases[i]["root"].text))
  {
    hide ContractOf, CaseAt, Moved;
    var top, old' := fs.resolve(root).value, cases[i]["root"].text;
    var m := Moved(cases[i], old', new');
    MovedCaseIsElsewhere(root, cases, modes, fs, i, new');
    assert cases[i] in cases;
    MovedKeepsContract(cases[i], old', new');
    SplicedContract(cases, i, m);
  }

  lemma MovedCaseIsElsewhere(root: string, cases: seq<Fields>, modes: seq<string>, fs: Fs, i: nat, new': string)
    requires |cases| == |modes| && i < |cases|
    requires SuiteBinding(root, cases, modes, fs).sameRun && IsCase(cases[i])
    requires fs.absolute(new') && fs.resolve(new').Some? && fs.resolve(new') != Some(fs.resolve(root).value + "/" + modes[i])
    requires !Under(modes[i], cases[i]["root"].text)
    ensures fs.absolute(root) && fs.resolve(root).Some?
    ensures CasesAt(cases[i := Moved(cases[i], cases[i]["root"].text, new')], modes, fs.resolve(root).value, fs) == No
    ensures new' != cases[i]["root"].text
  {
    hide ContractOf, SameContract;
    var top, old' := fs.resolve(root).value, cases[i]["root"].text;
    var m := Moved(cases[i], old', new');
    AllPlaced(cases, modes, top, fs);
    assert CaseAt(cases[i], modes[i], top, fs).Yes?;
    assert m["root"] == Str(new') by {
      assert Under(old', old') && old'[|old'|..] == "";
    }
    assert m["mode"] == Str(modes[i]);
    FirstFailureDecides(cases[i := m], modes, top, fs, i);
  }

  /** Replacing one case of a uniform suite keeps it uniform exactly when the contract is the same. */
  lemma SplicedContract(cases: seq<Fields>, i: nat, m: Fields)
    requires i < |cases| && SameContract(cases)
    ensures ContractOf(m) == ContractOf(cases[i]) ==> SameContract(cases[i := m])
    ensures |cases| >= 2 && ContractOf(m) != ContractOf(cases[i]) ==> !SameContract(cases[i := m])
  {
    hide ContractOf;
    var spliced := cases[i := m];
    assert cases[i] in cases;
    forall c | c in spliced ensures c == m || c in cases {}
    assert spliced[i] == m && m in spliced;
    if |cases| >= 2 {
      var j := if i == 0 then 1 else 0;
      assert cases[j] in cases && spliced[j] == cases[j] && cases[j] in spliced;
    }
  }

  /** In such a suite of two cases or more, a case edited anywhere but in its mode and root falsifies
      nothing but the contract, and that exactly when it differs in a contract field, present or absent, or
      in a session's native. */
  lemma EditedCaseBreaksOnlyTheContract(root: string, cases: seq<Fields>, modes: seq<string>, fs: Fs, i: nat, m: Fields)
    requires |cases| == |modes| >= 2 && i < |cases|
    requires SuiteBinding(root, cases, modes, fs) == Binding(true, true)
    requires SamePlace(cases[i], m)
    ensures SuiteBinding(root, cases[i := m], modes, fs) == Binding(true, SameContractFields(cases[i], m))
  {
    hide ContractOf, CaseAt, SameContractFields;
    EditKeepsPlace(root, cases, modes, fs, i, m);
    assert cases[i] in cases;
    ContractIsItsFields(cases[i], m);
    SplicedContract(cases, i, m);
  }

  ghost predicate SamePlace(c: Fields, m: Fields) {
    forall k | k == "mode" || k == "root" :: (k in c <==> k in m) && (k in c ==> c[k] == m[k])
  }

  lemma EditKeepsPlace(root: string, cases: seq<Fields>, modes: seq<string>, fs: Fs, i: nat, m: Fields)
    requires |cases| == |modes| && i < |cases| && SuiteBinding(root, cases, modes, fs).sameRun && SamePlace(cases[i], m)
    ensures fs.absolute(root) && fs.resolve(root).Some?
    ensures CasesAt(cases[i := m], modes, fs.resolve(root).value, fs).Yes?
  {
    hide SameContract;
    var top := fs.resolve(root).value;
    AllPlaced(cases, modes, top, fs);
    assert CaseAt(m, modes[i], top, fs) == CaseAt(cases[i], modes[i], top, fs);
    AllPlaced(cases[i := m], modes, top, fs);
  }

  /** Another value for a contract field, or a field taken away, is such an edit, and falsifies the contract. */
  lemma FieldEditIsSeen(c: Fields, key: string, value: Json)
    requires HasNatives(c) && key in REQUIRED + UNIFORM
    ensures !(key in c && c[key] == value) ==>
              SamePlace(c, c[key := value]) && !SameContractFields(c, c[key := value])
    ensures key in c ==> SamePlace(c, c - {key}) && !SameContractFields(c, c - {key})
  {
    hide SameNative, HasNatives;
    FieldsAreNoPlace();
  }

  /** So is another native for a session. */
  lemma NativeEditIsSeen(c: Fields, role: string, native: string, value: Json)
    requires HasNatives(c) && role in c["sessions"].fields && native in {"native_version", "native_sha256"}
    requires c["sessions"].fields[role].fields[native] != value
    ensures SamePlace(c, WithNative(c, role, native, value)) && !SameContractFields(c, WithNative(c, role, native, value))
  {
    FieldsAreNoPlace();
    var s := c["sessions"].fields[role].fields;
    assert !SameNative(s, s[native := value]);
    assert WithNative(c, role, native, value)["sessions"].fields[role].fields == s[native := value];
  }

  /** The case with another native in one session. */
  function WithNative(c: Fields, role: string, native: string, value: Json): Fields
    requires HasNatives(c) && role in c["sessions"].fields
  {
    var sessions := c["sessions"].fields;
    c["sessions" := Obj(sessions[role := Obj(sessions[role].fields[native := value])])]
  }

  lemma FieldsAreNoPlace()
    ensures forall k | k in REQUIRED + UNIFORM :: k != "mode" && k != "root"
    ensures "sessions" != "mode" && "sessions" != "root"
  {
    assert forall k | k in REQUIRED + UNIFORM :: |k| != 4;
    assert |"sessions"| == 8 && |"mode"| == 4 && |"root"| == 4;
  }

  /** In such a suite, another value for a contract field of one case, a field of it taken away, and another
      native for one of its sessions are each refused, by the contract alone. */
  lemma ContractEditsAreRefused(root: string, cases: seq<Fields>, modes: seq<string>, fs: Fs, i: nat,
                                key: string, role: string, native: string, value: Json)
    requires |cases| == |modes| >= 2 && i < |cases| && SuiteBinding(root, cases, modes, fs) == Binding(true, true)
    requires key in REQUIRED + UNIFORM && native in {"native_version", "native_sha256"}
    ensures !(key in cases[i] && cases[i][key] == value) ==>
              SuiteBinding(root, cases[i := cases[i][key := value]], modes, fs) == Binding(true, false)
    ensures key in cases[i] ==> SuiteBinding(root, cases[i := cases[i] - {key}], modes, fs) == Binding(true, false)
    ensures HasNatives(cases[i])
    ensures role in cases[i]["sessions"].fields && cases[i]["sessions"].fields[role].fields[native] != value ==>
              SuiteBinding(root, cases[i := WithNative(cases[i], role, native, value)], modes, fs) == Binding(true, false)
  {
    hide SamePlace, SameContractFields, HasNatives, WithNative, SuiteBinding;
    var c := cases[i];
    BoundCaseHasNatives(root, cases, modes, fs, i);
    FieldEditIsSeen(c, key, value);
    if !(key in c && c[key] == value) {
      EditedCaseBreaksOnlyTheContract(root, cases, modes, fs, i, c[key := value]);
    }
    if key in c {
      EditedCaseBreaksOnlyTheContract(root, cases, modes, fs, i, c - {key});
    }
    if role in c["sessions"].fields && c["sessions"].fields[role].fields[native] != value {
      NativeEditIsSeen(c, role, native, value);
      EditedCaseBreaksOnlyTheContract(root, cases, modes, fs, i, WithNative(c, role, native, value));
    }
  }

  lemma BoundCaseHasNatives(root: string, cases: seq<Fields>, modes: seq<string>, fs: Fs, i: nat)
    requires |cases| == |modes| && i < |cases| && SuiteBinding(root, cases, modes, fs) == Binding(true, true)
    ensures HasNatives(cases[i]) && cases[i]["sessions"].Obj?
    ensures forall role | role in cases[i]["sessions"].fields :: HasNative(cases[i]["sessions"].fields[role])
  {
    assert cases[i] in cases;
  }

  predicate HasNative(s: Json) { s.Obj? && "native_version" in s.fields && "native_sha256" in s.fields }

  /** The suite's receipt naming a root where its cases do not live falsifies the run and nothing else. */
  lemma AnotherRootBreaksOnlyTheRun(root: string, cases: seq<Fields>, modes: seq<string>, fs: Fs, other: string)
    requires |cases| == |modes| && SuiteBinding(root, cases, modes, fs) == Binding(true, true)
    requires fs.absolute(other) && fs.resolve(other).Some? && fs.resolve(other) != fs.resolve(root)
    ensures SuiteBinding(other, cases, modes, fs) == Binding(false, true)
  {
    hide ContractOf;
    var top, there := fs.resolve(root).value, fs.resolve(other).value;
    AllPlaced(cases, modes, top, fs);
    assert CaseAt(cases[0], modes[0], top, fs).Yes?;
    PlacesDiffer(top, there, modes[0]);
  }

  lemma PlacesDiffer(a: string, b: string, mode: string)
    requires a != b
    ensures a + "/" + mode != b + "/" + mode
  {
    if |a| == |b| {
      assert (a + "/" + mode)[..|a|] == a && (b + "/" + mode)[..|b|] == b;
    } else {
      assert |a + "/" + mode| != |b + "/" + mode|;
    }
  }
}
