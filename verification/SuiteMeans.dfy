/** What binds a suite and what moves with a case, told over the cases' own fields. */
module SuiteMeans {
  import opened Option
  import opened Json
  import opened Suite

  // ---------------------------------------------------------------- relocation

  /** Each session is an object that names its worktree, and the case names its root. */
  ghost predicate CanMove(c: Fields) {
    && "root" in c && c["root"].Str?
    && ("sessions" in c ==>
          && c["sessions"].Obj?
          && forall role | role in c["sessions"].fields ::
               c["sessions"].fields[role].Obj? && "worktree" in c["sessions"].fields[role].fields)
  }

  lemma CaseMeans(c: Fields)
    ensures IsCase(c) <==> CanMove(c)
  {}

  /** A location moves with the root it is or lies below; anything else stays. */
  ghost predicate Follows(v: Json, w: Json, old': string, new': string) {
    if v == Str(old') then w == Str(new')
    else if exists rest: string :: v == Str(old' + "/" + rest) then
      forall rest: string | v == Str(old' + "/" + rest) :: w == Str(new' + "/" + rest)
    else w == v
  }

  lemma SwapFollows(v: Json, old': string, new': string)
    ensures Follows(v, SwapJson(v, old', new'), old', new')
  {
    if v.Str? {
      forall rest: string | v == Str(old' + "/" + rest) ensures SwapJson(v, old', new') == Str(new' + "/" + rest) {
        assert old' + "/" <= v.text && v.text[|old'|..] == "/" + rest;
        assert new' + ("/" + rest) == new' + "/" + rest;
      }
      if old' + "/" <= v.text {
        assert v == Str(old' + "/" + v.text[|old'| + 1..]);
      }
      assert v.text == old' ==> v.text[|old'|..] == "" && new' + "" == new';
    }
  }

  /** A moved case holds the same fields: each is followed to the new root, and in its sessions the worktrees
      are, and nothing else is touched. */
  lemma MovedMeans(c: Fields, old': string, new': string)
    requires IsCase(c)
    ensures var m := Moved(c, old', new');
            && m.Keys == c.Keys
            && (forall k | k in c && k != "sessions" :: Follows(c[k], m[k], old', new'))
            && ("sessions" in c ==> m["sessions"].Obj? && m["sessions"].fields.Keys == c["sessions"].fields.Keys)
            && ("sessions" in c ==> forall role | role in c["sessions"].fields ::
                  MovesWorktree(c["sessions"].fields[role], m["sessions"].fields[role], old', new'))
  {
    hide Follows, SwapJson;
    forall v ensures Follows(v, SwapJson(v, old', new'), old', new') {
      SwapFollows(v, old', new');
    }
  }

  ghost predicate MovesWorktree(s: Json, m: Json, old': string, new': string) {
    && s.Obj? && m.Obj? && "worktree" in s.fields && m.fields.Keys == s.fields.Keys
    && (forall k | k in s.fields && k != "worktree" :: m.fields[k] == s.fields[k])
    && Follows(s.fields["worktree"], m.fields["worktree"], old', new')
  }

  // ------------------------------------------------------------------- binding

  /** The case names this mode and lives at it under the suite's root. */
  ghost predicate LivesAt(c: Fields, mode: string, top: string, fs: Fs) {
    && Get(c, "mode") == Str(mode) && Get(c, "root").Str? && fs.absolute(Get(c, "root").text)
    && fs.resolve(Get(c, "root").text) == Some(top + "/" + mode)
  }

  /** Looking at where the case lives raises: it names no mode, or it names this one and no path, or a path
      that leads nowhere. */
  ghost predicate CannotPlace(c: Fields, mode: string, fs: Fs) {
    || "mode" !in c
    || (c["mode"] == Str(mode)
        && (!Get(c, "root").Str? || (fs.absolute(Get(c, "root").text) && fs.resolve(Get(c, "root").text).None?)))
  }

  lemma CaseAtMeans(c: Fields, mode: string, top: string, fs: Fs)
    ensures CaseAt(c, mode, top, fs).Yes? <==> LivesAt(c, mode, top, fs)
    ensures CaseAt(c, mode, top, fs).Raises? <==> CannotPlace(c, mode, fs)
  {}

  /** Some case cannot be placed, and every case before it is in its place. */
  ghost predicate PlacingRaises(cases: seq<Fields>, modes: seq<string>, top: string, fs: Fs)
    requires |cases| == |modes|
  {
    exists i :: 0 <= i < |cases| && CannotPlace(cases[i], modes[i], fs)
                && forall j | 0 <= j < i :: LivesAt(cases[j], modes[j], top, fs)
  }

  lemma {:induction false} CasesAtMeans(cases: seq<Fields>, modes: seq<string>, top: string, fs: Fs)
    requires |cases| == |modes|
    ensures CasesAt(cases, modes, top, fs).Yes? <==> forall i | 0 <= i < |cases| :: LivesAt(cases[i], modes[i], top, fs)
    ensures CasesAt(cases, modes, top, fs).Raises? <==> PlacingRaises(cases, modes, top, fs)
  {
    hide CaseAt, LivesAt, CannotPlace, PlacingRaises;
    if cases == [] {
      NothingToPlace(modes, top, fs);
    } else {
      CaseAtMeans(cases[0], modes[0], top, fs);
      CasesAtMeans(cases[1..], modes[1..], top, fs);
      assert forall i | 0 < i < |cases| :: cases[i] == cases[1..][i - 1] && modes[i] == modes[1..][i - 1];
      PlacingGoesOn(cases, modes, top, fs);
    }
  }

  lemma NothingToPlace(modes: seq<string>, top: string, fs: Fs)
    requires modes == []
    ensures !PlacingRaises([], modes, top, fs)
  {}

  lemma PlacingGoesOn(cases: seq<Fields>, modes: seq<string>, top: string, fs: Fs)
    requires |cases| == |modes| && cases != []
    ensures PlacingRaises(cases, modes, top, fs) <==>
            CannotPlace(cases[0], modes[0], fs) || (LivesAt(cases[0], modes[0], top, fs) && PlacingRaises(cases[1..], modes[1..], top, fs))
  {
    hide LivesAt, CannotPlace;
    var rest, others := cases[1..], modes[1..];
    assert forall i | 0 < i < |cases| :: cases[i] == rest[i - 1] && modes[i] == others[i - 1];
    if CannotPlace(cases[0], modes[0], fs) {
    } else if PlacingRaises(cases, modes, top, fs) {
      var i :| 0 <= i < |cases| && CannotPlace(cases[i], modes[i], fs) && forall j | 0 <= j < i :: LivesAt(cases[j], modes[j], top, fs);
      assert CannotPlace(rest[i - 1], others[i - 1], fs);
      assert forall j | 0 <= j < i - 1 :: rest[j] == cases[j + 1] && others[j] == modes[j + 1];
    }
  }

  lemma LivesIsPlaced(c: Fields, mode: string, top: string, fs: Fs)
    ensures !(LivesAt(c, mode, top, fs) && CannotPlace(c, mode, fs))
  {}

  /** A field every case must hold, and hold something in. */
  predicate IsRequired(k: string) {
    k == "source_manifest_sha256" || k == "buddy_sha256" || k == "adapter_sha256" || k == "fixture_sources"
  }

  /** A field that is absent everywhere or the same everywhere. */
  predicate IsUniform(k: string) {
    k == "claude_version" || k == "codex_version" || k == "native_versions" || k == "source_head" || k == "sdk"
  }

  /** Each session names its native. */
  ghost predicate NamesNatives(c: Fields) {
    && "sessions" in c && c["sessions"].Obj?
    && forall role | role in c["sessions"].fields ::
         var s := c["sessions"].fields[role]; s.Obj? && "native_version" in s.fields && "native_sha256" in s.fields
  }

  ghost predicate HasContract(c: Fields) {
    NamesNatives(c) && forall k | IsRequired(k) :: k in c && Truthy(c[k])
  }

  /** The two cases agree on every contract field, absent ones included, and on each session's native. */
  ghost predicate Agree(c: Fields, m: Fields) {
    && NamesNatives(c) && NamesNatives(m)
    && (forall k | IsRequired(k) || IsUniform(k) :: (k in c <==> k in m) && (k in c ==> c[k] == m[k]))
    && (forall role :: role in c["sessions"].fields <==> role in m["sessions"].fields)
    && forall role | role in c["sessions"].fields && role in m["sessions"].fields ::
         var s, u := c["sessions"].fields[role].fields, m["sessions"].fields[role].fields;
         s["native_version"] == u["native_version"] && s["native_sha256"] == u["native_sha256"]
  }

  lemma FieldsMean()
    ensures forall k :: k in REQUIRED <==> IsRequired(k)
    ensures forall k :: k in REQUIRED + UNIFORM <==> IsRequired(k) || IsUniform(k)
  {
    assert forall k :: k in REQUIRED + UNIFORM <==> k in REQUIRED || k in UNIFORM;
  }

  lemma ContractMeans(c: Fields)
    ensures ContractOf(c).Some? <==> HasContract(c)
    ensures HasNatives(c) <==> NamesNatives(c)
  {
    hide IsRequired, REQUIRED, Truthy;
    FieldsMean();
  }

  lemma NativesAreSessions(c: Fields)
    requires ContractOf(c).Some?
    ensures HasNatives(c) && ContractOf(c).value.natives.Keys == c["sessions"].fields.Keys
  {
    hide HasRequired;
  }

  lemma AgreeMeans(c: Fields, m: Fields)
    ensures SameContractFields(c, m) <==> Agree(c, m)
  {
    hide IsRequired, IsUniform, REQUIRED, UNIFORM;
    FieldsMean();
    if Agree(c, m) {
      assert c["sessions"].fields.Keys == m["sessions"].fields.Keys;
    }
  }

  lemma SameContractMeans(cases: seq<Fields>)
    ensures SameContract(cases) <==>
            && cases != [] && HasContract(cases[0]) && cases[0]["sessions"].fields.Keys != {}
            && forall i | 0 <= i < |cases| :: Agree(cases[0], cases[i])
  {
    hide ContractOf, HasContract, Agree;
    if cases != [] {
      ContractMeans(cases[0]);
      if ContractOf(cases[0]).Some? {
        NativesAreSessions(cases[0]);
        forall i | 0 <= i < |cases| ensures ContractOf(cases[i]) == ContractOf(cases[0]) <==> Agree(cases[0], cases[i]) {
          ContractIsItsFields(cases[0], cases[i]);
          AgreeMeans(cases[0], cases[i]);
        }
        assert forall i | 0 <= i < |cases| :: cases[i] in cases;
      }
    }
  }

  /** A suite is one run exactly when its root leads somewhere and each case lives at its own mode there; it has
      one contract exactly when placing its cases did not raise, the first case has a contract with a session,
      and every case agrees with it. */
  lemma SuiteBindingMeans(root: string, cases: seq<Fields>, modes: seq<string>, fs: Fs)
    requires |cases| == |modes|
    ensures SuiteBinding(root, cases, modes, fs).sameRun <==>
            && fs.absolute(root) && fs.resolve(root).Some?
            && forall i | 0 <= i < |cases| :: LivesAt(cases[i], modes[i], fs.resolve(root).value, fs)
    ensures SuiteBinding(root, cases, modes, fs).sameContract <==>
            && (fs.absolute(root) ==> fs.resolve(root).Some? && !PlacingRaises(cases, modes, fs.resolve(root).value, fs))
            && cases != [] && HasContract(cases[0]) && cases[0]["sessions"].fields.Keys != {}
            && forall i | 0 <= i < |cases| :: Agree(cases[0], cases[i])
  {
    hide CasesAt, SameContract, LivesAt, PlacingRaises, Agree, HasContract;
    SameContractMeans(cases);
    if fs.absolute(root) && fs.resolve(root).Some? {
      CasesAtMeans(cases, modes, fs.resolve(root).value, fs);
    }
  }
}
