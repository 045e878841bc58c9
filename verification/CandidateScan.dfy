/** Every `qualification_candidate` under a run's root: `_walk` and `scan` of scripts/admission_lib.py. */
module CandidateScan {
  import opened Option
  import opened Json

  const CANDIDATE: string := "qualification_candidate"

  /** The triple a binding object names; missing fields are null. */
  datatype Binding = Binding(harness: Json, version: Json, sha: Json)

  function BindingOf(fields: map<string, Json>): Binding {
    Binding(Get(fields, "harness"), Get(fields, "version"), Get(fields, "sha256"))
  }

  /** `repr(v)` for the values that are neither objects, strings nor null. */
  type Repr = Json -> string

  // --------------------------------------------------------------------- paths

  datatype Step = Key(key: string) | Index(index: nat)

  function Child(v: Json, step: Step): Option<Json> {
    match step
    case Key(k) => if v.Obj? && k in v.fields then Some(v.fields[k]) else None
    case Index(i) => if v.Arr? && i < |v.items| then Some(v.items[i]) else None
  }

  /** The value at the end of a path. */
  function Walked(v: Json, path: seq<Step>): Option<Json> {
    if path == [] then Some(v)
    else
      var child := Child(v, path[0]);
      if child.None? then None else Walked(child.value, path[1..])
  }

  /** `x` is the candidate of an object whose path does not pass through another candidate. */
  ghost predicate CandidateAt(doc: Json, path: seq<Step>, x: Json) {
    && Key(CANDIDATE) !in path
    && Walked(doc, path + [Key(CANDIDATE)]) == Some(x)
  }

  // --------------------------------------------------------------- what is found

  /** The candidates of a document, found by descent. */
  function Candidates(v: Json): set<Json>
    decreases v, 1
  {
    match v
    case Obj(m) => set k, x | k in m && x in Beneath(v, k) :: x
    case Arr(xs) => set i, x | 0 <= i < |xs| && x in Candidates(xs[i]) :: x
    case _ => {}
  }

  /** What one field of an object holds: a candidate itself, or those below it. */
  function Beneath(v: Json, k: string): set<Json>
    requires v.Obj? && k in v.fields
    decreases v, 0
  {
    if k == CANDIDATE then {v.fields[k]} else Candidates(v.fields[k])
  }

  lemma {:induction false} FoundHasPath(v: Json, x: Json) returns (path: seq<Step>)
    requires x in Candidates(v)
    ensures CandidateAt(v, path, x)
  {
    if v.Obj? {
      var k :| k in v.fields && x in Beneath(v, k);
      if k == CANDIDATE {
        path := [];
        assert path + [Key(CANDIDATE)] == [Key(CANDIDATE)];
        assert [Key(CANDIDATE)][1..] == [];
      } else {
        var rest := FoundHasPath(v.fields[k], x);
        path := [Key(k)] + rest;
        assert (path + [Key(CANDIDATE)])[1..] == rest + [Key(CANDIDATE)];
      }
    } else {
      var i :| 0 <= i < |v.items| && x in Candidates(v.items[i]);
      var rest := FoundHasPath(v.items[i], x);
      path := [Index(i)] + rest;
      assert (path + [Key(CANDIDATE)])[1..] == rest + [Key(CANDIDATE)];
    }
  }

  lemma {:induction false} PathIsFound(v: Json, path: seq<Step>, x: Json)
    requires CandidateAt(v, path, x)
    ensures x in Candidates(v)
    decreases |path|
  {
    if path == [] {
      assert path + [Key(CANDIDATE)] == [Key(CANDIDATE)];
      assert [Key(CANDIDATE)][1..] == [];
      var child := Child(v, Key(CANDIDATE));
      assert child.Some? && Walked(child.value, []) == Some(child.value);
      assert x in Beneath(v, CANDIDATE);
    } else {
      assert (path + [Key(CANDIDATE)])[0] == path[0] && (path + [Key(CANDIDATE)])[1..] == path[1..] + [Key(CANDIDATE)];
      var child := Child(v, path[0]).value;
      assert path[0] in path;
      PathIsFound(child, path[1..], x);
      if path[0].Key? {
        assert x in Beneath(v, path[0].key);
      }
    }
  }

  /** Descent finds exactly the candidates on paths that pass through no other candidate. */
  lemma CandidatesAreThoseOnOpenPaths(doc: Json, x: Json)
    ensures x in Candidates(doc) <==> exists path :: CandidateAt(doc, path, x)
  {
    if x in Candidates(doc) {
      var path := FoundHasPath(doc, x);
    }
    if path :| CandidateAt(doc, path, x) {
      PathIsFound(doc, path, x);
    }
  }

  function BindingsIn(found: set<Json>): set<Binding> {
    set x | x in found && x.Obj? :: BindingOf(x.fields)
  }

  function StrayOf(x: Json, repr: Repr): string { if x.Str? then x.text else repr(x) }

  function StraysIn(found: set<Json>, repr: Repr): set<string> {
    set x | x in found && !x.Obj? && !x.Null? :: StrayOf(x, repr)
  }

  // ------------------------------------------------------------------- the scan

  /** The two sets `_walk` adds to. */
  class Scan {
    var bindings: set<Binding>
    var strays: set<string>

    constructor ()
      ensures bindings == {} && strays == {}
    {
      bindings, strays := {}, {};
    }

    method Note(x: Json, repr: Repr)
      modifies this
      ensures bindings == old(bindings) + BindingsIn({x}) && strays == old(strays) + StraysIn({x}, repr)
    {
      match x
      case Obj(f) => bindings := bindings + {BindingOf(f)};
      case Null =>
      case _ => strays := strays + {StrayOf(x, repr)};
    }

    /** `_walk`: add a document's candidates, descending everywhere but into them. */
    method Walk(value: Json, repr: Repr)
      modifies this
      ensures bindings == old(bindings) + BindingsIn(Candidates(value))
      ensures strays == old(strays) + StraysIn(Candidates(value), repr)
      decreases value, 1
    {
      match value
      case Obj(_) => WalkFields(value, repr);
      case Arr(_) => WalkItems(value, repr);
      case _ =>
    }

    method WalkFields(value: Json, repr: Repr)
      requires value.Obj?
      modifies this
      ensures bindings == old(bindings) + BindingsIn(Candidates(value))
      ensures strays == old(strays) + StraysIn(Candidates(value), repr)
      decreases value, 0
    {
      hide BindingsIn, StraysIn, BeneathKeys, Candidates;
      var keys := value.fields.Keys;
      ghost var done: set<string> := {};
      EveryKeyIsAll(value);
      NothingHeld(repr);
      while keys != {}
        invariant keys + done == value.fields.Keys && keys !! done
        invariant bindings == old(bindings) + BindingsIn(BeneathKeys(value, done))
        invariant strays == old(strays) + StraysIn(BeneathKeys(value, done), repr)
      {
        var k :| k in keys;
        if k == CANDIDATE {
          Note(value.fields[k], repr);
        } else {
          Walk(value.fields[k], repr);
        }
        OneMoreKey(value, done, k, repr);
        done := done + {k};
        keys := keys - {k};
      }
      assert done == value.fields.Keys;
    }

    method WalkItems(value: Json, repr: Repr)
      requires value.Arr?
      modifies this
      ensures bindings == old(bindings) + BindingsIn(Candidates(value))
      ensures strays == old(strays) + StraysIn(Candidates(value), repr)
      decreases value, 0
    {
      hide BindingsIn, StraysIn, UpToItem, Candidates;
      EveryItemIsAll(value);
      NothingHeld(repr);
      var i := 0;
      while i < |value.items|
        invariant 0 <= i <= |value.items|
        invariant bindings == old(bindings) + BindingsIn(UpToItem(value, i))
        invariant strays == old(strays) + StraysIn(UpToItem(value, i), repr)
      {
        Walk(value.items[i], repr);
        OneMoreItem(value, i, repr);
        i := i + 1;
      }
    }
  }

  ghost function BeneathKeys(v: Json, keys: set<string>): set<Json>
    requires v.Obj?
  {
    set k, x | k in keys && k in v.fields && x in Beneath(v, k) :: x
  }

  ghost function UpToItem(v: Json, n: nat): set<Json>
    requires v.Arr? && n <= |v.items|
  {
    set i, x | 0 <= i < n && x in Candidates(v.items[i]) :: x
  }

  lemma OneMoreKey(v: Json, keys: set<string>, k: string, repr: Repr)
    requires v.Obj? && k in v.fields
    ensures BindingsIn(BeneathKeys(v, keys + {k})) == BindingsIn(BeneathKeys(v, keys)) + BindingsIn(Beneath(v, k))
    ensures StraysIn(BeneathKeys(v, keys + {k}), repr) == StraysIn(BeneathKeys(v, keys), repr) + StraysIn(Beneath(v, k), repr)
  {
    assert BeneathKeys(v, keys + {k}) == BeneathKeys(v, keys) + Beneath(v, k);
    UnionSplits(BeneathKeys(v, keys), Beneath(v, k), repr);
  }

  lemma OneMoreItem(v: Json, n: nat, repr: Repr)
    requires v.Arr? && n < |v.items|
    ensures BindingsIn(UpToItem(v, n + 1)) == BindingsIn(UpToItem(v, n)) + BindingsIn(Candidates(v.items[n]))
    ensures StraysIn(UpToItem(v, n + 1), repr) == StraysIn(UpToItem(v, n), repr) + StraysIn(Candidates(v.items[n]), repr)
  {
    hide Candidates;
    assert UpToItem(v, n + 1) == UpToItem(v, n) + Candidates(v.items[n]);
    UnionSplits(UpToItem(v, n), Candidates(v.items[n]), repr);
  }

  lemma NothingHeld(repr: Repr)
    ensures BindingsIn({}) == {} && StraysIn({}, repr) == {}
  {}

  lemma EveryKeyIsAll(v: Json)
    requires v.Obj?
    ensures BeneathKeys(v, v.fields.Keys) == Candidates(v) && BeneathKeys(v, {}) == {}
  {}

  lemma EveryItemIsAll(v: Json)
    requires v.Arr?
    ensures UpToItem(v, |v.items|) == Candidates(v) && UpToItem(v, 0) == {}
  {}

  lemma UnionSplits(a: set<Json>, b: set<Json>, repr: Repr)
    ensures BindingsIn(a + b) == BindingsIn(a) + BindingsIn(b) && StraysIn(a + b, repr) == StraysIn(a, repr) + StraysIn(b, repr)
  {}

  /** The candidates of a run, gathered document by document. */
  ghost function Found(docs: seq<Json>): set<Json> {
    if docs == [] then {} else Found(docs[..|docs| - 1]) + Candidates(docs[|docs| - 1])
  }

  lemma {:induction false} FoundInSome(docs: seq<Json>)
    ensures forall x :: x in Found(docs) <==> exists d :: d in docs && x in Candidates(d)
  {
    hide Candidates;
    if docs == [] {
    } else {
      var before, last := docs[..|docs| - 1], docs[|docs| - 1];
      FoundInSome(before);
      assert docs == before + [last];
      assert forall d :: d in docs <==> d in before || d == last;
      forall x ensures x in Found(docs) <==> exists d :: d in docs && x in Candidates(d) {
        if x in Found(before) {
          var d :| d in before && x in Candidates(d);
          assert d in docs;
        }
        assert last in docs;
      }
    }
  }

  /** `scan`, over the documents the run's receipt files hold. */
  method ScanDocuments(docs: seq<Json>, repr: Repr) returns (bindings: set<Binding>, strays: set<string>)
    ensures bindings == BindingsIn(Found(docs)) && strays == StraysIn(Found(docs), repr)
  {
    var scan := new Scan();
    for i := 0 to |docs|
      invariant fresh(scan)
      invariant scan.bindings == BindingsIn(Found(docs[..i])) && scan.strays == StraysIn(Found(docs[..i]), repr)
    {
      scan.Walk(docs[i], repr);
      assert docs[..i + 1][..i] == docs[..i];
    }
    assert docs[..|docs|] == docs;
    return scan.bindings, scan.strays;
  }

  lemma DocumentOrderIsIrrelevant(a: seq<Json>, b: seq<Json>)
    requires (set d | d in a) == (set d | d in b)
    ensures Found(a) == Found(b)
  {
    hide Found, Candidates;
    FoundInSome(a);
    FoundInSome(b);
    var x, y := set d | d in a, set d | d in b;
    assert forall d :: d in a <==> d in x;
    assert forall d :: d in b <==> d in y;
  }
}
