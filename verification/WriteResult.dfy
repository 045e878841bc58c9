/** Which Write of a native trace renews a claim: `meta_verdict`, `frame_result_ids` and
    `matched_write` of scripts/check-claude-gate.py. */
module WriteResult {
  import opened Option
  import opened Json

  datatype Verdict = Proceed | Unexecuted | Unknown

  /** The observer's spelling of a missing `is_error`. */
  const ABSENT: Json := Str("<absent>")

  const ENTRY_KEYS: set<string> := {"id", "non_execution_kind", "permission_decision"}
  const DECISION_KEYS: set<string> := {"decision", "source", "reason_type"}
  const UNEXECUTED_KINDS: set<Json> := {Str("permission-rule"), Str("user-rejected")}

  // ------------------------------------------------------------ meta_verdict

  predicate IsEntry(m: Json) { m.Obj? && Get(m.fields, "id").Str? }

  predicate IsFor(m: Json, tid: Json) { m.Obj? && Get(m.fields, "id") == tid }

  function Mine(entries: seq<Json>, tid: Json): seq<Json> {
    if entries == [] then []
    else (if IsFor(entries[0], tid) then [entries[0]] else []) + Mine(entries[1..], tid)
  }

  predicate IsDecision(d: Json) {
    && d.Obj? && d.fields.Keys <= DECISION_KEYS && "decision" in d.fields
    && forall k | k in d.fields :: d.fields[k].Str?
  }

  /** The frame says this result completed: an explicit false, or an omission beside the witness. */
  predicate Completed(isError: Json, witnessed: bool) {
    isError == Bool(false) || (isError == ABSENT && witnessed)
  }

  function EntryVerdict(entry: map<string, Json>, isError: Json, witnessed: bool): Verdict {
    var decided := "permission_decision" in entry;
    if !(entry.Keys <= ENTRY_KEYS) then Unknown
    else if decided && !IsDecision(entry["permission_decision"]) then Unknown
    else if "non_execution_kind" in entry then
      if entry["non_execution_kind"] in UNEXECUTED_KINDS
         && (!decided || entry["permission_decision"].fields["decision"] == Str("reject"))
         && !Completed(isError, witnessed)
      then Unexecuted else Unknown
    else if decided && entry["permission_decision"].fields["decision"] == Str("accept") then Proceed
    else Unknown
  }

  /** `meta` is null where the frame has none; `ids` are the frame's tool results. */
  function MetaVerdict(meta: Json, ids: set<string>, tid: Json, isError: Json, witnessed: bool): Verdict {
    if meta.Null? then Proceed
    else if !meta.Arr? || !AllEntries(meta.items, ids) then Unknown
    else MineVerdict(Mine(meta.items, tid), isError, witnessed)
  }

  /** Every entry is an object with a string id that names a tool result of the frame. */
  predicate AllEntries(entries: seq<Json>, ids: set<string>) {
    forall m | m in entries :: IsEntry(m) && m.fields["id"].text in ids
  }

  function MineVerdict(mine: seq<Json>, isError: Json, witnessed: bool): Verdict {
    if mine == [] then Proceed
    else if |mine| > 1 || !mine[0].Obj? then Unknown
    else EntryVerdict(mine[0].fields, isError, witnessed)
  }

  lemma {:induction false} MineCounts(entries: seq<Json>, tid: Json)
    ensures forall m :: multiset(Mine(entries, tid))[m] == if IsFor(m, tid) then multiset(entries)[m] else 0
  {
    hide IsFor;
    if entries == [] {
    } else {
      MineCounts(entries[1..], tid);
      assert entries == [entries[0]] + entries[1..];
    }
  }

  /** The order of the entries does not matter. */
  lemma MetaOrderIsIrrelevant(x: seq<Json>, y: seq<Json>, ids: set<string>, tid: Json, isError: Json, witnessed: bool)
    requires multiset(x) == multiset(y)
    ensures MetaVerdict(Arr(x), ids, tid, isError, witnessed) == MetaVerdict(Arr(y), ids, tid, isError, witnessed)
  {
    hide AllEntries, Mine, EntryVerdict;
    SameMine(x, y, tid);
    if AllEntries(x, ids) {
      SameEntries(x, y, ids);
    }
    if AllEntries(y, ids) {
      SameEntries(y, x, ids);
    }
  }

  lemma SameEntries(x: seq<Json>, y: seq<Json>, ids: set<string>)
    requires multiset(x) == multiset(y) && AllEntries(x, ids)
    ensures AllEntries(y, ids)
  {
    hide IsEntry;
    forall m | m in y ensures m in x {
      assert m in multiset(y);
    }
  }

  lemma SameMine(x: seq<Json>, y: seq<Json>, tid: Json)
    requires multiset(x) == multiset(y)
    ensures var a, b := Mine(x, tid), Mine(y, tid); |a| == |b| && (|a| == 1 ==> a == b)
  {
    hide IsFor, Mine;
    var a, b := Mine(x, tid), Mine(y, tid);
    MineCounts(x, tid);
    MineCounts(y, tid);
    assert forall m :: multiset(a)[m] == multiset(b)[m];
    assert multiset(a) == multiset(b);
    assert |a| == |multiset(a)| == |multiset(b)| == |b|;
    if |a| == 1 {
      assert a[0] in multiset(b);
      assert a[0] in b;
    }
  }

  /** Evidence of completion beside any meta is never read as unexecuted. */
  lemma CompletedIsNeverUnexecuted(meta: Json, ids: set<string>, tid: Json, isError: Json, witnessed: bool)
    requires Completed(isError, witnessed)
    ensures !MetaVerdict(meta, ids, tid, isError, witnessed).Unexecuted?
  {}

  // ---------------------------------------------------------------- the trace

  datatype Block = Block(kind: string, id: Json, name: string, path: string, isError: Json)

  /** A projected frame; absent fields are null, and a replay is one marked true. */
  datatype Frame = Frame(kind: string, parent: Json, blocks: seq<Block>, replay: bool, outcome: Json, meta: Json)

  function ResultIds(v: Frame): set<string> {
    set b | b in v.blocks && b.kind == "tool_result" && b.id.Str? && b.id.text != "" :: b.id.text
  }

  type Test = (Frame, Block) -> bool

  /** A row and a block in it. */
  type Spot = (nat, nat)

  function BlocksAt(v: Frame, test: Test, row: nat, from: nat): seq<Spot>
    requires from <= |v.blocks|
    decreases |v.blocks| - from
  {
    if from == |v.blocks| then []
    else (if test(v, v.blocks[from]) then [(row, from)] else []) + BlocksAt(v, test, row, from + 1)
  }

  /** Every (row, block) position that passes a test, in trace order. */
  function Spots(rows: seq<Frame>, test: Test, from: nat): seq<Spot>
    requires from <= |rows|
    decreases |rows| - from
  {
    if from == |rows| then [] else BlocksAt(rows[from], test, from, 0) + Spots(rows, test, from + 1)
  }

  function UseTest(path: string): Test {
    (v: Frame, b: Block) => v.kind == "assistant" && v.parent.Null? && b.kind == "tool_use" && b.name == "Write" && b.path == path
  }

  function ResultTest(tid: Json): Test {
    (v: Frame, b: Block) => v.kind == "user" && b.kind == "tool_result" && b.id == tid
  }

  /** The first result frame after a row; none where `next` finds nothing and raises. */
  function NextResult(rows: seq<Frame>, from: nat): Option<nat>
    decreases |rows| - from
  {
    if from >= |rows| then None else if rows[from].kind == "result" then Some(from) else NextResult(rows, from + 1)
  }

  /** One result block, and the structured create or update naming the path. */
  predicate Witnessed(v: Frame, path: string) {
    && |v.blocks| == 1 && v.outcome.Obj? && Get(v.outcome.fields, "type") in {Str("create"), Str("update")}
    && Get(v.outcome.fields, "filePath") == Str(path)
  }

  predicate RenewableFrame(v: Frame, path: string, tid: Json) {
    && !v.replay && v.parent.Null? && |v.blocks| == 1
    && (v.blocks[0].isError == Bool(false) || v.blocks[0].isError == ABSENT)
    && MetaVerdict(v.meta, ResultIds(v), tid, v.blocks[0].isError, Witnessed(v, path)) == Proceed
    && Witnessed(v, path)
  }

  /** `matched_write`: the id of the one renewable Write of `path`, or a raise. */
  function MatchedWrite(rows: seq<Frame>, path: string): Result<Json> {
    var uses := Spots(rows, UseTest(path), 0);
    if |uses| != 1 then Err
    else
      SpotsAreExact(rows, UseTest(path), 0);
      assert uses[0] in uses;
      var at := uses[0].0;
      var tid := rows[at].blocks[uses[0].1].id;
      var results := Spots(rows, ResultTest(tid), 0);
      if |results| != 1 then Err
      else
        SpotsAreExact(rows, ResultTest(tid), 0);
        assert results[0] in results;
        var i := results[0].0;
        var end := NextResult(rows, at + 1);
        if end.Some? && at < i < end.value && RenewableFrame(rows[i], path, tid) then Ok(tid) else Err
  }

  // ------------------------------------------------------------ what it means

  ghost predicate Before(x: Spot, y: Spot) { x.0 < y.0 || (x.0 == y.0 && x.1 < y.1) }

  ghost predicate InOrder(xs: seq<Spot>) { forall i, j | 0 <= i < j < |xs| :: Before(xs[i], xs[j]) }

  ghost predicate Passes(rows: seq<Frame>, test: Test, x: Spot) {
    x.0 < |rows| && x.1 < |rows[x.0].blocks| && test(rows[x.0], rows[x.0].blocks[x.1])
  }

  /** `spots` are in order, and exactly the blocks of one row from `from` on that pass. */
  ghost predicate ListsBlocks(spots: seq<Spot>, v: Frame, test: Test, row: nat, from: nat) {
    && InOrder(spots)
    && forall x :: x in spots <==> x.0 == row && from <= x.1 < |v.blocks| && test(v, v.blocks[x.1])
  }

  lemma {:induction false} BlocksAreExact(v: Frame, test: Test, row: nat, from: nat)
    requires from <= |v.blocks|
    ensures ListsBlocks(BlocksAt(v, test, row, from), v, test, row, from)
    decreases |v.blocks| - from
  {
    hide ListsBlocks;
    if from == |v.blocks| {
      NoBlocks(v, test, row);
    } else {
      BlocksAreExact(v, test, row, from + 1);
      OneMoreBlock(v, test, row, from, BlocksAt(v, test, row, from + 1));
    }
  }

  lemma NoBlocks(v: Frame, test: Test, row: nat)
    ensures ListsBlocks([], v, test, row, |v.blocks|)
  {}

  lemma OneMoreBlock(v: Frame, test: Test, row: nat, from: nat, rest: seq<Spot>)
    requires from < |v.blocks| && ListsBlocks(rest, v, test, row, from + 1)
    ensures ListsBlocks((if test(v, v.blocks[from]) then [(row, from)] else []) + rest, v, test, row, from)
  {
    var spots := (if test(v, v.blocks[from]) then [(row, from)] else []) + rest;
    assert forall k | 0 <= k < |rest| :: rest[k] in rest;
    assert forall x :: x in spots <==> (x == (row, from) && test(v, v.blocks[from])) || x in rest;
  }

  /** `spots` are in order, and exactly those of the trace from row `from` on that pass. */
  ghost predicate ListsSpots(spots: seq<Spot>, rows: seq<Frame>, test: Test, from: nat) {
    && InOrder(spots)
    && forall x :: x in spots <==> from <= x.0 && Passes(rows, test, x)
  }

  lemma {:induction false} SpotsAreExact(rows: seq<Frame>, test: Test, from: nat)
    requires from <= |rows|
    ensures ListsSpots(Spots(rows, test, from), rows, test, from)
    decreases |rows| - from
  {
    hide ListsSpots, ListsBlocks, BlocksAt;
    if from == |rows| {
      NoSpots(rows, test);
    } else {
      SpotsAreExact(rows, test, from + 1);
      BlocksAreExact(rows[from], test, from, 0);
      OneMoreRow(rows, test, from, BlocksAt(rows[from], test, from, 0), Spots(rows, test, from + 1));
    }
  }

  lemma NoSpots(rows: seq<Frame>, test: Test)
    ensures ListsSpots([], rows, test, |rows|)
  {}

  lemma OneMoreRow(rows: seq<Frame>, test: Test, from: nat, first: seq<Spot>, rest: seq<Spot>)
    requires from < |rows| && ListsBlocks(first, rows[from], test, from, 0) && ListsSpots(rest, rows, test, from + 1)
    ensures ListsSpots(first + rest, rows, test, from)
  {
    assert forall k | 0 <= k < |first| :: first[k] in first;
    assert forall k | 0 <= k < |rest| :: rest[k] in rest;
    assert forall x :: x in first + rest <==> x in first || x in rest;
  }

  /** Exactly one position of the trace passes the test. */
  ghost predicate Only(rows: seq<Frame>, test: Test, x: Spot) {
    Passes(rows, test, x) && forall y | Passes(rows, test, y) :: y == x
  }

  lemma OnlySpotIsListed(rows: seq<Frame>, test: Test, x: Spot)
    ensures Only(rows, test, x) <==> Spots(rows, test, 0) == [x]
  {
    hide Spots;
    var spots := Spots(rows, test, 0);
    SpotsAreExact(rows, test, 0);
    assert forall k | 0 <= k < |spots| :: spots[k] in spots;
    if Only(rows, test, x) {
      assert x in spots;
      if |spots| > 1 {
        TwoSpotsDiffer(spots);
      }
    }
    if spots == [x] {
      assert x in spots;
      assert forall y | Passes(rows, test, y) :: y in spots;
    }
  }

  lemma TwoSpotsDiffer(xs: seq<Spot>)
    requires InOrder(xs) && |xs| > 1
    ensures xs[0] in xs && xs[1] in xs && xs[0] != xs[1]
  {
    assert Before(xs[0], xs[1]);
  }

  lemma {:induction false} NextResultIsFirst(rows: seq<Frame>, from: nat, i: nat)
    requires from <= i
    ensures NextResult(rows, from).Some? && i < NextResult(rows, from).value <==>
            && (forall j | from <= j <= i && j < |rows| :: rows[j].kind != "result")
            && exists j | i < j < |rows| :: rows[j].kind == "result"
    decreases |rows| - from
  {
    if from < |rows| && rows[from].kind != "result" {
      if from < i {
        NextResultIsFirst(rows, from + 1, i);
      } else {
        NextResultExists(rows, from + 1);
      }
    }
  }

  lemma {:induction false} NextResultExists(rows: seq<Frame>, from: nat)
    ensures NextResult(rows, from).Some? <==> exists j | from <= j < |rows| :: rows[j].kind == "result"
    ensures NextResult(rows, from).Some? ==> from <= NextResult(rows, from).value
    decreases |rows| - from
  {
    if from < |rows| && rows[from].kind != "result" {
      NextResultExists(rows, from + 1);
    }
  }

  /** The trace shows a single Write of the path on the main thread, with this id, and one result for it, in a
      renewable frame after the use with a result frame after it and none between. */
  ghost predicate RenewableWrite(rows: seq<Frame>, path: string, tid: Json, use: Spot, answer: Spot) {
    && Only(rows, UseTest(path), use) && rows[use.0].blocks[use.1].id == tid
    && Only(rows, ResultTest(tid), answer) && use.0 < answer.0
    && (forall j | use.0 < j <= answer.0 :: rows[j].kind != "result")
    && (exists j | answer.0 < j < |rows| :: rows[j].kind == "result")
    && RenewableFrame(rows[answer.0], path, tid)
  }

  /** `matched_write` returns exactly the ids of such writes. */
  lemma MatchedWriteIsExact(rows: seq<Frame>, path: string, tid: Json)
    ensures MatchedWrite(rows, path) == Ok(tid) <==> exists use: Spot, answer: Spot :: RenewableWrite(rows, path, tid, use, answer)
  {
    hide MatchedWrite, RenewableWrite, Spots;
    forall use: Spot, answer: Spot {
      OneMatch(rows, path, tid, use, answer);
    }
    if MatchedWrite(rows, path) == Ok(tid) {
      MatchHasSpots(rows, path, tid);
    }
  }

  lemma MatchHasSpots(rows: seq<Frame>, path: string, tid: Json)
    requires MatchedWrite(rows, path) == Ok(tid)
    ensures var uses, results := Spots(rows, UseTest(path), 0), Spots(rows, ResultTest(tid), 0);
            |uses| == 1 && |results| == 1 && uses == [uses[0]] && results == [results[0]]
  {
    hide Spots, RenewableFrame, UseTest, ResultTest, NextResult, ListsSpots;
  }

  lemma OneMatch(rows: seq<Frame>, path: string, tid: Json, use: Spot, answer: Spot)
    ensures RenewableWrite(rows, path, tid, use, answer) <==>
            && Spots(rows, UseTest(path), 0) == [use] && Spots(rows, ResultTest(tid), 0) == [answer]
            && MatchedWrite(rows, path) == Ok(tid)
  {
    hide Spots, Only, RenewableFrame, UseTest, ResultTest, NextResult, ListsSpots;
    OnlySpotIsListed(rows, UseTest(path), use);
    OnlySpotIsListed(rows, ResultTest(tid), answer);
    OnlyPasses(rows, UseTest(path), use);
    OnlyPasses(rows, ResultTest(tid), answer);
    if use.0 < answer.0 {
      NextResultIsFirst(rows, use.0 + 1, answer.0);
    }
  }

  lemma OnlyPasses(rows: seq<Frame>, test: Test, x: Spot)
    ensures Only(rows, test, x) ==> x.0 < |rows| && x.1 < |rows[x.0].blocks|
  {}

  /** The result a match stands on can never be read as unexecuted, under any meta at all. */
  lemma MatchedWriteIsExecuted(rows: seq<Frame>, path: string, tid: Json, meta: Json, ids: set<string>)
    requires MatchedWrite(rows, path) == Ok(tid)
    ensures exists use: Spot, answer: Spot :: RenewableWrite(rows, path, tid, use, answer) &&
              !MetaVerdict(meta, ids, tid, rows[answer.0].blocks[0].isError, Witnessed(rows[answer.0], path)).Unexecuted?
  {
    MatchedWriteIsExact(rows, path, tid);
    var use: Spot, answer: Spot :| RenewableWrite(rows, path, tid, use, answer);
    var v := rows[answer.0];
    CompletedIsNeverUnexecuted(meta, ids, tid, v.blocks[0].isError, Witnessed(v, path));
  }
}
