/** What the matched Write is, told block by block, and which entries beside a result let it stand. */
module WriteMeans {
  import opened Option
  import opened Json
  import opened WriteResult

  // ------------------------------------------------------------- the entries

  /** Each entry is an object that names a result of the frame by a string. */
  ghost predicate Readable(entries: seq<Json>, ids: set<string>) {
    forall i | 0 <= i < |entries| ::
      entries[i].Obj? && Get(entries[i].fields, "id").Str? && Get(entries[i].fields, "id").text in ids
  }

  ghost predicate NamedAt(entries: seq<Json>, tid: Json, i: int) {
    0 <= i < |entries| && entries[i].Obj? && Get(entries[i].fields, "id") == tid
  }

  /** Entry `k` is the only one that names the result. */
  ghost predicate OnlyNamedAt(entries: seq<Json>, tid: Json, k: int) {
    NamedAt(entries, tid, k) && forall i | NamedAt(entries, tid, i) :: i == k
  }

  /** A permission decision of this word: strings alone, under known names. */
  ghost predicate Decides(d: Json, word: string) {
    && d.Obj? && (forall k | k in d.fields :: k in {"decision", "source", "reason_type"} && d.fields[k].Str?)
    && Get(d.fields, "decision") == Str(word)
  }

  /** The entry says that the call was permitted, and nothing against it. */
  ghost predicate Permits(f: map<string, Json>) {
    (forall k | k in f :: k in {"id", "permission_decision"}) && Decides(Get(f, "permission_decision"), "accept")
  }

  /** The entry says that the call was not executed, by a rule or by a person, and no other decision. */
  ghost predicate Refuses(f: map<string, Json>) {
    && (forall k | k in f :: k in {"id", "non_execution_kind", "permission_decision"})
    && Get(f, "non_execution_kind") in {Str("permission-rule"), Str("user-rejected")}
    && ("permission_decision" in f ==> Decides(f["permission_decision"], "reject"))
  }

  ghost predicate SaysCompleted(isError: Json, witnessed: bool) {
    isError == Bool(false) || (isError == Str("<absent>") && witnessed)
  }

  lemma EntryMeans(f: map<string, Json>, isError: Json, witnessed: bool)
    ensures EntryVerdict(f, isError, witnessed).Proceed? <==> Permits(f)
    ensures EntryVerdict(f, isError, witnessed).Unexecuted? <==> Refuses(f) && !SaysCompleted(isError, witnessed)
  {
    hide Decides;
    if "permission_decision" in f {
      DecisionMeans(f["permission_decision"]);
    } else {
      NothingDecides();
    }
  }

  lemma NothingDecides()
    ensures !Decides(Null, "accept")
  {}

  lemma DecisionMeans(d: Json)
    ensures Decides(d, "accept") <==> IsDecision(d) && d.fields["decision"] == Str("accept")
    ensures Decides(d, "reject") <==> IsDecision(d) && d.fields["decision"] == Str("reject")
  {}

  lemma {:induction false} MineIsNone(entries: seq<Json>, tid: Json)
    ensures Mine(entries, tid) == [] <==> forall i :: !NamedAt(entries, tid, i)
  {
    if entries != [] {
      MineIsNone(entries[1..], tid);
      assert forall i | 0 < i < |entries| :: entries[i] == entries[1..][i - 1];
      if IsFor(entries[0], tid) {
        assert NamedAt(entries, tid, 0);
      }
      if exists i :: NamedAt(entries[1..], tid, i) {
        var i :| NamedAt(entries[1..], tid, i);
        assert NamedAt(entries, tid, i + 1);
      }
      assert forall i | i != 0 && NamedAt(entries, tid, i) :: NamedAt(entries[1..], tid, i - 1);
    }
  }

  lemma {:induction false} MineIsOne(entries: seq<Json>, tid: Json, k: int)
    requires OnlyNamedAt(entries, tid, k)
    ensures Mine(entries, tid) == [entries[k]]
  {
    var rest := entries[1..];
    assert forall i | 0 < i < |entries| :: entries[i] == rest[i - 1];
    if k == 0 {
      forall i ensures !NamedAt(rest, tid, i) {
        assert NamedAt(rest, tid, i) ==> NamedAt(entries, tid, i + 1);
      }
      MineIsNone(rest, tid);
    } else {
      assert !NamedAt(entries, tid, 0);
      assert forall i | NamedAt(rest, tid, i) :: NamedAt(entries, tid, i + 1);
      MineIsOne(rest, tid, k - 1);
    }
  }

  lemma {:induction false} MineIsSome(entries: seq<Json>, tid: Json) returns (k: int)
    requires |Mine(entries, tid)| == 1
    ensures OnlyNamedAt(entries, tid, k)
  {
    var rest := entries[1..];
    assert forall i | 0 < i < |entries| :: entries[i] == rest[i - 1];
    if IsFor(entries[0], tid) {
      k := 0;
      MineIsNone(rest, tid);
      assert forall i | i != 0 && NamedAt(entries, tid, i) :: NamedAt(rest, tid, i - 1);
    } else {
      k := MineIsSome(rest, tid);
      assert forall i | NamedAt(entries, tid, i) :: NamedAt(rest, tid, i - 1);
      k := k + 1;
    }
  }

  /** A result stands exactly when nothing is said beside it: no list, no entry that names it, or one entry
      that permits it; it is unexecuted exactly when its one entry refuses it and nothing says it completed;
      and every list is read whole, so an entry out of shape or of no result of the frame makes it unknown. */
  lemma MetaMeans(meta: Json, ids: set<string>, tid: Json, isError: Json, witnessed: bool)
    ensures MetaVerdict(meta, ids, tid, isError, witnessed).Proceed? <==>
            meta.Null? || (meta.Arr? && Readable(meta.items, ids)
                           && ((forall i :: !NamedAt(meta.items, tid, i))
                               || exists k :: OnlyNamedAt(meta.items, tid, k) && Permits(meta.items[k].fields)))
    ensures MetaVerdict(meta, ids, tid, isError, witnessed).Unexecuted? <==>
            meta.Arr? && Readable(meta.items, ids) && !SaysCompleted(isError, witnessed)
            && exists k :: OnlyNamedAt(meta.items, tid, k) && Refuses(meta.items[k].fields)
  {
    hide Mine, EntryVerdict, Permits, Refuses, SaysCompleted, NamedAt;
    if meta.Arr? {
      var entries, mine := meta.items, Mine(meta.items, tid);
      EntriesAreReadable(entries, ids);
      MineIsNone(entries, tid);
      NamedIsEntry(entries, tid);
      forall k | OnlyNamedAt(entries, tid, k)
        ensures 0 <= k < |entries| && entries[k].Obj? && mine == [entries[k]]
        ensures EntryVerdict(entries[k].fields, isError, witnessed).Proceed? <==> Permits(entries[k].fields)
        ensures EntryVerdict(entries[k].fields, isError, witnessed).Unexecuted? <==>
                Refuses(entries[k].fields) && !SaysCompleted(isError, witnessed)
      {
        MineIsOne(entries, tid, k);
        EntryMeans(entries[k].fields, isError, witnessed);
      }
      if |mine| == 1 {
        var k := MineIsSome(entries, tid);
        assert OnlyNamedAt(entries, tid, k);
      }
    }
  }

  lemma NamedIsEntry(entries: seq<Json>, tid: Json)
    ensures forall k | NamedAt(entries, tid, k) :: 0 <= k < |entries| && entries[k].Obj?
  {}

  lemma EntriesAreReadable(entries: seq<Json>, ids: set<string>)
    ensures AllEntries(entries, ids) <==> Readable(entries, ids)
  {
    if Readable(entries, ids) {
      forall m | m in entries ensures IsEntry(m) && m.fields["id"].text in ids {
        var i :| 0 <= i < |entries| && entries[i] == m;
      }
    }
    if AllEntries(entries, ids) {
      forall i | 0 <= i < |entries|
        ensures entries[i].Obj? && Get(entries[i].fields, "id").Str? && Get(entries[i].fields, "id").text in ids
      {
        assert entries[i] in entries;
      }
    }
  }

  // ---------------------------------------------------------------- the write

  /** Where the trace holds a Write of the path on the main thread. */
  ghost predicate WritesAt(rows: seq<Frame>, path: string, x: Spot) {
    && x.0 < |rows| && x.1 < |rows[x.0].blocks| && rows[x.0].kind == "assistant" && rows[x.0].parent.Null?
    && var b := rows[x.0].blocks[x.1]; b.kind == "tool_use" && b.name == "Write" && b.path == path
  }

  /** Where the trace holds a result for this id. */
  ghost predicate ResultAt(rows: seq<Frame>, tid: Json, x: Spot) {
    && x.0 < |rows| && x.1 < |rows[x.0].blocks| && rows[x.0].kind == "user"
    && var b := rows[x.0].blocks[x.1]; b.kind == "tool_result" && b.id == tid
  }

  /** Nothing is said beside the result, or one entry that permits its call. */
  ghost predicate NothingAgainst(meta: Json, tid: Json) {
    meta == Null || meta == Arr([])
    || (meta.Arr? && |meta.items| == 1 && tid.Str? && tid.text != ""
        && meta.items[0].Obj? && Get(meta.items[0].fields, "id") == tid && Permits(meta.items[0].fields))
  }

  /** A success: on the main thread, alone in its frame and no replay, without an error, saying that this path
      was created or updated, and with nothing against it. */
  ghost predicate Succeeds(v: Frame, path: string, tid: Json) {
    && !v.replay && v.parent.Null? && |v.blocks| == 1 && v.blocks[0].isError in {Bool(false), Str("<absent>")}
    && v.outcome.Obj? && Get(v.outcome.fields, "type") in {Str("create"), Str("update")}
    && Get(v.outcome.fields, "filePath") == Str(path) && NothingAgainst(v.meta, tid)
  }

  /** The frame's only results are this id's, if it is a name at all. */
  lemma LoneMetaMeans(meta: Json, ids: set<string>, tid: Json, isError: Json, witnessed: bool)
    requires ids == if tid.Str? && tid.text != "" then {tid.text} else {}
    ensures MetaVerdict(meta, ids, tid, isError, witnessed).Proceed? <==> NothingAgainst(meta, tid)
  {
    hide MetaVerdict, Permits;
    MetaMeans(meta, ids, tid, isError, witnessed);
    if meta.Arr? && Readable(meta.items, ids) {
      forall i | 0 <= i < |meta.items| ensures NamedAt(meta.items, tid, i) {
        assert Get(meta.items[i].fields, "id").text in ids;
      }
      OnlyOneIsAll(meta.items, tid);
    }
  }

  lemma OnlyOneIsAll(entries: seq<Json>, tid: Json)
    requires forall i | 0 <= i < |entries| :: NamedAt(entries, tid, i)
    ensures (forall i :: !NamedAt(entries, tid, i)) <==> entries == []
    ensures forall k | OnlyNamedAt(entries, tid, k) :: k == 0 && |entries| == 1
    ensures |entries| == 1 ==> OnlyNamedAt(entries, tid, 0)
  {
    if entries != [] {
      assert NamedAt(entries, tid, 0);
      assert |entries| > 1 ==> NamedAt(entries, tid, 1);
    }
  }

  lemma LoneResultIds(v: Frame, tid: Json)
    requires |v.blocks| == 1 && v.blocks[0].kind == "tool_result" && v.blocks[0].id == tid
    ensures ResultIds(v) == if tid.Str? && tid.text != "" then {tid.text} else {}
  {
    var b := v.blocks[0];
    assert forall c | c in v.blocks :: c == b;
    assert b in v.blocks;
  }

  lemma RenewableMeansSuccess(v: Frame, path: string, tid: Json, k: nat)
    requires k < |v.blocks| && v.blocks[k].kind == "tool_result" && v.blocks[k].id == tid
    ensures RenewableFrame(v, path, tid) <==> Succeeds(v, path, tid)
  {
    hide MetaVerdict, NothingAgainst, ResultIds;
    if |v.blocks| == 1 {
      LoneResultIds(v, tid);
      LoneMetaMeans(v.meta, ResultIds(v), tid, v.blocks[0].isError, Witnessed(v, path));
    }
  }

  lemma WritesPass(rows: seq<Frame>, path: string, x: Spot)
    ensures Only(rows, UseTest(path), x) <==> WritesAt(rows, path, x) && forall y | WritesAt(rows, path, y) :: y == x
  {
    assert forall y :: Passes(rows, UseTest(path), y) <==> WritesAt(rows, path, y);
  }

  lemma ResultsPass(rows: seq<Frame>, tid: Json, x: Spot)
    ensures Only(rows, ResultTest(tid), x) <==> ResultAt(rows, tid, x) && forall y | ResultAt(rows, tid, y) :: y == x
  {
    assert forall y :: Passes(rows, ResultTest(tid), y) <==> ResultAt(rows, tid, y);
  }

  /** The trace's only Write of the path on the main thread, of this id, the only result for it, a success,
      after it with no result frame between, and a result frame later. */
  ghost predicate WrittenOnce(rows: seq<Frame>, path: string, tid: Json, use: Spot, answer: Spot) {
    && WritesAt(rows, path, use) && (forall y | WritesAt(rows, path, y) :: y == use)
    && rows[use.0].blocks[use.1].id == tid
    && ResultAt(rows, tid, answer) && (forall y | ResultAt(rows, tid, y) :: y == answer)
    && use.0 < answer.0 && Succeeds(rows[answer.0], path, tid)
    && (forall j | use.0 < j < answer.0 :: rows[j].kind != "result")
    && exists j | answer.0 < j < |rows| :: rows[j].kind == "result"
  }

  lemma RenewableWriteMeans(rows: seq<Frame>, path: string, tid: Json, use: Spot, answer: Spot)
    ensures RenewableWrite(rows, path, tid, use, answer) <==> WrittenOnce(rows, path, tid, use, answer)
  {
    hide Only, RenewableFrame, Succeeds, UseTest, ResultTest;
    WritesPass(rows, path, use);
    ResultsPass(rows, tid, answer);
    if ResultAt(rows, tid, answer) {
      RenewableMeansSuccess(rows[answer.0], path, tid, answer.1);
    }
  }

  /** An id is returned exactly when the trace wrote the path once under it, and that succeeded. */
  lemma MatchedWriteMeans(rows: seq<Frame>, path: string, tid: Json)
    ensures MatchedWrite(rows, path) == Ok(tid) <==> exists use: Spot, answer: Spot :: WrittenOnce(rows, path, tid, use, answer)
  {
    hide MatchedWrite, RenewableWrite, WrittenOnce;
    MatchedWriteIsExact(rows, path, tid);
    forall use: Spot, answer: Spot ensures RenewableWrite(rows, path, tid, use, answer) <==> WrittenOnce(rows, path, tid, use, answer) {
      RenewableWriteMeans(rows, path, tid, use, answer);
    }
  }
}
