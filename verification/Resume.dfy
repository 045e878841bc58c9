/** The replay window after a native resume: `trace_slice` and the `no_replay` scan of
    scripts/check-uncertain.py, over the wire rows. */
module Resume {
  import opened Option
  import opened Json
  import opened Listing

  datatype Row = AdapterFrame(frame: map<string, Json>) | NativeFrame(frame: map<string, Json>) | Other

  predicate Is(frame: map<string, Json>, method': string) { Get(frame, "method") == Str(method') }

  predicate IsResume(v: Row) { v.AdapterFrame? && Is(v.frame, "thread/resume") }

  predicate IsStart(v: Row) { v.AdapterFrame? && (Is(v.frame, "turn/start") || Is(v.frame, "turn/steer")) }

  /** The adapter answers something the native asked, an approval for one. */
  predicate IsAdapterAnswer(v: Row) { v.AdapterFrame? && "result" in v.frame }

  predicate IsReply(v: Row, request: Json) {
    v.NativeFrame? && Get(v.frame, "id") == request && "result" in v.frame
  }

  /** The first reply at or after `from`; none where `next` raises. */
  function FirstReply(rows: seq<Row>, request: Json, from: nat): (r: Result<nat>)
    ensures r.Ok? ==> from <= r.value < |rows| && IsReply(rows[r.value], request)
    ensures r.Ok? ==> forall i | from <= i < r.value :: !IsReply(rows[i], request)
    ensures r.Err? ==> forall i | from <= i < |rows| :: !IsReply(rows[i], request)
    decreases |rows| - from
  {
    if from >= |rows| then Err
    else if IsReply(rows[from], request) then Ok(from)
    else FirstReply(rows, request, from + 1)
  }

  /** The reply to the one resume request, or a raise. */
  function ResumeReply(rows: seq<Row>): (r: Result<nat>)
    ensures r.Ok? ==> r.value < |rows|
  {
    var resumes := Where(rows, IsResume, 0);
    if |resumes| != 1 then Err
    else
      WhereIsExact(rows, IsResume, 0);
      assert resumes[0] in resumes;
      var start := resumes[0];
      if "id" !in rows[start].frame then Err else FirstReply(rows, rows[start].frame["id"], start + 1)
  }

  /** `trace_slice`: the rows between the reply and the one turn start after it, or a raise. */
  function TraceSlice(rows: seq<Row>): Result<seq<Row>> {
    var reply := ResumeReply(rows);
    if reply.Err? then Err
    else
      var later := rows[reply.value + 1..];
      var starts, answers := Where(later, IsStart, 0), Where(later, IsAdapterAnswer, 0);
      if |starts| != 1 || |answers| != 1 then Err
      else
        WhereIsExact(later, IsStart, 0);
        assert starts[0] in starts;
        Ok(later[..starts[0]])
  }

  /** What `no_replay` looks for in the slice: an input, or an answer that is not itself a request. */
  predicate IsReplay(v: Row) { IsStart(v) || (IsAdapterAnswer(v) && "method" !in v.frame) }

  predicate Clean(rows: seq<Row>) { forall v | v in rows :: !IsReplay(v) }

  predicate NoReplay(rows: seq<Row>) { TraceSlice(rows).Ok? && Clean(TraceSlice(rows).value) }

  // ----------------------------------------------------------------- soundness

  /** The rows after the reply. */
  function AfterReply(rows: seq<Row>, reply: nat): seq<Row>
    requires reply < |rows|
  {
    rows[reply + 1..]
  }

  /** After the reply: one turn start at `s`, one adapter answer at `a`, and `a` is not a plain answer
      before the start. */
  ghost predicate OneInputOneAnswer(rows: seq<Row>, reply: nat, s: nat, a: nat) {
    && reply < |rows| && OnlyAt(AfterReply(rows, reply), IsStart, s) && OnlyAt(AfterReply(rows, reply), IsAdapterAnswer, a)
    && (a < s ==> "method" in AfterReply(rows, reply)[a].frame)
  }

  lemma PinnedPasses(rows: seq<Row>, reply: nat, s: nat, a: nat)
    requires ResumeReply(rows) == Ok(reply) && OneInputOneAnswer(rows, reply, s, a)
    ensures NoReplay(rows)
  {
    var later := AfterReply(rows, reply);
    OnlyIsListed(later, IsStart, s);
    OnlyIsListed(later, IsAdapterAnswer, a);
    assert TraceSlice(rows) == Ok(later[..s]);
    forall i | 0 <= i < s ensures !IsReplay(later[..s][i]) {
      assert later[..s][i] == later[i];
      assert !IsStart(later[i]);
      assert IsAdapterAnswer(later[i]) ==> i == a;
    }
  }

  lemma PassingIsPinned(rows: seq<Row>, reply: nat)
    requires ResumeReply(rows) == Ok(reply) && NoReplay(rows)
    ensures exists s: nat, a: nat :: OneInputOneAnswer(rows, reply, s, a)
  {
    var later := AfterReply(rows, reply);
    var starts, answers := Where(later, IsStart, 0), Where(later, IsAdapterAnswer, 0);
    assert starts == [starts[0]] && answers == [answers[0]];
    var s, a := starts[0], answers[0];
    OnlyIsListed(later, IsStart, s);
    OnlyIsListed(later, IsAdapterAnswer, a);
    if a < s {
      assert later[..s][a] == later[a] && later[..s][a] in later[..s];
    }
    assert OneInputOneAnswer(rows, reply, s, a);
  }

  /** The check passes exactly when the resume was answered and what follows is one input, one adapter
      answer, and no plain answer before the input. */
  lemma NoReplayIsExact(rows: seq<Row>)
    ensures NoReplay(rows) <==>
            exists reply: nat, s: nat, a: nat :: ResumeReply(rows) == Ok(reply) && OneInputOneAnswer(rows, reply, s, a)
  {
    if NoReplay(rows) {
      PassingIsPinned(rows, ResumeReply(rows).value);
    }
    if reply: nat, s: nat, a: nat :| ResumeReply(rows) == Ok(reply) && OneInputOneAnswer(rows, reply, s, a) {
      PinnedPasses(rows, reply, s, a);
    }
  }

  /** The adapter sends this method. */
  predicate Sends(v: Row, name: string) { v.AdapterFrame? && "method" in v.frame && v.frame["method"] == Str(name) }

  predicate SendsInput(v: Row) { Sends(v, "turn/start") || Sends(v, "turn/steer") }

  predicate SendsResult(v: Row) { v.AdapterFrame? && "result" in v.frame }

  /** The native answers this request. */
  predicate Replies(v: Row, id: Json) { v.NativeFrame? && Get(v.frame, "id") == id && "result" in v.frame }

  /** One resume, at `q`, whose first reply is at `p`. */
  ghost predicate RepliedAt(rows: seq<Row>, q: nat, p: nat) {
    && q < p < |rows| && Sends(rows[q], "thread/resume")
    && (forall i | 0 <= i < |rows| && Sends(rows[i], "thread/resume") :: i == q)
    && "id" in rows[q].frame && Replies(rows[p], rows[q].frame["id"])
    && forall i | q < i < p :: !Replies(rows[i], rows[q].frame["id"])
  }

  /** After `p`: one input, at `s`, and one result of the adapter's, at `a`, which has a method too if it comes
      before the input. */
  ghost predicate ResumedOnce(rows: seq<Row>, p: nat, s: nat, a: nat) {
    && p < s < |rows| && p < a < |rows|
    && SendsInput(rows[s]) && (forall i | p < i < |rows| && SendsInput(rows[i]) :: i == s)
    && SendsResult(rows[a]) && (forall i | p < i < |rows| && SendsResult(rows[i]) :: i == a)
    && (a < s ==> "method" in rows[a].frame)
  }

  lemma ReplyIsAt(rows: seq<Row>, p: nat)
    ensures ResumeReply(rows) == Ok(p) <==> exists q: nat :: RepliedAt(rows, q, p)
  {
    hide Where;
    var resumes := Where(rows, IsResume, 0);
    FramesByName();
    if ResumeReply(rows) == Ok(p) {
      assert resumes == [resumes[0]];
      OnlyIsListed(rows, IsResume, resumes[0]);
      assert RepliedAt(rows, resumes[0], p);
    }
    if exists q: nat :: RepliedAt(rows, q, p) {
      var q: nat :| RepliedAt(rows, q, p);
      OnlyIsListed(rows, IsResume, q);
    }
  }

  lemma FramesByName()
    ensures forall v :: IsResume(v) <==> Sends(v, "thread/resume")
    ensures forall v :: IsStart(v) <==> SendsInput(v)
    ensures forall v :: IsAdapterAnswer(v) <==> SendsResult(v)
    ensures forall v, id :: IsReply(v, id) <==> Replies(v, id)
  {}

  lemma AfterReplyIsLater(rows: seq<Row>, p: nat, s: nat, a: nat)
    requires p < s && p < a && p < |rows|
    ensures OneInputOneAnswer(rows, p, s - p - 1, a - p - 1) <==> ResumedOnce(rows, p, s, a)
  {
    hide IsStart, IsAdapterAnswer, SendsInput, SendsResult;
    FramesByName();
    var later := AfterReply(rows, p);
    assert forall i | 0 <= i < |later| :: later[i] == rows[p + 1 + i];
    assert forall i | p < i < |rows| :: rows[i] == later[i - p - 1];
  }

  /** The whole check over the wire: one resume, its reply, then one input and one adapter answer, in any order
      unless the answer is a plain one. */
  lemma NoReplayMeans(rows: seq<Row>)
    ensures NoReplay(rows) <==>
            exists q: nat, p: nat, s: nat, a: nat :: RepliedAt(rows, q, p) && ResumedOnce(rows, p, s, a)
  {
    hide NoReplay, ResumeReply, OneInputOneAnswer, RepliedAt, ResumedOnce;
    NoReplayIsExact(rows);
    if NoReplay(rows) {
      var p: nat, s: nat, a: nat :| ResumeReply(rows) == Ok(p) && OneInputOneAnswer(rows, p, s, a);
      ReplyIsAt(rows, p);
      var q: nat :| RepliedAt(rows, q, p);
      AfterReplyIsLater(rows, p, s + p + 1, a + p + 1);
      assert ResumedOnce(rows, p, s + p + 1, a + p + 1);
    }
    if exists q: nat, p: nat, s: nat, a: nat :: RepliedAt(rows, q, p) && ResumedOnce(rows, p, s, a) {
      var q: nat, p: nat, s: nat, a: nat :| RepliedAt(rows, q, p) && ResumedOnce(rows, p, s, a);
      ReplyIsAt(rows, p);
      InputIsLater(rows, p, s, a);
      AfterReplyIsLater(rows, p, s, a);
    }
  }

  lemma InputIsLater(rows: seq<Row>, p: nat, s: nat, a: nat)
    requires ResumedOnce(rows, p, s, a)
    ensures p < s < |rows| && p < a
  {}

  /** A frame that answers the native and asks it something as well. */
  predicate IsMixed(v: Row) { IsAdapterAnswer(v) && "method" in v.frame }

  /** In a window that passes, the answer comes after the input exactly when no frame up to and including
      the input is mixed: so a second input, and a spent approval answered before it, are refused. */
  lemma AnswerFollowsInput(rows: seq<Row>, reply: nat, s: nat, a: nat)
    requires ResumeReply(rows) == Ok(reply) && OneInputOneAnswer(rows, reply, s, a)
    ensures NoReplay(rows)
    ensures s < a <==> forall i | 0 <= i <= s :: !IsMixed(AfterReply(rows, reply)[i])
  {
    hide ResumeReply, NoReplay;
    PinnedPasses(rows, reply, s, a);
    var later := AfterReply(rows, reply);
    assert "method" in later[s].frame;
    if a <= s {
      assert IsMixed(later[a]);
    }
  }

  /** An answer that is also a request passes ahead of the input: the resume, its reply, such a frame,
      and the turn start. */
  lemma MixedFrameEscapes(resume: Row, reply: Row, mixed: Row, start: Row)
    requires IsResume(resume) && "id" in resume.frame && !IsAdapterAnswer(resume)
    requires IsReply(reply, resume.frame["id"])
    requires IsMixed(mixed) && !IsStart(mixed) && !IsResume(mixed)
    requires IsStart(start) && !IsAdapterAnswer(start) && !IsResume(start)
    ensures NoReplay([resume, reply, mixed, start]) && OneInputOneAnswer([resume, reply, mixed, start], 1, 1, 0)
  {
    hide IsStart, IsAdapterAnswer;
    var rows := [resume, reply, mixed, start];
    assert !IsResume(reply);
    assert OnlyAt(rows, IsResume, 0);
    OnlyIsListed(rows, IsResume, 0);
    assert ResumeReply(rows) == Ok(1);
    assert AfterReply(rows, 1) == [mixed, start];
    assert OneInputOneAnswer(rows, 1, 1, 0);
    PinnedPasses(rows, 1, 1, 0);
  }

  /** So does a turn start that carries a result: it is its own answer. */
  lemma AnsweringStartEscapes(resume: Row, reply: Row, start: Row)
    requires IsResume(resume) && "id" in resume.frame && !IsAdapterAnswer(resume)
    requires IsReply(reply, resume.frame["id"])
    requires IsStart(start) && IsMixed(start) && !IsResume(start)
    ensures NoReplay([resume, reply, start]) && OneInputOneAnswer([resume, reply, start], 1, 0, 0)
  {
    hide IsStart, IsAdapterAnswer;
    var rows := [resume, reply, start];
    assert !IsResume(reply);
    assert OnlyAt(rows, IsResume, 0);
    OnlyIsListed(rows, IsResume, 0);
    assert ResumeReply(rows) == Ok(1);
    assert AfterReply(rows, 1) == [start];
    assert OneInputOneAnswer(rows, 1, 0, 0);
    PinnedPasses(rows, 1, 0, 0);
  }

  const RESUME_FRAME: Row := AdapterFrame(map["id" := Null, "method" := Str("thread/resume")])
  const REPLY_FRAME: Row := NativeFrame(map["id" := Null, "result" := Null])
  const MIXED_FRAME: Row := AdapterFrame(map["method" := Str(""), "result" := Null])
  const START_FRAME: Row := AdapterFrame(map["method" := Str("turn/start")])
  const ANSWERING_START: Row := AdapterFrame(map["method" := Str("turn/start"), "result" := Null])

  /** Logs of both shapes: they pass, with the answer not after the input. */
  lemma SuchFramesExist()
    ensures NoReplay([RESUME_FRAME, REPLY_FRAME, MIXED_FRAME, START_FRAME])
    ensures OneInputOneAnswer([RESUME_FRAME, REPLY_FRAME, MIXED_FRAME, START_FRAME], 1, 1, 0)
    ensures NoReplay([RESUME_FRAME, REPLY_FRAME, ANSWERING_START])
    ensures OneInputOneAnswer([RESUME_FRAME, REPLY_FRAME, ANSWERING_START], 1, 0, 0)
  {
    hide NoReplay, OneInputOneAnswer, IsMixed, IsStart, IsResume, IsReply, IsAdapterAnswer;
    FramesAreOfTheirKinds();
    MixedFrameEscapes(RESUME_FRAME, REPLY_FRAME, MIXED_FRAME, START_FRAME);
    AnsweringStartEscapes(RESUME_FRAME, REPLY_FRAME, ANSWERING_START);
  }

  lemma FramesAreOfTheirKinds()
    ensures IsResume(RESUME_FRAME) && "id" in RESUME_FRAME.frame && !IsAdapterAnswer(RESUME_FRAME)
    ensures IsReply(REPLY_FRAME, RESUME_FRAME.frame["id"])
    ensures IsMixed(MIXED_FRAME) && !IsStart(MIXED_FRAME) && !IsResume(MIXED_FRAME)
    ensures IsStart(START_FRAME) && !IsAdapterAnswer(START_FRAME) && !IsResume(START_FRAME)
    ensures IsStart(ANSWERING_START) && IsMixed(ANSWERING_START) && !IsResume(ANSWERING_START)
  {
    assert "turn/start"[1] == 'u' && "thread/resume"[1] == 'h';
    assert |""| == 0 && |"turn/steer"| == 10 && |"turn/start"| == 10 && |"thread/resume"| == 13;
  }
}
