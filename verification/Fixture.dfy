/** The fixture as it runs: handler threads and the runner interleave the provider's atomic steps
    in any order. The history each run leaves is compared with what the recount reads. */
module Fixture {
  import opened Option
  import opened ProviderSpec
  import opened Discipline
  import opened Timeline
  import Listing

  /** Where the handler of one logged request stands. A refused handler raised inside `_respond`
      after its row; a lost one died after it returned. Neither writes a row. */
  datatype Status = Writing | Responded | Closed | Refused | Lost

  /** One successful `mark`: its label, the count it returned, and its row. */
  datatype Stage = Stage(name: string, returned: nat, at: nat)

  datatype Sys = Sys(p: State, handlers: seq<Status>, stages: seq<Stage>)

  datatype Event =
    | Queued(title: string, steps: seq<Step>, finalText: string, token: string)
    | Arrived(request: Request)
    | Wrote(sequence: nat)
    | ClientGone(sequence: nat)
    | HandlerLost(sequence: nat)
    | Marked(stage: string)
    | Abandoned

  function Start(env: Env, h: Harness): Sys { Sys(Initial(env, h), [], []) }

  predicate IsWriting(sys: Sys, n: nat) { 1 <= n <= |sys.handlers| && sys.handlers[n - 1].Writing? }

  ghost predicate Can(sys: Sys, e: Event) {
    match e
    case Queued(_, _, _, token) => FreshToken(sys.p, token)
    case Wrote(n) => IsWriting(sys, n)
    case ClientGone(n) => IsWriting(sys, n)
    case HandlerLost(n) => IsWriting(sys, n)
    case _ => true
  }

  /** One atomic step. The turn discipline holds again after it, whatever the step. */
  ghost function Next(sys: Sys, e: Event): (r: Sys)
    requires Inv(sys.p) && Can(sys, e)
    ensures Inv(r.p)
    ensures e.Abandoned? ==> r == sys.(p := sys.p.(active := None, queued := []))
  {
    match e
    case Queued(title, steps, finalText, token) =>
      QueueTurnKeepsInv(sys.p, title, steps, finalText, token);
      sys.(p := QueueTurn(sys.p, title, steps, finalText, token))
    case Arrived(request) =>
      RespondKeepsInv(sys.p, request);
      var (p, outcome) := Respond(sys.p, request);
      Sys(p, sys.handlers + (if outcome.Answer? then [Writing] else if |p.requests| > |sys.p.requests| then [Refused] else []),
          sys.stages)
    case Wrote(n) =>
      InvIgnoresLogs(sys.p, RecordAnswer(sys.p, n, false));
      sys.(p := RecordAnswer(sys.p, n, false), handlers := sys.handlers[n - 1 := Responded])
    case ClientGone(n) =>
      InvIgnoresLogs(sys.p, RecordAnswer(sys.p, n, true));
      sys.(p := RecordAnswer(sys.p, n, true), handlers := sys.handlers[n - 1 := Closed])
    case HandlerLost(n) => sys.(handlers := sys.handlers[n - 1 := Lost])
    case Marked(stage) =>
      var (p, count) := Mark(sys.p, stage);
      InvIgnoresLogs(sys.p, p);
      sys.(p := p, stages := sys.stages + if count.Ok? then [Stage(stage, count.value, |sys.p.timeline|)] else [])
    case Abandoned =>
      AbandonKeepsInv(sys.p);
      sys.(p := Abandon(sys.p))
  }

  ghost predicate Possible(sys: Sys, events: seq<Event>)
    requires Inv(sys.p)
    decreases |events|
  {
    events != [] ==> Can(sys, events[0]) && Possible(Next(sys, events[0]), events[1..])
  }

  ghost function Exec(sys: Sys, events: seq<Event>): (r: Sys)
    requires Inv(sys.p) && Possible(sys, events)
    ensures Inv(r.p)
    decreases |events|
  {
    if events == [] then sys else Exec(Next(sys, events[0]), events[1..])
  }

  /** Mark a label, then run these events. */
  ghost predicate CanRunAfter(sys: Sys, stage: string, events: seq<Event>) {
    Inv(sys.p) && Possible(Next(sys, Marked(stage)), events)
  }

  ghost function RunAfter(sys: Sys, stage: string, events: seq<Event>): (r: Sys)
    requires CanRunAfter(sys, stage, events)
    ensures Inv(r.p)
  {
    Exec(Next(sys, Marked(stage)), events)
  }

  // ------------------------------------------------------------- the history

  predicate IsCalled(stage: Stage, name: string) { stage.name == name }

  function StageHits(stages: seq<Stage>, name: string): seq<nat> {
    if stages == [] then []
    else (if IsCalled(stages[0], name) then [stages[0].at] else []) + StageHits(stages[1..], name)
  }

  /** The marks of one label, in order. */
  function MarksOf(stages: seq<Stage>, name: string): seq<Stage> {
    if stages == [] then []
    else (if IsCalled(stages[0], name) then [stages[0]] else []) + MarksOf(stages[1..], name)
  }

  /** Answer rows are exactly the handlers' ends: never both kinds for one request. */
  ghost predicate AnswersRecorded(sys: Sys) {
    && |sys.handlers| == |sys.p.requests|
    && (forall n: int :: RespondedAt(n) in sys.p.timeline <==> 1 <= n <= |sys.handlers| && sys.handlers[n - 1].Responded?)
    && (forall n: int :: ClosedAt(n) in sys.p.timeline <==> 1 <= n <= |sys.handlers| && sys.handlers[n - 1].Closed?)
  }

  predicate IsAnswerRow(row: Row) { row.RespondedAt? || row.ClosedAt? }

  /** No answer row occurs twice, and each stands after the row of the request it answers. */
  ghost predicate AnswersInPlace(sys: Sys) {
    && (forall i, j | 0 <= i < j < |sys.p.timeline| && IsAnswerRow(sys.p.timeline[i]) :: sys.p.timeline[i] != sys.p.timeline[j])
    && (forall i | 0 <= i < |sys.p.timeline| && IsAnswerRow(sys.p.timeline[i]) ::
          1 <= sys.p.timeline[i].index <= CountRequests(sys.p.timeline[..i]))
  }

  ghost predicate StagesRecorded(sys: Sys) {
    && (forall name: string :: Hits(sys.p.timeline, name) == StageHits(sys.stages, name))
    && (forall k | 0 <= k < |sys.stages| ::
          && sys.stages[k].at < |sys.p.timeline|
          && sys.stages[k].returned == CountRequests(sys.p.timeline[..sys.stages[k].at]))
  }

  ghost predicate History(sys: Sys) {
    && Inv(sys.p)
    && RequestIndexes(sys.p.timeline) == OneTo(|sys.p.requests|)
    && AnswersRecorded(sys) && AnswersInPlace(sys) && StagesRecorded(sys)
  }

  /** A request adds one row at the end of the log, its own, and its number, or is refused with no trace in
      the logs; nothing logged before is touched. */
  lemma RespondLogs(s: State, req: Request)
    requires Inv(s)
    ensures var (r, o) := Respond(s, req);
            if |r.requests| == |s.requests| then o.Raised? && r.requests == s.requests && r.timeline == s.timeline
            else |r.requests| == |s.requests| + 1 && s.requests <= r.requests
                 && r.timeline == s.timeline + [RequestAt(|r.requests|)]
                 && (o.Answer? ==> o.sequence == |r.requests|)
                 && var row := r.requests[|s.requests|];
                    && row.path == req.path && row.tools == req.tools && row.fingerprint == req.fingerprint
                    && forall x :: x in row.outputs <==> x in req.outputs && x.callId in s.calls
  {
    hide TurnsOk, CallsOk, TokensOk, ScheduleOk, Linked, Absorb, Dispatch;
    var a := Advertise(s, req.tools);
    var known := Known(s.calls.Keys, req.outputs);
    LinksIgnoreLogs(s, a);
    LinksIgnoreLogs(Absorb(a, known).0, Arrive(Absorb(a, known).0, req, known));
  }

  /** A label is marked exactly when it is one nonempty line: its row goes at the end of the timeline, and the
      count of the requests so far comes back. */
  lemma MarkTakesOneLine(s: State, stage: string)
    ensures var (r, count) := Mark(s, stage);
            if stage != "" && forall i | 0 <= i < |stage| :: stage[i] != '\n' && stage[i] != '\r'
            then r == s.(timeline := s.timeline + [Marker(stage)]) && count == Ok(|s.requests|)
            else r == s && count == Err
  {
    assert forall i | 0 <= i < |stage| :: stage[i] in stage;
  }

  lemma {:induction false} StageHitsOfConcat(a: seq<Stage>, b: seq<Stage>, name: string)
    ensures StageHits(a + b, name) == StageHits(a, name) + StageHits(b, name)
  {
    hide IsCalled;
    if a == [] {
      assert a + b == b;
    } else {
      assert (a + b)[0] == a[0] && (a + b)[1..] == a[1..] + b;
      StageHitsOfConcat(a[1..], b, name);
      var head := if IsCalled(a[0], name) then [a[0].at] else [];
      assert StageHits(a + b, name) == head + StageHits(a[1..] + b, name);
      Listing.Associative(head, StageHits(a[1..], name), StageHits(b, name));
    }
  }

  lemma {:induction false} MarksOfConcat(a: seq<Stage>, b: seq<Stage>, name: string)
    ensures MarksOf(a + b, name) == MarksOf(a, name) + MarksOf(b, name)
  {
    hide IsCalled;
    if a == [] {
      assert a + b == b;
    } else {
      assert (a + b)[0] == a[0] && (a + b)[1..] == a[1..] + b;
      MarksOfConcat(a[1..], b, name);
      var head := if IsCalled(a[0], name) then [a[0]] else [];
      assert MarksOf(a + b, name) == head + MarksOf(a[1..] + b, name);
      Listing.Associative(head, MarksOf(a[1..], name), MarksOf(b, name));
    }
  }

  /** One more timeline row, and perhaps one more stage standing on it. */
  lemma StagesAfterRow(sys: Sys, r: Sys, row: Row, stages: seq<Stage>)
    requires StagesRecorded(sys) && r.p.timeline == sys.p.timeline + [row] && r.stages == sys.stages + stages
    requires if row.Marker? then stages == [Stage(row.stage, CountRequests(sys.p.timeline), |sys.p.timeline|)] else stages == []
    ensures StagesRecorded(r)
  {
    forall name: string ensures Hits(r.p.timeline, name) == StageHits(r.stages, name) {
      Listing.WhereOfConcat(sys.p.timeline, [row], IsMarker(name), 0);
      StageHitsOfConcat(sys.stages, stages, name);
    }
    forall k | 0 <= k < |r.stages|
      ensures r.stages[k].at < |r.p.timeline| && r.stages[k].returned == CountRequests(r.p.timeline[..r.stages[k].at])
    {
      if k < |sys.stages| {
        assert r.p.timeline[..r.stages[k].at] == sys.p.timeline[..sys.stages[k].at];
      } else {
        assert r.p.timeline[..|sys.p.timeline|] == sys.p.timeline;
      }
    }
  }

  lemma AnswersAfterRow(sys: Sys, r: Sys, row: Row)
    requires AnswersInPlace(sys) && r.p.timeline == sys.p.timeline + [row]
    requires IsAnswerRow(row) ==> row !in sys.p.timeline && 1 <= row.index <= CountRequests(sys.p.timeline)
    ensures AnswersInPlace(r)
  {
    hide CountRequests;
    var n := |sys.p.timeline|;
    assert r.p.timeline[..n] == sys.p.timeline;
    assert forall i | 0 <= i < n :: r.p.timeline[i] == sys.p.timeline[i] && r.p.timeline[..i] == sys.p.timeline[..i];
  }

  lemma ArrivalKeepsHistory(sys: Sys, request: Request)
    requires History(sys)
    ensures History(Next(sys, Arrived(request)))
    ensures Extends(sys, Next(sys, Arrived(request)))
  {
    hide Inv, Linked, Respond, RequestIndexes, StagesRecorded, AnswersInPlace;
    InvLinks(sys.p);
    var r := Next(sys, Arrived(request));
    RespondLogs(sys.p, request);
    if |r.p.requests| > |sys.p.requests| {
      RowIsNumbered(sys.p, r.p);
      StagesAfterRow(sys, r, RequestAt(|r.p.requests|), []);
      AnswersAfterRow(sys, r, RequestAt(|r.p.requests|));
    } else {
      StagesOfRows(sys, r);
    }
  }

  lemma RowIsNumbered(s: State, r: State)
    requires RequestIndexes(s.timeline) == OneTo(|s.requests|)
    requires |r.requests| == |s.requests| + 1 && r.timeline == s.timeline + [RequestAt(|r.requests|)]
    ensures RequestIndexes(r.timeline) == OneTo(|r.requests|)
  {
    RequestIndexesOfConcat(s.timeline, [RequestAt(|r.requests|)]);
  }

  lemma RowAddsNoRequest(rows: seq<Row>, row: Row)
    requires !row.RequestAt?
    ensures RequestIndexes(rows + [row]) == RequestIndexes(rows)
  {
    RequestIndexesOfConcat(rows, [row]);
  }

  /** Stages and answers are read off the timeline, the stages and the handlers alone. */
  lemma StagesOfRows(sys: Sys, r: Sys)
    requires r.p.timeline == sys.p.timeline && r.stages == sys.stages
    ensures StagesRecorded(r) <==> StagesRecorded(sys)
    ensures AnswersInPlace(r) <==> AnswersInPlace(sys)
  {
    hide RequestIndexes, CountRequests, Hits, StageHits;
  }

  lemma AnswerKeepsHistory(sys: Sys, n: nat, closed: bool)
    requires History(sys) && IsWriting(sys, n)
    ensures var r := Next(sys, if closed then ClientGone(n) else Wrote(n)); History(r) && Extends(sys, r)
  {
    hide Inv, RequestIndexes, StagesRecorded, AnswersInPlace, AnswersRecorded;
    var r := Next(sys, if closed then ClientGone(n) else Wrote(n));
    var row := if closed then ClosedAt(n) else RespondedAt(n);
    assert r.p.timeline == sys.p.timeline + [row];
    RowAddsNoRequest(sys.p.timeline, row);
    EndIsRecorded(sys, r, n, closed);
    StagesAfterRow(sys, r, row, []);
    AnswersAfterRow(sys, r, row);
  }

  /** One handler ends: its row is new, and answers stay exactly the handlers' ends. */
  lemma EndIsRecorded(sys: Sys, r: Sys, n: nat, closed: bool)
    requires AnswersRecorded(sys) && IsWriting(sys, n) && RequestIndexes(sys.p.timeline) == OneTo(|sys.p.requests|)
    requires r.p.timeline == sys.p.timeline + [if closed then ClosedAt(n) else RespondedAt(n)]
    requires r.p.requests == sys.p.requests && r.handlers == sys.handlers[n - 1 := if closed then Closed else Responded]
    ensures AnswersRecorded(r)
    ensures var row := if closed then ClosedAt(n) else RespondedAt(n);
            row !in sys.p.timeline && 1 <= row.index <= CountRequests(sys.p.timeline)
  {
    hide RequestIndexes;
  }

  lemma MarkKeepsHistory(sys: Sys, stage: string)
    requires History(sys)
    ensures History(Next(sys, Marked(stage))) && Extends(sys, Next(sys, Marked(stage)))
  {
    hide Inv, RequestIndexes, StagesRecorded, AnswersInPlace, OneLine;
    var r := Next(sys, Marked(stage));
    if OneLine(stage) {
      RowAddsNoRequest(sys.p.timeline, Marker(stage));
      StagesAfterRow(sys, r, Marker(stage), [Stage(stage, |sys.p.requests|, |sys.p.timeline|)]);
      AnswersAfterRow(sys, r, Marker(stage));
    } else {
      assert sys.stages + [] == sys.stages;
      StagesOfRows(sys, r);
    }
  }

  ghost predicate Extends(sys: Sys, r: Sys) {
    sys.p.timeline <= r.p.timeline && sys.stages <= r.stages
  }

  lemma NextKeepsHistory(sys: Sys, e: Event)
    requires History(sys) && Can(sys, e)
    ensures History(Next(sys, e)) && Extends(sys, Next(sys, e))
  {
    hide Inv, Respond, RequestIndexes, StagesRecorded, AnswersInPlace;
    match e
    case Arrived(request) => ArrivalKeepsHistory(sys, request);
    case Wrote(n) => AnswerKeepsHistory(sys, n, false);
    case ClientGone(n) => AnswerKeepsHistory(sys, n, true);
    case Marked(stage) => MarkKeepsHistory(sys, stage);
    case _ => StagesOfRows(sys, Next(sys, e));
  }

  /** Every run keeps the history and only appends to it. */
  lemma {:induction false} ExecKeepsHistory(sys: Sys, events: seq<Event>)
    requires History(sys) && Possible(sys, events)
    ensures History(Exec(sys, events)) && Extends(sys, Exec(sys, events))
    decreases |events|
  {
    hide History, Inv, Next, Can;
    HistoryHasInv(sys);
    if events == [] {
    } else {
      NextKeepsHistory(sys, events[0]);
      ExecKeepsHistory(Next(sys, events[0]), events[1..]);
    }
  }

  lemma HistoryHasInv(sys: Sys)
    requires History(sys)
    ensures Inv(sys.p)
  {
    hide Inv;
  }

  lemma StartHistory(env: Env, h: Harness)
    ensures History(Start(env, h))
  {
    InitialInv(env, h);
  }

  // -------------------------------------------------------------- the recount

  /** Over every run from the start: the timeline lists its own requests, each request has at most one
      answer row, of one kind and after its own row, and every turn is disciplined. */
  lemma EveryRunIsRecounted(env: Env, h: Harness, events: seq<Event>)
    requires Inv(Start(env, h).p) && Possible(Start(env, h), events)
    ensures var sys := Exec(Start(env, h), events);
            && History(sys)
            && ProviderTimeline(LogOf(sys.p)) == Ok(sys.p.timeline)
            && (forall n: int :: !(RespondedAt(n) in sys.p.timeline && ClosedAt(n) in sys.p.timeline))
            && (forall i, j | 0 <= i < j < |sys.p.timeline| :: sys.p.timeline[i] == sys.p.timeline[j] ==>
                  !sys.p.timeline[i].RespondedAt? && !sys.p.timeline[i].ClosedAt?)
            && (forall i | 0 <= i < |sys.p.timeline| && (sys.p.timeline[i].RespondedAt? || sys.p.timeline[i].ClosedAt?) ::
                  1 <= sys.p.timeline[i].index <= CountRequests(sys.p.timeline[..i]))
  {
    hide Inv, Exec, Possible, RequestIndexes, CountRequests, StagesRecorded, AnswersInPlace;
    StartHistory(env, h);
    ExecKeepsHistory(Start(env, h), events);
    AnswersAreInPlace(Exec(Start(env, h), events));
  }

  lemma AnswersAreInPlace(sys: Sys)
    requires AnswersInPlace(sys)
    ensures forall i, j | 0 <= i < j < |sys.p.timeline| :: sys.p.timeline[i] == sys.p.timeline[j] ==>
              !sys.p.timeline[i].RespondedAt? && !sys.p.timeline[i].ClosedAt?
    ensures forall i | 0 <= i < |sys.p.timeline| && (sys.p.timeline[i].RespondedAt? || sys.p.timeline[i].ClosedAt?) ::
              1 <= sys.p.timeline[i].index <= CountRequests(sys.p.timeline[..i])
  {
    hide CountRequests;
  }

  /** An answered request's handler can write its answer or find its client gone, and then neither again: one
      row of its kind, with its number, stands behind every other. */
  lemma HandlerEndsOnce(sys: Sys, request: Request, closed: bool)
    requires History(sys) && Linked(sys.p) && Respond(sys.p, request).1.Answer?
    ensures var r, n := Next(sys, Arrived(request)), Respond(sys.p, request).1.sequence;
            var e := if closed then ClientGone(n) else Wrote(n);
            && Can(r, e)
            && Next(r, e).p.timeline == r.p.timeline + [if closed then ClosedAt(n) else RespondedAt(n)]
            && !Can(Next(r, e), Wrote(n)) && !Can(Next(r, e), ClientGone(n)) && !Can(Next(r, e), HandlerLost(n))
  {
    hide Inv, Linked, Respond, RequestIndexes, StagesRecorded, AnswersInPlace;
    RespondLogs(sys.p, request);
  }

  /** In every state any run reaches, each turn has at most one call without a result, never more calls
      than steps, its results in step order, a result recorded for exactly the calls before its last
      result, and a final item only when every step was called and answered. */
  lemma EveryTurnIsDisciplined(env: Env, h: Harness, events: seq<Event>, t: nat)
    requires Inv(Start(env, h).p) && Possible(Start(env, h), events)
    requires t < |Exec(Start(env, h), events).p.turns|
    ensures var s := Exec(Start(env, h), events).p;
            var u := s.turns[t];
            && |u.results| <= |u.issued| <= |u.results| + 1 && |u.issued| <= |u.steps|
            && (u.finalEmitted ==> |u.results| == |u.issued| == |u.steps|)
            && (forall i | 0 <= i < |u.results| :: u.results[i].step == i && u.results[i].shell == u.steps[i].Shell?)
            && (forall i | 0 <= i < |u.issued| ::
                  u.issued[i] in s.calls && s.calls[u.issued[i]].turn == t && s.calls[u.issued[i]].index == i
                  && (s.calls[u.issued[i]].result.None? <==> i >= |u.results|))
  {
    hide Inv, TurnsOk, CallsOk, TurnOk, IssuedOk, ResultOk, Exec, Possible, CallId, Receipt;
    var s := Exec(Start(env, h), events).p;
    InvLinks(s);
    TurnIsOk(s, t);
    TurnLengths(s, t);
    forall i | 0 <= i < |s.turns[t].results|
      ensures s.turns[t].results[i].step == i && s.turns[t].results[i].shell == s.turns[t].steps[i].Shell?
    {
      ResultIsOk(s, t, i);
      ResultIsOfItsStep(s, t, i);
    }
    forall i | 0 <= i < |s.turns[t].issued|
      ensures s.turns[t].issued[i] in s.calls
      ensures var c := s.calls[s.turns[t].issued[i]];
              c.turn == t && c.index == i && (c.result.None? <==> i >= |s.turns[t].results|)
    {
      IssuedIsOk(s, t, i);
      IssuedIsRecorded(s, t, i);
    }
  }

  lemma ResultIsOfItsStep(s: State, t: nat, i: nat)
    requires t < |s.turns| && i < |s.turns[t].results| <= |s.turns[t].steps| && ResultOk(s, t, i)
    ensures s.turns[t].results[i].step == i && s.turns[t].results[i].shell == s.turns[t].steps[i].Shell?
  {
    hide ExitCode, CallId, Receipt;
  }

  lemma {:induction false} MarksAreHits(stages: seq<Stage>, name: string)
    ensures |StageHits(stages, name)| == |MarksOf(stages, name)|
    ensures forall i | 0 <= i < |MarksOf(stages, name)| ::
              StageHits(stages, name)[i] == MarksOf(stages, name)[i].at && MarksOf(stages, name)[i] in stages
  {
    if stages == [] {
    } else {
      MarksAreHits(stages[1..], name);
    }
  }

  /** The recount's verdict is the history's: both labels marked once, the close after the open,
      the same count returned at both, and the receipt naming that count. */
  lemma ReplayWindowIsExact(sys: Sys, before: int, after: int)
    requires History(sys)
    ensures var o, c := MarksOf(sys.stages, OPEN), MarksOf(sys.stages, CLOSE);
            ReplayWindow(LogOf(sys.p), before, after) ==
            if |o| == 1 && |c| == 1
            then Ok(o[0].at < c[0].at && o[0].returned == c[0].returned == before == after)
            else Err
  {
    hide Inv, AnswersRecorded, AnswersInPlace, StagesRecorded, RequestIndexes, CountRequests, MarkerAt, MarksOf;
    var rows := sys.p.timeline;
    MarkerIsTheMark(sys, OPEN);
    MarkerIsTheMark(sys, CLOSE);
    var o, c := MarksOf(sys.stages, OPEN), MarksOf(sys.stages, CLOSE);
    if |o| == 1 && |c| == 1 && o[0].at < c[0].at {
      CountsAddUp(rows, o[0].at, c[0].at);
    }
  }

  lemma CountsAddUp(rows: seq<Row>, i: nat, j: nat)
    requires i <= j <= |rows|
    ensures CountRequests(rows[..j]) == CountRequests(rows[..i]) + CountRequests(rows[i..j])
  {
    RequestIndexesOfConcat(rows[..i], rows[i..j]);
    assert rows[..j] == rows[..i] + rows[i..j];
  }

  /** A label's marker is found exactly when it was marked once, where it was marked; the count it
      returned is the count of the requests before it. */
  lemma MarkerIsTheMark(sys: Sys, name: string)
    requires StagesRecorded(sys)
    ensures var marks := MarksOf(sys.stages, name);
            && MarkerAt(sys.p.timeline, name) == (if |marks| == 1 then Ok(marks[0].at) else Err)
            && (|marks| == 1 ==> marks[0].at < |sys.p.timeline| && marks[0].returned == CountRequests(sys.p.timeline[..marks[0].at]))
  {
    hide CountRequests, MarksOf, StageHits;
    MarksAreHits(sys.stages, name);
    var marks := MarksOf(sys.stages, name);
    assert Hits(sys.p.timeline, name) == StageHits(sys.stages, name);
    if |marks| == 1 {
      assert marks[0] in sys.stages;
    }
  }

  lemma {:induction false} OtherEventsAddNoMark(sys: Sys, events: seq<Event>, name: string)
    requires Inv(sys.p) && Possible(sys, events) && Marked(name) !in events
    ensures MarksOf(Exec(sys, events).stages, name) == MarksOf(sys.stages, name)
    decreases |events|
  {
    hide Inv, Next, Can, MarksOf;
    if events == [] {
    } else {
      var next := Next(sys, events[0]);
      assert events[0] in events;
      OtherEventAddsNoMark(sys, events[0], name);
      OtherEventsAddNoMark(next, events[1..], name);
    }
  }

  lemma OtherEventAddsNoMark(sys: Sys, e: Event, name: string)
    requires Inv(sys.p) && Can(sys, e) && e != Marked(name)
    ensures MarksOf(Next(sys, e).stages, name) == MarksOf(sys.stages, name)
  {
    hide Inv, Respond;
    if e.Marked? && OneLine(e.stage) {
      MarksOfConcat(sys.stages, [Stage(e.stage, |sys.p.requests|, |sys.p.timeline|)], name);
    } else if e.Marked? {
      assert sys.stages + [] == sys.stages;
    }
  }

  lemma OneMark(mark: Stage, name: string)
    ensures MarksOf([mark], name) == if mark.name == name then [mark] else []
  {
    assert [mark][1..] == [];
  }

  lemma MarkIsRecorded(sys: Sys, stage: string, name: string)
    requires Inv(sys.p) && OneLine(stage)
    ensures var mark := Stage(stage, |sys.p.requests|, |sys.p.timeline|);
            var r := Next(sys, Marked(stage));
            && MarksOf(r.stages, name) == MarksOf(sys.stages, name) + (if name == stage then [mark] else [])
            && r.p.timeline == sys.p.timeline + [Marker(stage)]
            && r.p.requests == sys.p.requests
  {
    hide Inv, Linked, Respond, QueueTurn, OneLine, IsCalled, MarksOf;
    OneMark(Stage(stage, |sys.p.requests|, |sys.p.timeline|), name);
    MarksOfConcat(sys.stages, [Stage(stage, |sys.p.requests|, |sys.p.timeline|)], name);
  }
}
