/** How long a script runs: one request to open it, one for each answered call, and no more; and where it
    stalls instead, at a step its harness cannot be sent. */
module RunLength {
  import opened Option
  import opened Json
  import opened Text
  import opened ProviderSpec
  import opened Discipline
  import opened Retries
  import opened Items
  import Fixture

  // ------------------------------------------------------------- tool results

  /** Each result is within the size bound, is the recorded result of its call if there is one, and is
      the only result given for its call. */
  ghost predicate Fits(s: State, outputs: seq<Output>) {
    forall x | x in outputs && x.callId in s.calls ::
      && Utf8Length(x.text) <= MAX_OUTPUT
      && (s.calls[x.callId].result.Some? ==> s.calls[x.callId].result == Some(x))
      && forall y | y in outputs && y.callId == x.callId :: y == x
  }

  /** A request's tool results are taken exactly when they fit, whoever's calls they answer: the running
      turn's, or one abandoned earlier. */
  lemma {:induction false} TakenWhenTheyFit(s: State, outputs: seq<Output>)
    requires Inv(s) && forall o | o in outputs :: o.callId in s.calls
    ensures Linked(s) && (Absorb(s, outputs).1.None? <==> Fits(s, outputs))
    decreases |outputs|
  {
    hide Inv, Linked, AbsorbOne, Utf8Length, Fits;
    InvLinks(s);
    if outputs == [] {
      NothingFits(s);
    } else {
      AbsorbOneKeepsInv(s, outputs[0]);
      OneFits(s, outputs);
      if AbsorbOne(s, outputs[0]).1.None? {
        TakenWhenTheyFit(AbsorbOne(s, outputs[0]).0, outputs[1..]);
      }
    }
  }

  lemma NothingFits(s: State)
    ensures Fits(s, [])
  {}

  lemma OneFits(s: State, outputs: seq<Output>)
    requires Inv(s) && outputs != [] && outputs[0].callId in s.calls
    ensures Linked(s) && var one := AbsorbOne(s, outputs[0]);
            Fits(s, outputs) <==> one.1.None? && Fits(one.0, outputs[1..])
  {
    hide Inv, Linked, Utf8Length, ResultOf, CallId, TurnsOk, CallsOk;
    InvLinks(s);
    UnansweredIsOutstanding(s, outputs[0].callId);
    var one := AbsorbOne(s, outputs[0]);
    assert outputs == [outputs[0]] + outputs[1..];
    assert forall x | x in outputs :: x == outputs[0] || x in outputs[1..];
    if one.1.None? {
      assert one.0.calls == s.calls[outputs[0].callId := one.0.calls[outputs[0].callId]];
      assert one.0.calls[outputs[0].callId].result == Some(outputs[0]);
    }
  }

  // ------------------------------------------------------- requests of a client

  /** A result for this call is among the request's. */
  predicate Gives(outputs: seq<Output>, c: string) { exists x :: x in outputs && x.callId == c }

  /** The request carries the result of the running turn's open call. */
  ghost predicate IsAnswer(s: State, t: nat, req: Request) {
    Running(s, t) && Gives(req.outputs, OutstandingCall(s))
  }

  /** New input while a turn waits. */
  ghost predicate IsOpening(s: State, req: Request) {
    && Fits(s, req.outputs) && s.active.None? && s.queued != [] && s.queued[0] < |s.turns|
    && (s.last.Some? ==> s.last.value < |s.turns| && s.turns[s.last.value].fingerprint != Some(req.fingerprint))
  }

  ghost predicate Running(s: State, t: nat) {
    t < |s.turns| && s.active == Some(t) && Outstanding(s) && !s.turns[t].finalEmitted
  }

  /** The turn runs, every issued call answered, and its next step cannot be sent. */
  ghost predicate Stalled(s: State, t: nat) {
    && t < |s.turns| && s.active == Some(t) && !s.turns[t].finalEmitted
    && |s.turns[t].results| == |s.turns[t].issued| < |s.turns[t].steps|
    && !Supported(s.harness, s.toolNames, s.turns[t].steps[|s.turns[t].issued|])
  }

  ghost predicate Done(s: State, t: nat) {
    t < |s.turns| && s.turns[t].finalEmitted && AllAnswered(s.turns[t])
  }

  // ---------------------------------------------------------- supported steps

  /** A step can be sent to a tool the client advertised. Codex takes an approval request through
      `exec_command` alone, and `_item` passes that tool over when another shell tool is advertised without it. */
  predicate Supported(h: Harness, names: set<string>, step: Step) {
    h.Codex? && step.Shell? && step.requireApproval ==>
      "exec_command" in names || ("shell" !in names && "shell_command" !in names)
  }

  function Advertised(s: State, req: Request): set<string> { s.toolNames + set n | n in req.tools }

  /** The running turn can go on after the answer this request carries. */
  predicate NextSupported(s: State, req: Request) {
    s.active.Some? && s.active.value < |s.turns| ==>
      var u := s.turns[s.active.value];
      var n := |u.results| + 1;
      n < |u.steps| ==> Supported(s.harness, Advertised(s, req), u.steps[n])
  }

  /** The queued turn can start on this request. */
  predicate FirstSupported(s: State, req: Request) {
    s.queued != [] && s.queued[0] < |s.turns| ==>
      var u := s.turns[s.queued[0]];
      u.steps != [] ==> Supported(s.harness, Advertised(s, req), u.steps[0])
  }

  lemma BuiltWhenSupported(env: Env, h: Harness, names: set<string>, step: Step, token: string, index: nat)
    ensures BuildItem(env, h, names, step, token, index).Some? <==> Supported(h, names, step)
  {
    hide ShellCommand, CallId, Receipt;
  }

  // ----------------------------------------------------- absorbing, turn by turn

  /** A result recorded for another turn's call leaves a turn alone. */
  lemma AbsorbOneKeepsOtherTurn(s: State, o: Output, t: nat)
    requires Inv(s) && t < |s.turns| && o.callId in s.calls
    requires var issued := s.turns[t].issued;
             |s.turns[t].results| == |issued| || (issued != [] && o.callId != issued[|issued| - 1])
    ensures Linked(s) && |AbsorbOne(s, o).0.turns| == |s.turns| && AbsorbOne(s, o).0.turns[t] == s.turns[t]
  {
    hide TurnsOk, CallsOk, TokensOk, ScheduleOk, Linked, ResultOf, Utf8Length, CallId;
    UnansweredIsOutstanding(s, o.callId);
  }

  lemma {:induction false} AbsorbKeepsQuietTurn(s: State, outputs: seq<Output>, t: nat)
    requires Inv(s) && t < |s.turns| && |s.turns[t].results| == |s.turns[t].issued|
    requires forall o | o in outputs :: o.callId in s.calls
    ensures Linked(s) && |Absorb(s, outputs).0.turns| == |s.turns| && Absorb(s, outputs).0.turns[t] == s.turns[t]
    decreases |outputs|
  {
    hide Inv, AbsorbOne, Linked;
    InvLinks(s);
    if outputs == [] {
    } else {
      AbsorbOneKeepsInv(s, outputs[0]);
      AbsorbOneKeepsOtherTurn(s, outputs[0], t);
      var one := AbsorbOne(s, outputs[0]);
      if one.1.None? {
        AbsorbKeepsQuietTurn(one.0, outputs[1..], t);
      }
    }
  }

  /** What a taken request does to a turn with an open call: the call's result, if it is among them. */
  ghost predicate Receives(u: Turn, r: Turn, given: bool) {
    r == u.(results := r.results) && |r.results| == |u.results| + (if given then 1 else 0) && u.results <= r.results
  }

  lemma {:induction false} AbsorbAnswersOpenCall(s: State, outputs: seq<Output>, t: nat)
    requires Inv(s) && t < |s.turns| && |s.turns[t].issued| == |s.turns[t].results| + 1
    requires forall o | o in outputs :: o.callId in s.calls
    requires Linked(s) && Absorb(s, outputs).1.None?
    ensures var r := Absorb(s, outputs).0;
            |r.turns| == |s.turns| && Receives(s.turns[t], r.turns[t], Gives(outputs, s.turns[t].issued[|s.turns[t].issued| - 1]))
    decreases |outputs|
  {
    hide Inv, AbsorbOne, Linked;
    var c := s.turns[t].issued[|s.turns[t].issued| - 1];
    if outputs == [] {
    } else {
      var o, one, rest := outputs[0], AbsorbOne(s, outputs[0]), outputs[1..];
      AbsorbOneKeepsInv(s, o);
      assert outputs == [o] + rest;
      if o.callId == c {
        OpenCallIsAnswered(s, o, t);
        AbsorbKeepsQuietTurn(one.0, rest, t);
      } else {
        AbsorbOneKeepsOtherTurn(s, o, t);
        AbsorbAnswersOpenCall(one.0, rest, t);
        assert Gives(outputs, c) <==> Gives(rest, c);
      }
    }
  }

  lemma OpenCallIsAnswered(s: State, o: Output, t: nat)
    requires Inv(s) && t < |s.turns| && |s.turns[t].issued| == |s.turns[t].results| + 1
    requires o.callId == s.turns[t].issued[|s.turns[t].issued| - 1] && o.callId in s.calls
    requires Linked(s) && AbsorbOne(s, o).1.None?
    ensures var r := AbsorbOne(s, o).0; |r.turns| == |s.turns| && Receives(s.turns[t], r.turns[t], true)
  {
    hide TurnsOk, TurnOk, CallsOk, TokensOk, ScheduleOk, Linked, ResultOf, Utf8Length, CallId, Receipt, IssuedOk;
    TurnIsOk(s, t);
    TurnLengths(s, t);
    IssuedIsOk(s, t, |s.turns[t].issued| - 1);
    IssuedIsRecorded(s, t, |s.turns[t].issued| - 1);
  }

  // ------------------------------------------------------------- one request

  /** The state in which a request reaches `Dispatch`. */
  ghost function Taken(s: State, req: Request): (r: State)
    requires Inv(s)
    ensures Inv(r) && Linked(r)
  {
    hide Inv, Linked, Absorb;
    InvLinks(s);
    var a := Advertise(s, req.tools);
    var known := Known(s.calls.Keys, req.outputs);
    InvIgnoresLogs(s, a);
    InvLinks(a);
    AbsorbKeepsInv(a, known);
    var b := Arrive(Absorb(a, known).0, req, known);
    InvIgnoresLogs(Absorb(a, known).0, b);
    InvLinks(b);
    b
  }

  /** A request whose results fit reaches `Dispatch`, with the schedule and every script as they were. */
  lemma TakenReachesDispatch(s: State, req: Request)
    requires Inv(s) && Fits(s, req.outputs)
    ensures Linked(s) && Respond(s, req) == Dispatch(Taken(s, req), req.fingerprint)
    ensures var b := Taken(s, req);
            && b.active == s.active && b.last == s.last && b.queued == s.queued && b.harness == s.harness && b.env == s.env
            && b.toolNames == Advertised(s, req) && |b.turns| == |s.turns| && |b.requests| == |s.requests| + 1
  {
    hide Inv, Linked, Absorb, Dispatch, Utf8Length, Fits;
    InvLinks(s);
    var a := Advertise(s, req.tools);
    var known := Known(s.calls.Keys, req.outputs);
    InvIgnoresLogs(s, a);
    InvLinks(a);
    KnownFits(s, a, req.outputs);
    TakenWhenTheyFit(a, known);
    AbsorbKeepsTurnCount(a, known);
  }

  lemma {:induction false} AbsorbKeepsTurnCount(s: State, outputs: seq<Output>)
    requires Linked(s) && forall o | o in outputs :: o.callId in s.calls
    ensures |Absorb(s, outputs).0.turns| == |s.turns|
    decreases |outputs|
  {
    hide Linked, AbsorbOne;
    if outputs == [] {
    } else if AbsorbOne(s, outputs[0]).1.None? {
      AbsorbKeepsTurnCount(AbsorbOne(s, outputs[0]).0, outputs[1..]);
    }
  }

  /** A turn without an open call is not touched on the way. */
  lemma TakenKeepsQuietTurn(s: State, req: Request, t: nat)
    requires Inv(s) && t < |s.turns| && |s.turns[t].results| == |s.turns[t].issued|
    ensures t < |Taken(s, req).turns| && Taken(s, req).turns[t] == s.turns[t]
  {
    hide Inv, Linked, Absorb;
    InvLinks(s);
    var a := Advertise(s, req.tools);
    InvIgnoresLogs(s, a);
    AbsorbKeepsQuietTurn(a, Known(s.calls.Keys, req.outputs), t);
  }

  lemma TakenAnswersOpenCall(s: State, req: Request, t: nat)
    requires Inv(s) && Running(s, t) && Fits(s, req.outputs)
    ensures t < |Taken(s, req).turns| && Receives(s.turns[t], Taken(s, req).turns[t], IsAnswer(s, t, req))
    ensures |s.turns[t].issued| == |s.turns[t].results| + 1 <= |s.turns[t].steps|
  {
    hide Inv, Linked, TurnsOk, CallsOk, Absorb, Utf8Length, Fits;
    InvLinks(s);
    RunningTurnOk(s);
    OutstandingIsUnanswered(s);
    var a := Advertise(s, req.tools);
    var known := Known(s.calls.Keys, req.outputs);
    InvIgnoresLogs(s, a);
    InvLinks(a);
    KnownFits(s, a, req.outputs);
    TakenWhenTheyFit(a, known);
    AbsorbAnswersOpenCall(a, known, t);
  }

  /** Results of no known call are passed over. */
  lemma KnownFits(s: State, a: State, outputs: seq<Output>)
    requires a.calls == s.calls
    ensures Fits(a, Known(s.calls.Keys, outputs)) <==> Fits(s, outputs)
    ensures forall c | c in s.calls :: Gives(Known(s.calls.Keys, outputs), c) <==> Gives(outputs, c)
  {
    hide Utf8Length;
  }

  /** What the client is told: the running turn's open call, as its step has it and to a tool advertised for
      it by now, or the finished turn's text. */
  ghost predicate Tells(r: State, t: nat, item: Item)
    requires t < |r.turns|
  {
    var n := |r.turns[t].results|;
    if Running(r, t) then
      && n < |r.turns[t].steps| && CallsFor(item, r.env, r.harness, r.toolNames, r.turns[t].steps[n], r.turns[t].token, n)
      && item.Call() == CallId(r.harness, r.turns[t].token, n)
    else item == (if r.harness.Claude? then TextBlock(r.turns[t].finalText)
                  else Message("msg_buddy_" + r.turns[t].token, r.turns[t].finalText))
  }

  /** A turn with `n` steps done goes on: the next call, or the end, or nothing at all. */
  ghost predicate GoesOn(r: State, t: nat, o: Outcome)
    requires t < |r.turns|
  {
    if o.Raised? then o.error.ApprovalUnsupported? && Stalled(r, t)
    else
      && (if |r.turns[t].results| < |r.turns[t].steps| then Running(r, t) else Done(r, t) && r.active.None? && r.last == Some(t))
      && Tells(r, t, o.item)
  }

  ghost predicate SamePlan(a: Turn, b: Turn) {
    && a.title == b.title && a.steps == b.steps && a.finalText == b.finalText && a.token == b.token
    && a.fingerprint == b.fingerprint
  }

  /** The fixture as it was, knowing of these tools. */
  ghost predicate SameFixture(s: State, r: State, names: set<string>) {
    r.env == s.env && r.harness == s.harness && r.toolNames == names
  }

  /** A turn whose issued calls all have results gets its next call if that can be sent, or ends. */
  lemma AdvanceWhenAnswered(s: State, t: nat)
    requires Linked(s) && s.active == Some(t) && t < |s.turns| && !s.turns[t].finalEmitted
    requires |s.turns[t].results| == |s.turns[t].issued| <= |s.turns[t].steps|
    ensures var (r, o) := Advance(s);
            && t < |r.turns| && SamePlan(r.turns[t], s.turns[t]) && r.turns[t].results == s.turns[t].results
            && SameFixture(s, r, s.toolNames) && GoesOn(r, t, o)
            && (o.Answer? <==> (|s.turns[t].results| < |s.turns[t].steps| ==>
                                  Supported(s.harness, s.toolNames, s.turns[t].steps[|s.turns[t].results|])))
  {
    hide Linked, NextItem, WithCall, Finish, GoesOn, Supported;
    if HasNext(s) {
      IssueGoesOn(s, t);
    } else {
      FinishGoesOn(s, t);
    }
  }

  lemma IssueGoesOn(s: State, t: nat)
    requires Linked(s) && s.active == Some(t) && HasNext(s) && !s.turns[t].finalEmitted
    requires |s.turns[t].results| == |s.turns[t].issued|
    ensures var (r, o) := Issue(s);
            && t < |r.turns| && SamePlan(r.turns[t], s.turns[t]) && r.turns[t].results == s.turns[t].results
            && SameFixture(s, r, s.toolNames) && GoesOn(r, t, o)
            && (o.Answer? <==> Supported(s.harness, s.toolNames, s.turns[t].steps[|s.turns[t].results|]))
  {
    hide Linked, BuildItem, CallId, Receipt, Supported, CallsFor;
    var turn := s.turns[t];
    BuiltItemIsTheStep(s.env, s.harness, s.toolNames, turn.steps[|turn.issued|], turn.token, |turn.issued|);
    BuiltItemAnswersItsCall(s.env, s.harness, s.toolNames, turn.steps[|turn.issued|], turn.token, |turn.issued|);
    BuiltWhenSupported(s.env, s.harness, s.toolNames, turn.steps[|turn.issued|], turn.token, |turn.issued|);
  }

  lemma FinishGoesOn(s: State, t: nat)
    requires Linked(s) && s.active == Some(t) && t < |s.turns| && AllAnswered(s.turns[t])
    ensures var r := Finish(s);
            && t < |r.turns| && SamePlan(r.turns[t], s.turns[t]) && r.turns[t].results == s.turns[t].results
            && SameFixture(s, r, s.toolNames) && GoesOn(r, t, Answer(FinalItem(s.harness, s.turns[t]), |s.requests|))
  {
    hide Linked, CallId, Supported, CallsFor;
  }

  /** A fresh result is progress, answered or refused: one more result, then the next call where that
      step can be sent, or the end at the last. */
  lemma AnswerAdvances(s: State, req: Request, t: nat)
    requires Inv(s) && Fits(s, req.outputs) && IsAnswer(s, t, req)
    ensures var (r, o) := Respond(s, req);
            && t < |r.turns| && SamePlan(r.turns[t], s.turns[t])
            && |r.turns[t].results| == |s.turns[t].results| + 1 <= |s.turns[t].steps|
            && SameFixture(s, r, Advertised(s, req)) && GoesOn(r, t, o) && (o.Answer? <==> NextSupported(s, req))
  {
    hide Inv, Linked, Respond, Taken, Advance, GoesOn, Supported, Fits, Outstanding;
    TakenReachesDispatch(s, req);
    TakenAnswersOpenCall(s, req, t);
    AdvanceWhenAnswered(Taken(s, req), t);
  }

  /** Without that result, the running turn's call is answered again and its turn stays as it is. */
  lemma OpenCallIsRepeated(s: State, req: Request, t: nat)
    requires Inv(s) && Fits(s, req.outputs) && Running(s, t) && !IsAnswer(s, t, req)
    ensures var (r, o) := Respond(s, req);
            && t < |r.turns| && Running(r, t) && r.turns[t] == s.turns[t] && OutstandingCall(s) in s.turns[t].items
            && o.Answer? && o.item == s.turns[t].items[OutstandingCall(s)] && o.item.Call() == OutstandingCall(s)
  {
    hide Inv, Linked, TurnsOk, CallsOk, Respond, Taken, Fits, HasNext;
    TakenReachesDispatch(s, req);
    TakenAnswersOpenCall(s, req, t);
    InvLinks(Taken(s, req));
    OutstandingIsUnanswered(Taken(s, req));
  }

  /** New input starts the first queued turn, whatever results of abandoned turns come with it. */
  lemma OpeningStarts(s: State, req: Request)
    requires Inv(s) && IsOpening(s, req)
    ensures var (r, o) := Respond(s, req);
            var t := s.queued[0];
            && t < |r.turns| && SamePlan(r.turns[t], s.turns[t].(fingerprint := Some(req.fingerprint)))
            && r.turns[t].results == [] && SameFixture(s, r, Advertised(s, req))
            && GoesOn(r, t, o) && (o.Answer? <==> FirstSupported(s, req))
  {
    hide Inv, Linked, Respond, Taken, Advance, GoesOn, Supported, Fits;
    TakenReachesDispatch(s, req);
    QueuedIsUntouched(s);
    TakenKeepsQuietTurn(s, req, s.queued[0]);
    if s.last.Some? {
      LastIsDone(s);
      TakenKeepsQuietTurn(s, req, s.last.value);
    }
    AdvanceWhenAnswered(Activate(Taken(s, req), req.fingerprint), s.queued[0]);
  }

  lemma LastIsDone(s: State)
    requires Inv(s) && s.last.Some?
    ensures Done(s, s.last.value)
  {
    hide Linked, TurnsOk, TurnOk, CallsOk, TokensOk;
    TurnIsOk(s, s.last.value);
    TurnLengths(s, s.last.value);
  }

  lemma QueuedIsUntouched(s: State)
    requires Inv(s) && s.queued != []
    ensures s.queued[0] < |s.turns| && Untouched(s.turns[s.queued[0]])
  {
    hide Linked, TurnsOk, CallsOk, TokensOk, Untouched;
  }

  // ------------------------------------------------------------- a stalled turn

  lemma StalledDispatch(s: State, fingerprint: string, t: nat)
    requires Linked(s) && Stalled(s, t)
    ensures Dispatch(s, fingerprint) == (s, Raised(ApprovalUnsupported))
  {
    hide Linked, BuildItem, Supported;
    var u := s.turns[t];
    BuiltWhenSupported(s.env, s.harness, s.toolNames, u.steps[|u.issued|], u.token, |u.issued|);
  }

  /** Whatever is sent, a stalled turn stays as it is until `exec_command` is advertised. */
  lemma StalledTurnWaits(s: State, req: Request, t: nat)
    requires Inv(s) && Stalled(s, t) && "exec_command" !in req.tools
    ensures var (r, o) := Respond(s, req); o.Raised? && Stalled(r, t) && r.turns[t] == s.turns[t]
  {
    hide Inv, Linked, Dispatch, Absorb, Stalled;
    InvLinks(s);
    StillStalled(s, t, Advertise(s, req.tools), req.tools);
    var a := Advertise(s, req.tools);
    var known := Known(s.calls.Keys, req.outputs);
    InvIgnoresLogs(s, a);
    InvLinks(a);
    StalledIsQuiet(a, t);
    AbsorbKeepsQuietTurn(a, known, t);
    var absorbed := Absorb(a, known);
    StillStalled(a, t, absorbed.0, []);
    if absorbed.1.None? {
      var b := Arrive(absorbed.0, req, known);
      AbsorbKeepsInv(a, known);
      InvIgnoresLogs(absorbed.0, b);
      InvLinks(b);
      StillStalled(a, t, b, []);
      StalledDispatch(b, req.fingerprint, t);
    }
  }

  lemma StalledIsQuiet(s: State, t: nat)
    requires Stalled(s, t)
    ensures t < |s.turns| && |s.turns[t].results| == |s.turns[t].issued|
  {
    hide Supported;
  }

  lemma StillStalled(s: State, t: nat, r: State, tools: seq<string>)
    requires Stalled(s, t) && "exec_command" !in tools
    requires |s.turns| <= |r.turns| && r.turns[t] == s.turns[t] && r.active == s.active && r.harness == s.harness
    requires r.toolNames == s.toolNames + set n | n in tools
    ensures Stalled(r, t)
  {}

  /** A request that advertises `exec_command`, its results fitting, gets the stalled turn going. */
  lemma StalledTurnResumes(s: State, req: Request, t: nat)
    requires Inv(s) && Stalled(s, t) && Fits(s, req.outputs)
    ensures var (r, o) := Respond(s, req);
            && t < |r.turns| && SamePlan(r.turns[t], s.turns[t]) && r.turns[t].results == s.turns[t].results
            && SameFixture(s, r, Advertised(s, req)) && GoesOn(r, t, o)
            && (if "exec_command" in req.tools then o.Answer? && Running(r, t) else o.Raised? && Stalled(r, t))
  {
    hide Inv, Linked, Respond, Taken, Advance, Fits;
    TakenReachesDispatch(s, req);
    TakenKeepsQuietTurn(s, req, t);
    AdvanceWhenAnswered(Taken(s, req), t);
  }

  /** A fresh provider with one script queued. */
  function OneScript(env: Env, h: Harness, steps: seq<Step>, token: string): State {
    QueueTurn(Initial(env, h), "script", steps, "done", token)
  }

  lemma OneScriptOpens(env: Env, h: Harness, steps: seq<Step>, token: string, req: Request)
    requires |token| == TOKEN_LENGTH && Accepts(h, "script", steps) && req.outputs == []
    ensures var s := OneScript(env, h, steps, token);
            && Inv(s) && IsOpening(s, req) && s.harness == h && s.toolNames == {}
            && s.turns == [NewTurn("script", steps, "done", token)] && s.queued == [0]
  {
    hide Inv, Accepts;
    InitialInv(env, h);
    QueueTurnKeepsInv(Initial(env, h), "script", steps, "done", token);
  }

  /** No event gives the running turn up, or advertises `exec_command`. */
  predicate Deaf(events: seq<Fixture.Event>) {
    forall e | e in events :: !e.Abandoned? && (e.Arrived? ==> "exec_command" !in e.request.tools)
  }

  lemma {:induction false} StalledTurnNeverEnds(sys: Fixture.Sys, events: seq<Fixture.Event>, t: nat)
    requires Inv(sys.p) && Stalled(sys.p, t) && Fixture.Possible(sys, events) && Deaf(events)
    ensures var r := Fixture.Exec(sys, events).p; Stalled(r, t) && r.turns[t] == sys.p.turns[t]
    decreases |events|
  {
    hide Inv, Fixture.Next, Fixture.Can, Supported;
    if events == [] {
    } else {
      assert events[0] in events;
      StalledTurnStays(sys, events[0], t);
      StalledTurnNeverEnds(Fixture.Next(sys, events[0]), events[1..], t);
    }
  }

  lemma StalledTurnStays(sys: Fixture.Sys, e: Fixture.Event, t: nat)
    requires Inv(sys.p) && Stalled(sys.p, t) && Fixture.Can(sys, e) && Deaf([e])
    ensures var r := Fixture.Next(sys, e).p; Stalled(r, t) && r.turns[t] == sys.p.turns[t]
  {
    hide Inv, Linked, Respond, Supported;
    InvLinks(sys.p);
    assert e in [e];
    if e.Arrived? {
      StalledTurnWaits(sys.p, e.request, t);
    }
  }

  /** A Codex client that advertises `shell` alone, on a script of one step that asks for approval, is
      refused its first call, and whatever follows without `exec_command` the script never ends. */
  lemma ApprovalStepCanStall(env: Env, token: string, fingerprint: string, later: seq<Fixture.Event>)
    requires |token| == TOKEN_LENGTH && Deaf(later)
    ensures var s := OneScript(env, Codex, [Shell("true", "/", "", 1000, true)], token);
            var req := Request("/v1/responses", ["shell"], [], fingerprint);
            && Inv(s) && IsOpening(s, req) && Respond(s, req).1 == Raised(ApprovalUnsupported)
            && var refused := Fixture.Next(Fixture.Sys(s, [], []), Fixture.Arrived(req));
               Fixture.Possible(refused, later) ==> Stalled(Fixture.Exec(refused, later).p, 0)
  {
    hide Inv, Linked, IsOpening, Respond, OneScript, Stalled, Running, Done, Tells, Deaf, Fixture.Possible, Fixture.Exec;
    var steps := [Shell("true", "/", "", 1000, true)];
    var s := OneScript(env, Codex, steps, token);
    var req := Request("/v1/responses", ["shell"], [], fingerprint);
    OneScriptOpens(env, Codex, steps, token, req);
    InvLinks(s);
    OpeningStarts(s, req);
    ShellAloneIsNotEnough(s.toolNames, req, steps[0]);
    var refused := Fixture.Next(Fixture.Sys(s, [], []), Fixture.Arrived(req));
    assert refused.p == Respond(s, req).0;
    if Fixture.Possible(refused, later) {
      StalledTurnNeverEnds(refused, later, 0);
    }
  }

  lemma ShellAloneIsNotEnough(names: set<string>, req: Request, step: Step)
    requires names == {} && req.tools == ["shell"] && step.Shell? && step.requireApproval
    ensures !Supported(Codex, names + (set n | n in req.tools), step)
  {
    assert |"shell"| == 5 && |"exec_command"| == 12;
    assert req.tools[0] == "shell" && "shell" in req.tools && "exec_command" !in req.tools;
  }

  // --------------------------------------------------------------- a turn in a run

  /** A turn that has begun and was not given up: it waits for a result, is stalled, or has ended. */
  ghost predicate InStride(s: State, t: nat) {
    (Running(s, t) && |s.turns[t].results| < |s.turns[t].steps|) || Stalled(s, t) || Done(s, t)
  }

  /** Results that fit, and no abandoning: how a working client and its runner behave. */
  ghost predicate Works(sys: Fixture.Sys, e: Fixture.Event) {
    Fixture.Can(sys, e) && !e.Abandoned? && (e.Arrived? ==> Fits(sys.p, e.request.outputs))
  }

  ghost predicate WorksThrough(sys: Fixture.Sys, events: seq<Fixture.Event>)
    requires Inv(sys.p)
    decreases |events|
  {
    events != [] ==> Works(sys, events[0]) && WorksThrough(Fixture.Next(sys, events[0]), events[1..])
  }

  lemma {:induction false} WorksIsPossible(sys: Fixture.Sys, events: seq<Fixture.Event>)
    requires Inv(sys.p) && WorksThrough(sys, events)
    ensures Fixture.Possible(sys, events)
    decreases |events|
  {
    hide Inv, Fixture.Next, Fixture.Can, Fits;
    if events == [] {
    } else {
      WorksIsPossible(Fixture.Next(sys, events[0]), events[1..]);
    }
  }

  /** How many requests of the run answered a call of this turn. */
  ghost function AnswersTo(sys: Fixture.Sys, events: seq<Fixture.Event>, t: nat): nat
    requires Inv(sys.p) && Fixture.Possible(sys, events)
    decreases |events|
  {
    if events == [] then 0
    else
      (if events[0].Arrived? && IsAnswer(sys.p, t, events[0].request) then 1 else 0)
      + AnswersTo(Fixture.Next(sys, events[0]), events[1..], t)
  }

  /** Whether the turn stands at a step that cannot be sent, told from the requests alone: an answer leads
      to such a step or not, and a stall lasts until `exec_command` is advertised. */
  ghost function Stuck(sys: Fixture.Sys, events: seq<Fixture.Event>, t: nat, now: bool): bool
    requires Inv(sys.p) && Fixture.Possible(sys, events)
    decreases |events|
  {
    if events == [] then now
    else Stuck(Fixture.Next(sys, events[0]), events[1..], t, StuckAfter(sys.p, events[0], t, now))
  }

  ghost predicate StuckAfter(s: State, e: Fixture.Event, t: nat, now: bool) {
    if !e.Arrived? then now
    else if IsAnswer(s, t, e.request) then !NextSupported(s, e.request)
    else now && "exec_command" !in e.request.tools
  }

  /** One request of a working client. */
  lemma RequestInStride(s: State, req: Request, t: nat)
    requires Inv(s) && InStride(s, t) && Fits(s, req.outputs)
    ensures Linked(s)
    ensures var r := Respond(s, req).0;
            && InStride(r, t) && r.turns[t].steps == s.turns[t].steps
            && |r.turns[t].results| == |s.turns[t].results| + (if IsAnswer(s, t, req) then 1 else 0)
            && (Stalled(r, t) <==> StuckAfter(s, Fixture.Arrived(req), t, Stalled(s, t)))
  {
    hide Inv, Linked, Respond, NextSupported, Supported, Fits;
    InvLinks(s);
    if Done(s, t) {
      DoneStaysDone(s, req, t);
    } else if Stalled(s, t) {
      StalledTurnResumes(s, req, t);
      StalledIsShort(s, req, t);
    } else if IsAnswer(s, t, req) {
      AnswerAdvances(s, req, t);
    } else {
      OpenCallIsRepeated(s, req, t);
    }
  }

  lemma StalledIsShort(s: State, req: Request, t: nat)
    requires Stalled(s, t)
    ensures t < |s.turns| && |s.turns[t].results| < |s.turns[t].steps| && !IsAnswer(s, t, req)
  {
    hide Supported;
  }

  lemma DoneStaysDone(s: State, req: Request, t: nat)
    requires Inv(s) && Done(s, t) && Fits(s, req.outputs)
    ensures Linked(s) && t < |Respond(s, req).0.turns| && Respond(s, req).0.turns[t] == s.turns[t]
    ensures !Running(s, t) && !Stalled(s, t) && !Stalled(Respond(s, req).0, t)
  {
    hide Inv, Linked, Respond, Taken, Fits, Dispatch, Supported;
    TakenReachesDispatch(s, req);
    TakenKeepsQuietTurn(s, req, t);
    DispatchKeepsDone(Taken(s, req), req.fingerprint, t);
  }

  lemma DispatchKeepsDone(s: State, fingerprint: string, t: nat)
    requires Inv(s) && t < |s.turns| && s.turns[t].finalEmitted
    ensures Linked(s)
    ensures var r := Dispatch(s, fingerprint).0; t < |r.turns| && r.turns[t] == s.turns[t]
  {
    hide TurnsOk, CallsOk, TokensOk, Linked, Advance;
    RunningIsNotDone(s);
    if s.active.Some? {
      AdvanceKeepsOtherTurn(s, t);
    } else if s.queued != [] {
      assert Untouched(s.turns[s.queued[0]]);
      AdvanceKeepsOtherTurn(Activate(s, fingerprint), t);
    }
  }

  lemma RunningIsNotDone(s: State)
    requires ScheduleOk(s)
    ensures s.active.Some? ==> s.active.value < |s.turns| && !s.turns[s.active.value].finalEmitted
    ensures s.last.Some? ==> s.last.value < |s.turns|
  {
    hide Untouched;
  }

  lemma AdvanceKeepsOtherTurn(s: State, t: nat)
    requires Linked(s) && s.active.Some? && t < |s.turns| && t != s.active.value
    ensures var r := Advance(s).0; t < |r.turns| && r.turns[t] == s.turns[t]
  {
    hide Linked, NextItem, CallId, Receipt, FinalItem;
    RunningIsTurn(s);
  }

  /** One event of a working run: every step but a request leaves the turn as it is. */
  lemma EventInStride(sys: Fixture.Sys, e: Fixture.Event, t: nat)
    requires Inv(sys.p) && InStride(sys.p, t) && Works(sys, e)
    ensures var r := Fixture.Next(sys, e).p;
            && InStride(r, t) && r.turns[t].steps == sys.p.turns[t].steps
            && |r.turns[t].results| == |sys.p.turns[t].results| + (if e.Arrived? && IsAnswer(sys.p, t, e.request) then 1 else 0)
            && (Stalled(r, t) <==> StuckAfter(sys.p, e, t, Stalled(sys.p, t)))
  {
    hide Inv, Linked, Respond, Fits, NextSupported, Supported, IsAnswer;
    InvLinks(sys.p);
    if e.Arrived? {
      hide InStride, Stalled;
      RequestInStride(sys.p, e.request, t);
    }
  }

  /** Over any working run a turn in stride counts its answers, and stands stuck exactly when the requests
      say so. */
  lemma {:induction false} RunInStride(sys: Fixture.Sys, events: seq<Fixture.Event>, t: nat)
    requires Inv(sys.p) && InStride(sys.p, t) && WorksThrough(sys, events) && Fixture.Possible(sys, events)
    ensures var r := Fixture.Exec(sys, events).p;
            && InStride(r, t) && r.turns[t].steps == sys.p.turns[t].steps
            && |r.turns[t].results| == |sys.p.turns[t].results| + AnswersTo(sys, events, t)
            && (Stalled(r, t) <==> Stuck(sys, events, t, Stalled(sys.p, t)))
    decreases |events|
  {
    hide Inv, Fixture.Next, Fixture.Can, Works, Running, Stalled, Done, IsAnswer, StuckAfter;
    InStrideIsTurn(sys.p, t);
    if events == [] {
    } else {
      EventInStride(sys, events[0], t);
      RunInStride(Fixture.Next(sys, events[0]), events[1..], t);
    }
  }

  lemma InStrideIsTurn(s: State, t: nat)
    ensures Running(s, t) || Stalled(s, t) || Done(s, t) ==> t < |s.turns|
  {
    hide Supported, Outstanding;
  }

  /** From the request that opens it, over any working run, whatever retries, late results, marks, answer
      rows and queueing come between: a k-step turn has as many results as calls of it were answered, ends
      with the k-th answer, neither earlier nor later, and until then waits for the next one, unless it
      stands at a step that cannot be sent. */
  lemma TurnTakesItsLength(sys: Fixture.Sys, first: Request, rest: seq<Fixture.Event>)
    requires Inv(sys.p) && IsOpening(sys.p, first) && WorksThrough(Fixture.Next(sys, Fixture.Arrived(first)), rest)
    ensures var begun := Fixture.Next(sys, Fixture.Arrived(first));
            var t, k := sys.p.queued[0], |sys.p.turns[sys.p.queued[0]].steps|;
            && Fixture.Possible(begun, rest)
            && var r, n := Fixture.Exec(begun, rest).p, AnswersTo(begun, rest, t);
               && t < |r.turns| && |r.turns[t].results| == n <= k
               && (Done(r, t) <==> n == k)
               && (n < k ==> if Stuck(begun, rest, t, !FirstSupported(sys.p, first)) then Stalled(r, t) else Running(r, t))
  {
    hide Inv, Linked, Respond, IsOpening, WorksThrough, FirstSupported, Supported, AnswersTo, Stuck, Fixture.Exec, Fixture.Possible, Outstanding;
    OpeningInStride(sys, first);
    var begun := Fixture.Next(sys, Fixture.Arrived(first));
    WorksIsPossible(begun, rest);
    RunInStride(begun, rest, sys.p.queued[0]);
  }

  lemma OpeningInStride(sys: Fixture.Sys, first: Request)
    requires Inv(sys.p) && IsOpening(sys.p, first)
    ensures sys.p.queued != []
    ensures var r, t := Fixture.Next(sys, Fixture.Arrived(first)).p, sys.p.queued[0];
            && t < |sys.p.turns| && InStride(r, t) && r.turns[t].steps == sys.p.turns[t].steps && r.turns[t].results == []
            && (Stalled(r, t) <==> !FirstSupported(sys.p, first))
  {
    hide Inv, Linked, Respond, Fits, FirstSupported, Supported, Tells;
    InvLinks(sys.p);
    OpeningStarts(sys.p, first);
    assert Fixture.Next(sys, Fixture.Arrived(first)).p == Respond(sys.p, first).0;
  }

  // ------------------------------------------------------ a final on other input

  /** The last answer sent on another input than the turn started on: repeating it is not safe. */
  lemma FinalOnOtherInputIsNotRepeated(s: State, req: Request, t: nat)
    requires Inv(s) && Fits(s, req.outputs) && IsAnswer(s, t, req) && |s.turns[t].results| + 1 == |s.turns[t].steps|
    requires s.turns[t].fingerprint != Some(req.fingerprint)
    ensures var (r, o) := Respond(s, req);
            o.Answer? && Done(r, t) && Linked(r) && !RetryIsSafe(r, req, o.item) && !Stutters(r, req, o.item)
  {
    hide Inv, Linked, Respond, Stutters, Fits;
    InvLinks(s);
    AnswerAdvances(s, req, t);
    RetryStutters(s, req);
  }

  /** A first result of the running turn's next call is an answer. */
  lemma ResultIsAnswer(s: State, req: Request, t: nat, o: Output)
    requires Inv(s) && Running(s, t) && req.outputs == [o] && Utf8Length(o.text) <= MAX_OUTPUT
    requires o.callId == CallId(s.harness, s.turns[t].token, |s.turns[t].results|)
    ensures Fits(s, req.outputs) && IsAnswer(s, t, req)
  {
    hide Inv, TurnsOk, CallsOk, Linked, CallId, Utf8Length;
    InvLinks(s);
    OutstandingIsUnanswered(s);
    UnansweredIsOutstanding(s, OutstandingCall(s));
    assert o in req.outputs;
  }

  ghost function After(s: State, req: Request): (r: State)
    requires Inv(s)
    ensures Inv(r)
  {
    RespondKeepsInv(s, req);
    Respond(s, req).0
  }

  /** Such a run: a one-step script opened on one input and answered on another. */
  lemma SomeRetryIsNotSafe(env: Env, token: string)
    requires |token| == TOKEN_LENGTH
    ensures var s := OneScript(env, Claude, [Write("a", "b")], token);
            var first := Request("/v1/messages", [], [], "one");
            var last := Request("/v1/messages", [], [Output(CallId(Claude, token, 0), "", Bool(false))], "two");
            && Inv(s) && Respond(s, first).1.Answer?
            && var (r, o) := Respond(After(s, first), last); o.Answer? && Linked(r) && !Stutters(r, last, o.item)
  {
    hide Inv, Linked, OneScript, Respond, IsOpening, CallId, Stutters, RetryIsSafe, IsAnswer, Settled, Outstanding, Tells;
    var s := OneScript(env, Claude, [Write("a", "b")], token);
    var first := Request("/v1/messages", [], [], "one");
    var o := Output(CallId(Claude, token, 0), "", Bool(false));
    var last := Request("/v1/messages", [], [o], "two");
    OneScriptOpens(env, Claude, [Write("a", "b")], token, first);
    InvLinks(s);
    OpeningStarts(s, first);
    InvLinks(After(s, first));
    ResultIsAnswer(After(s, first), last, 0, o);
    assert "one"[0] == 'o' && "two"[0] == 't';
    FinalOnOtherInputIsNotRepeated(After(s, first), last, 0);
  }

  // ------------------------------------------------------------------ finish order

  lemma RespondFinishesForward(s: State, req: Request)
    requires Inv(s)
    ensures var r := Respond(s, req).0;
            r.last != s.last ==> r.last.Some? && (s.last.Some? ==> s.last.value < r.last.value)
  {
    hide TurnsOk, CallsOk, TokensOk, Linked, Absorb, NextItem, WithCall;
    var a := Advertise(s, req.tools);
    var known := Known(s.calls.Keys, req.outputs);
    LinksIgnoreLogs(s, a);
    LinksIgnoreLogs(Absorb(a, known).0, Arrive(Absorb(a, known).0, req, known));
  }

  lemma NextFinishesForward(sys: Fixture.Sys, e: Fixture.Event)
    requires Inv(sys.p) && Fixture.Can(sys, e)
    ensures var r := Fixture.Next(sys, e);
            r.p.last != sys.p.last ==> r.p.last.Some? && (sys.p.last.Some? ==> sys.p.last.value < r.p.last.value)
  {
    hide TurnsOk, CallsOk, TokensOk, ScheduleOk, Linked, Respond;
    if e.Arrived? {
      RespondFinishesForward(sys.p, e.request);
    }
  }

  /** Ascending, and past the turn finished before. */
  ghost predicate InQueueOrder(log: seq<nat>, last: Option<nat>) {
    && (forall i, j | 0 <= i < j < |log| :: log[i] < log[j])
    && (last.Some? ==> forall i | 0 <= i < |log| :: last.value < log[i])
  }

  /** The turn one step finished, if it finished one. */
  function NewlyLast(last: Option<nat>, next: Option<nat>): seq<nat> {
    if next != last && next.Some? then [next.value] else []
  }

  lemma PrependKeepsQueueOrder(last: Option<nat>, next: Option<nat>, rest: seq<nat>)
    requires next == last || (next.Some? && (last.Some? ==> last.value < next.value))
    requires InQueueOrder(rest, next)
    ensures InQueueOrder(NewlyLast(last, next) + rest, last)
  {}

  /** The turns a run finishes, in the order it finishes them. */
  ghost function FinishLog(sys: Fixture.Sys, events: seq<Fixture.Event>): seq<nat>
    requires Inv(sys.p) && Fixture.Possible(sys, events)
    decreases |events|
  {
    if events == [] then []
    else
      var next := Fixture.Next(sys, events[0]);
      NewlyLast(sys.p.last, next.p.last) + FinishLog(next, events[1..])
  }

  /** Whatever interleaves, and whatever is abandoned, turns finish in the order they were queued. */
  lemma {:induction false} TurnsFinishInQueueOrder(sys: Fixture.Sys, events: seq<Fixture.Event>)
    requires Inv(sys.p) && Fixture.Possible(sys, events)
    ensures InQueueOrder(FinishLog(sys, events), sys.p.last)
    decreases |events|
  {
    hide Inv, InQueueOrder, Fixture.Next;
    if events == [] {
      NothingIsInOrder(sys.p.last);
    } else {
      var next := Fixture.Next(sys, events[0]);
      NextFinishesForward(sys, events[0]);
      TurnsFinishInQueueOrder(next, events[1..]);
      PrependKeepsQueueOrder(sys.p.last, next.p.last, FinishLog(next, events[1..]));
    }
  }

  lemma NothingIsInOrder(last: Option<nat>)
    ensures InQueueOrder([], last)
  {}
}
