/** Retries and old history: what repeating a request, or replaying earlier tool results, can do. */
module Retries {
  import opened Option
  import opened Text
  import opened ProviderSpec
  import opened Discipline

  /** The result is recorded as it stands, so the provider passes over it. */
  ghost predicate Settled(s: State, o: Output) {
    o.callId in s.calls && s.calls[o.callId].result == Some(o) && Utf8Length(o.text) <= MAX_OUTPUT
  }

  ghost predicate SameCore(s: State, r: State) {
    s.turns == r.turns && s.queued == r.queued && s.active == r.active && s.last == r.last && s.calls == r.calls
  }

  /** The running turn holds a call without a result. */
  ghost predicate Outstanding(s: State) {
    && s.active.Some? && s.active.value < |s.turns|
    && |s.turns[s.active.value].results| < |s.turns[s.active.value].issued|
  }

  ghost function OutstandingCall(s: State): string
    requires Outstanding(s)
  {
    var turn := s.turns[s.active.value];
    turn.issued[|turn.issued| - 1]
  }

  lemma OutstandingIsUnanswered(s: State)
    requires TurnsOk(s) && Outstanding(s)
    ensures var c := OutstandingCall(s);
            && c in s.calls && s.calls[c].result.None? && s.calls[c].turn == s.active.value
            && s.calls[c].item.Call() == c
            && c in s.turns[s.active.value].items && s.calls[c].item == s.turns[s.active.value].items[c]
            && s.calls[c].index == |s.turns[s.active.value].results|
            && |s.turns[s.active.value].issued| == |s.turns[s.active.value].results| + 1
  {
    hide TurnsOk, TurnOk, IssuedOk, CallId, Receipt;
    var t := s.active.value;
    var i := |s.turns[t].issued| - 1;
    TurnIsOk(s, t);
    TurnLengths(s, t);
    IssuedIsOk(s, t, i);
    IssuedIsRecorded(s, t, i);
    IssuedItemAnswers(s, t, i);
  }

  // ---------------------------------------------------------- absorbing results

  lemma {:induction false} SettledChangesNothing(s: State, outputs: seq<Output>)
    requires Linked(s) && forall o | o in outputs :: o.callId in s.calls && Settled(s, o)
    ensures Absorb(s, outputs) == (s, None)
    decreases |outputs|
  {
    if outputs == [] {
    } else {
      assert Settled(s, outputs[0]);
      SettledChangesNothing(s, outputs[1..]);
    }
  }

  lemma AbsorbOneSettles(s: State, o: Output)
    requires Linked(s) && o.callId in s.calls && AbsorbOne(s, o).1.None?
    ensures var r := AbsorbOne(s, o).0;
            Settled(r, o) && RecordsStay(s, r)
  {
    hide Linked, Utf8Length, ResultOf;
  }

  ghost predicate RecordsStay(s: State, r: State) {
    forall c | c in s.calls && s.calls[c].result.Some? :: c in r.calls && r.calls[c] == s.calls[c]
  }

  /** After an absorption without error every result is settled, and no recorded result has moved. */
  lemma {:induction false} AbsorbSettles(s: State, outputs: seq<Output>)
    requires Linked(s) && forall o | o in outputs :: o.callId in s.calls
    requires Absorb(s, outputs).1.None?
    ensures var r := Absorb(s, outputs).0; RecordsStay(s, r) && forall o | o in outputs :: Settled(r, o)
    decreases |outputs|
  {
    hide AbsorbOne, Linked, Utf8Length;
    if outputs == [] {
    } else {
      var one, rest := AbsorbOne(s, outputs[0]).0, outputs[1..];
      AbsorbOneSettles(s, outputs[0]);
      AbsorbSettles(one, rest);
      forall o | o in outputs ensures Settled(Absorb(s, outputs).0, o) {
        assert o == outputs[0] || o in rest;
      }
    }
  }

  // ---------------------------------------------------------------- the answer

  /** What an answer leaves behind: its call outstanding, or its turn the last one finished. Calls
      already recorded stay as they are. */
  lemma AdvanceAnswers(s: State)
    requires Inv(s) && s.active.Some?
    ensures var (r, o) := Advance(s);
            && CallsStay(s, r) && r.queued == s.queued && r.harness == s.harness
            && (o.Answer? ==> Answers(r, o.item) && forall c | c in r.calls :: c in s.calls || c == o.item.Call())
  {
    hide TurnsOk, CallsOk, TokensOk, ScheduleOk, Linked, NextItem, WithCall, CallId;
    RunningTurnOk(s);
    if Outstanding(s) {
      OutstandingIsUnanswered(s);
    } else if HasNext(s) && NextItem(s).Some? {
      FreshCallId(s, s.active.value);
      NextCallAnswers(s, NextItem(s).value);
    }
  }

  ghost predicate CallsStay(s: State, r: State) {
    forall c | c in s.calls :: c in r.calls && r.calls[c] == s.calls[c]
  }

  lemma NextCallAnswers(s: State, item: Item)
    requires Ready(s, item)
    ensures var r := WithCall(s, item);
            && CallsStay(s, r) && r.queued == s.queued && r.harness == s.harness
            && Answers(r, item) && forall c | c in r.calls :: c in s.calls || c == item.Call()
  {
    hide TurnsOk, CallsOk, Linked, BuildItem, CallId, Receipt;
    var u := s.turns[s.active.value];
    BuiltItemAnswersItsCall(s.env, s.harness, s.toolNames, u.steps[|u.issued|], u.token, |u.issued|);
  }

  ghost predicate Answers(r: State, item: Item) {
    if r.active.Some? then
      Outstanding(r) && OutstandingCall(r) in r.calls && r.calls[OutstandingCall(r)].item == item
      && item.Call() == OutstandingCall(r)
    else
      r.last.Some? && r.last.value < |r.turns| && item == FinalItem(r.harness, r.turns[r.last.value])
  }

  lemma DispatchAnswers(s: State, fingerprint: string)
    requires Inv(s)
    ensures var (r, o) := Dispatch(s, fingerprint);
            && CallsStay(s, r)
            && (o.Answer? ==> Answers(r, o.item) && forall c | c in r.calls :: c in s.calls || c == o.item.Call())
  {
    hide Inv, Linked, Advance;
    InvLinks(s);
    LastIsTurn(s);
    if s.active.Some? {
      AdvanceAnswers(s);
    } else if s.last.Some? && s.turns[s.last.value].fingerprint == Some(fingerprint) {
    } else if s.queued != [] {
      ActivateKeepsInv(s, fingerprint);
      AdvanceAnswers(Activate(s, fingerprint));
    }
  }

  lemma LastIsTurn(s: State)
    requires Linked(s)
    ensures s.last.Some? ==> s.last.value < |s.turns|
  {}

  /** After an answered request, every result it carried for a call known before it is settled. */
  lemma RespondAnswers(s: State, req: Request)
    requires Inv(s) && Respond(s, req).1.Answer?
    ensures var (r, o) := Respond(s, req);
            && Inv(r) && Answers(r, o.item)
            && (forall c | c in r.calls :: c in s.calls || c == o.item.Call())
            && (forall x | x in req.outputs && x.callId in s.calls :: Settled(r, x))
            && (forall c | c in s.calls :: c in r.calls)
            && o.sequence == |r.requests|
  {
    hide Inv, Linked, Dispatch, Absorb, Utf8Length;
    RespondKeepsInv(s, req);
    InvLinks(s);
    var a := Advertise(s, req.tools);
    var known := Known(s.calls.Keys, req.outputs);
    InvIgnoresLogs(s, a);
    InvLinks(a);
    AbsorbKeepsInv(a, known);
    AbsorbSettles(a, known);
    var b := Arrive(Absorb(a, known).0, req, known);
    InvIgnoresLogs(Absorb(a, known).0, b);
    InvLinks(b);
    DispatchAnswers(b, req.fingerprint);
    forall x | x in req.outputs && x.callId in s.calls ensures Settled(Respond(s, req).0, x) {
      assert x in known;
      assert Settled(Absorb(a, known).0, x);
    }
  }

  // --------------------------------------------------------------- old history

  /** A request whose known results are all settled reaches `Dispatch` with the same core. */
  lemma SettledRequest(s: State, req: Request)
    requires Inv(s) && forall x | x in req.outputs && x.callId in s.calls :: Settled(s, x)
    ensures var known := Known(s.calls.Keys, req.outputs);
            var b := Arrive(Advertise(s, req.tools), req, known);
            Inv(b) && SameCore(s, b) && Respond(s, req) == Dispatch(b, req.fingerprint)
  {
    hide Inv, Linked, Dispatch, Absorb, Utf8Length;
    InvLinks(s);
    var a := Advertise(s, req.tools);
    var known := Known(s.calls.Keys, req.outputs);
    InvIgnoresLogs(s, a);
    InvLinks(a);
    InvIgnoresLogs(s, Arrive(a, req, known));
    InvLinks(Arrive(a, req, known));
    assert forall x | x in known :: Settled(a, x);
    SettledChangesNothing(a, known);
  }

  /** Old history advances nothing: no turn's results move, and while a call is outstanding the
      answer is that call again with the core untouched. */
  lemma OldHistoryAdvancesNothing(s: State, req: Request)
    requires Inv(s) && forall x | x in req.outputs && x.callId in s.calls :: Settled(s, x)
    ensures var (r, o) := Respond(s, req);
            && |r.turns| == |s.turns|
            && (forall t | 0 <= t < |s.turns| :: r.turns[t].results == s.turns[t].results)
            && (Outstanding(s) ==> SameCore(s, r) && OutstandingCall(s) in s.calls && o == Answer(s.calls[OutstandingCall(s)].item, |s.requests| + 1))
  {
    hide Inv, Linked, Respond, Settled, Issue, Finish;
    InvLinks(s);
    SettledRequest(s, req);
    var b := Arrive(Advertise(s, req.tools), req, Known(s.calls.Keys, req.outputs));
    InvLinks(b);
    DispatchKeepsResults(b, req.fingerprint);
    if Outstanding(s) {
      OutstandingIsUnanswered(s);
    }
  }

  ghost predicate SameResults(s: State, r: State) {
    |r.turns| == |s.turns| && forall t | 0 <= t < |s.turns| :: r.turns[t].results == s.turns[t].results
  }

  lemma AdvanceKeepsResults(s: State)
    requires Linked(s) && s.active.Some?
    ensures SameResults(s, Advance(s).0)
  {
    hide Linked, NextItem, WithCall, Finish, FinalItem;
    RunningIsTurn(s);
    if HasNext(s) {
      if NextItem(s).Some? {
        CallKeepsResults(s, NextItem(s).value);
      }
    }
    FinishKeepsResults(s);
  }

  lemma CallKeepsResults(s: State, item: Item)
    requires Linked(s) && HasNext(s)
    ensures SameResults(s, WithCall(s, item))
  {
    hide Linked, CallId, Receipt;
  }

  lemma FinishKeepsResults(s: State)
    requires Linked(s) && s.active.Some?
    ensures SameResults(s, Finish(s))
  {
    RunningIsTurn(s);
  }

  lemma DispatchKeepsResults(s: State, fingerprint: string)
    requires Linked(s)
    ensures SameResults(s, Dispatch(s, fingerprint).0)
  {
    hide Advance;
    if s.active.Some? {
      AdvanceKeepsResults(s);
    } else if s.queued != [] {
      assert s.queued[0] in s.queued;
      AdvanceKeepsResults(Activate(s, fingerprint));
    }
  }

  // -------------------------------------------------------------------- retries

  /** A caller can check this before retrying: it holds no result for the call it was just given,
      and after a final item its input is the one the finished turn started on. */
  ghost predicate RetryIsSafe(r: State, req: Request, item: Item) {
    if r.active.Some? then forall x | x in req.outputs :: x.callId != item.Call()
    else r.last.Some? && r.last.value < |r.turns| && r.turns[r.last.value].fingerprint == Some(req.fingerprint)
  }

  ghost predicate Stutters(r: State, req: Request, item: Item)
    requires Linked(r)
  {
    SameCore(r, Respond(r, req).0) && Respond(r, req).1 == Answer(item, |r.requests| + 1)
  }

  /** Repeating an answered request gives the same item and leaves the core as it was exactly when
      the retry is safe. */
  lemma RetryStutters(s: State, req: Request)
    requires Inv(s) && Respond(s, req).1.Answer?
    ensures var (r, o) := Respond(s, req);
            Linked(r) && (Stutters(r, req, o.item) <==> RetryIsSafe(r, req, o.item))
  {
    hide Inv, Linked, Respond, Stutters, RetryIsSafe, Answers, Settled;
    InvLinks(s);
    RespondAnswers(s, req);
    var (r, o) := Respond(s, req);
    InvLinks(r);
    if r.active.Some? {
      if RetryIsSafe(r, req, o.item) {
        SafeToolRetry(r, req, o.item);
      } else {
        UnsafeToolRetry(r, req, o.item);
      }
    } else {
      FinalRetry(r, req, o.item);
    }
  }

  lemma SafeToolRetry(r: State, req: Request, item: Item)
    requires Inv(r) && Answers(r, item) && r.active.Some? && RetryIsSafe(r, req, item)
    requires forall x | x in req.outputs && x.callId in r.calls && x.callId != item.Call() :: Settled(r, x)
    ensures Stutters(r, req, item)
  {
    hide Inv, Linked, Respond, Settled;
    OldHistoryAdvancesNothing(r, req);
  }

  /** A result for the call just given is absorbed: the retry is progress or an error. */
  lemma UnsafeToolRetry(r: State, req: Request, item: Item)
    requires Inv(r) && Answers(r, item) && r.active.Some? && !RetryIsSafe(r, req, item)
    ensures !Stutters(r, req, item)
  {
    hide Inv, Linked, Respond;
    InvLinks(r);
    OutstandingIsUnanswered(r);
    var c := OutstandingCall(r);
    var x :| x in req.outputs && x.callId == c;
    if Respond(r, req).1.Answer? {
      RespondAnswers(r, req);
      assert Settled(Respond(r, req).0, x);
    }
  }

  /** A retried final is replayed for its own input; any other input starts the next turn or is refused. */
  lemma FinalRetry(r: State, req: Request, item: Item)
    requires Inv(r) && Answers(r, item) && r.active.None?
    requires forall x | x in req.outputs && x.callId in r.calls && x.callId != item.Call() :: Settled(r, x)
    ensures Stutters(r, req, item) <==> RetryIsSafe(r, req, item)
  {
    hide Inv, Linked, Respond, Settled, Advance;
    InvLinks(r);
    forall x | x in req.outputs && x.callId in r.calls ensures x.callId != item.Call() {
      CallIdsAreNotEmpty(r, x.callId);
    }
    SettledRequest(r, req);
    var b := Arrive(Advertise(r, req.tools), req, Known(r.calls.Keys, req.outputs));
    InvLinks(b);
    if !RetryIsSafe(r, req, item) && r.queued != [] {
      ActivateKeepsInv(b, req.fingerprint);
      AdvanceAnswers(Activate(b, req.fingerprint));
      assert Dispatch(b, req.fingerprint).0.queued == r.queued[1..];
      assert |r.queued[1..]| != |r.queued|;
    }
  }

  lemma CallIdsAreNotEmpty(s: State, c: string)
    requires TurnsOk(s) && CallsOk(s) && c in s.calls
    ensures c != ""
  {
    hide TurnsOk, CallsOk;
    UnansweredIsOutstanding(s, c);
  }
}
