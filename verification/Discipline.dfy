/** The turn discipline: what every state of the scripted provider satisfies, on every path. */
module Discipline {
  import opened Option
  import opened Text
  import opened ProviderSpec

  const TOKEN_LENGTH: nat := 32

  // --------------------------------------------------------------- invariant

  /** `item` is what `_item` builds for this step of the turn, under some tool names. */
  ghost predicate BuiltFor(s: State, turn: Turn, index: nat, item: Item)
    requires index < |turn.steps|
  {
    exists names: set<string> :: BuildItem(s.env, s.harness, names, turn.steps[index], turn.token, index) == Some(item)
  }

  /** Call `i` of turn `t` is recorded under its own identifier, and its result is unset exactly
      when the turn holds no result for it. */
  ghost predicate IssuedOk(s: State, t: nat, i: nat)
    requires t < |s.turns| && i < |s.turns[t].issued| && |s.turns[t].issued| <= |s.turns[t].steps|
  {
    var u := s.turns[t];
    var c := CallId(s.harness, u.token, i);
    && u.issued[i] == c && c in u.items && c in s.calls
    && s.calls[c].turn == t && s.calls[c].index == i && s.calls[c].item == u.items[c]
    && s.calls[c].receipt == Receipt(u.token, i)
    && (s.calls[c].result.None? <==> i >= |u.results|)
    && BuiltFor(s, u, i, u.items[c])
  }

  /** Result `i` of turn `t` is the recorded output of call `i`, with step `i` and its exit code. */
  ghost predicate ResultOk(s: State, t: nat, i: nat)
    requires t < |s.turns| && i < |s.turns[t].results| && |s.turns[t].results| <= |s.turns[t].steps|
  {
    var u := s.turns[t];
    var c := CallId(s.harness, u.token, i);
    && c in s.calls && s.calls[c].result == Some(u.results[i].output)
    && u.results[i].output.callId == c
    && u.results[i] == ResultOf(u.steps[i], i, Receipt(u.token, i), u.results[i].output)
  }

  ghost predicate TurnOk(s: State, t: nat)
    requires t < |s.turns|
  {
    var u := s.turns[t];
    && |u.results| <= |u.issued| <= |u.results| + 1 && |u.issued| <= |u.steps|
    && (u.finalEmitted ==> |u.results| == |u.issued| == |u.steps|)
    && (forall i {:trigger IssuedOk(s, t, i)} | 0 <= i < |u.issued| :: IssuedOk(s, t, i))
    && (forall i {:trigger ResultOk(s, t, i)} | 0 <= i < |u.results| :: ResultOk(s, t, i))
    && ItemsIssued(u)
  }

  ghost predicate ItemsIssued(turn: Turn) { forall c | c in turn.items :: c in turn.issued }

  ghost predicate TurnsOk(s: State) {
    forall t {:trigger TurnOk(s, t)} | 0 <= t < |s.turns| :: TurnOk(s, t)
  }

  /** Every recorded call was issued by the turn it names. */
  ghost predicate CallOk(s: State, c: string) {
    && c in s.calls && s.calls[c].turn < |s.turns|
    && s.calls[c].index < |s.turns[s.calls[c].turn].issued|
    && s.turns[s.calls[c].turn].issued[s.calls[c].index] == c
  }

  ghost predicate CallsOk(s: State) {
    forall c {:trigger CallOk(s, c)} | c in s.calls :: CallOk(s, c)
  }

  ghost predicate TokensOk(s: State) {
    && (forall t | 0 <= t < |s.turns| :: |s.turns[t].token| == TOKEN_LENGTH)
    && (forall t, u | 0 <= t < u < |s.turns| :: s.turns[t].token != s.turns[u].token)
  }

  ghost predicate Untouched(turn: Turn) {
    turn.issued == [] && turn.results == [] && turn.fingerprint.None? && !turn.finalEmitted
  }

  /** Turns start and finish in queue order: last finished < running < everything queued. */
  ghost predicate ScheduleOk(s: State) {
    && (forall i, j | 0 <= i < j < |s.queued| :: s.queued[i] < s.queued[j])
    && (forall i | 0 <= i < |s.queued| :: s.queued[i] < |s.turns| && Untouched(s.turns[s.queued[i]]))
    && (s.active.Some? ==>
          && s.active.value < |s.turns|
          && s.turns[s.active.value].fingerprint.Some? && !s.turns[s.active.value].finalEmitted
          && (forall i | 0 <= i < |s.queued| :: s.active.value < s.queued[i]))
    && (s.last.Some? ==>
          && s.last.value < |s.turns| && s.turns[s.last.value].finalEmitted
          && (forall i | 0 <= i < |s.queued| :: s.last.value < s.queued[i])
          && (s.active.Some? ==> s.last.value < s.active.value))
    && (forall t | 0 <= t < |s.turns| && s.turns[t].finalEmitted :: s.last.Some? && t <= s.last.value)
    && (forall t | 0 <= t < |s.turns| && s.turns[t].fingerprint.None? :: Untouched(s.turns[t]))
  }

  ghost predicate Inv(s: State) {
    Linked(s) && TurnsOk(s) && CallsOk(s) && TokensOk(s) && ScheduleOk(s)
  }

  /** What callers need of `Inv` when they keep it closed. */
  lemma InvLinks(s: State)
    requires Inv(s)
    ensures Linked(s) && TurnsOk(s) && CallsOk(s)
  {
    hide Linked, TurnsOk, CallsOk, TokensOk, ScheduleOk;
  }

  lemma TurnIsOk(s: State, t: nat)
    requires TurnsOk(s) && t < |s.turns|
    ensures TurnOk(s, t)
  {
    hide TurnOk;
  }

  lemma TurnLengths(s: State, t: nat)
    requires t < |s.turns| && TurnOk(s, t)
    ensures var u := s.turns[t];
            && |u.results| <= |u.issued| <= |u.results| + 1 && |u.issued| <= |u.steps| && ItemsIssued(u)
            && (u.finalEmitted ==> |u.results| == |u.issued| == |u.steps|)
  {
    hide IssuedOk, ResultOk;
  }

  lemma IssuedIsOk(s: State, t: nat, i: nat)
    requires t < |s.turns| && TurnOk(s, t) && i < |s.turns[t].issued|
    ensures |s.turns[t].issued| <= |s.turns[t].steps| && IssuedOk(s, t, i)
  {
    hide IssuedOk, ResultOk;
  }

  lemma ResultIsOk(s: State, t: nat, i: nat)
    requires t < |s.turns| && TurnOk(s, t) && i < |s.turns[t].results|
    ensures |s.turns[t].results| <= |s.turns[t].steps| && ResultOk(s, t, i)
  {
    hide IssuedOk, ResultOk;
  }

  lemma IssuedIsRecorded(s: State, t: nat, i: nat)
    requires t < |s.turns| && i < |s.turns[t].issued| <= |s.turns[t].steps| && IssuedOk(s, t, i)
    ensures var c := s.turns[t].issued[i];
            && c == CallId(s.harness, s.turns[t].token, i) && c in s.turns[t].items
            && c in s.calls && s.calls[c].turn == t && s.calls[c].index == i && s.calls[c].item == s.turns[t].items[c]
            && s.calls[c].receipt == Receipt(s.turns[t].token, i)
            && (s.calls[c].result.None? <==> i >= |s.turns[t].results|)
  {
    hide CallId, Receipt, BuiltFor;
  }

  lemma CallIsOk(s: State, c: string)
    requires CallsOk(s) && c in s.calls
    ensures CallOk(s, c)
  {
    hide CallOk;
  }

  // ------------------------------------------------------------- identifiers

  /** Tokens of one length make call identifiers injective. */
  lemma CallIdInjective(h: Harness, a: string, i: nat, b: string, j: nat)
    requires |a| == |b| && CallId(h, a, i) == CallId(h, b, j)
    ensures a == b && i == j
  {
    var p := if h.Codex? then "call_buddy_" else "toolu_buddy_";
    var x, y := CallId(h, a, i), CallId(h, b, j);
    assert x[|p|..|p| + |a|] == a && y[|p|..|p| + |b|] == b;
    assert x[|p| + |a| + 1..] == Decimal(i) && y[|p| + |b| + 1..] == Decimal(j);
    DecimalInjective(i, j);
  }

  /** The next call of a turn is not recorded yet. */
  lemma FreshCallId(s: State, t: nat)
    requires TurnsOk(s) && CallsOk(s) && TokensOk(s) && t < |s.turns|
    ensures CallId(s.harness, s.turns[t].token, |s.turns[t].issued|) !in s.calls
  {
    hide TurnsOk, TurnOk, CallId, Receipt;
    var id := CallId(s.harness, s.turns[t].token, |s.turns[t].issued|);
    forall c | c in s.calls ensures c != id {
      UnansweredIsOutstanding(s, c);
      var u, i := s.calls[c].turn, s.calls[c].index;
      assert u != t ==> s.turns[u].token != s.turns[t].token;
      if c == id {
        CallIdInjective(s.harness, s.turns[t].token, |s.turns[t].issued|, s.turns[u].token, i);
      }
    }
  }

  lemma BuiltItemAnswersItsCall(env: Env, h: Harness, names: set<string>, step: Step, token: string, index: nat)
    ensures var item := BuildItem(env, h, names, step, token, index);
            item.Some? ==> item.value.Call() == CallId(h, token, index)
  {}

  lemma IssuedItemAnswers(s: State, t: nat, i: nat)
    requires t < |s.turns| && i < |s.turns[t].issued| <= |s.turns[t].steps| && IssuedOk(s, t, i)
    ensures var c := s.turns[t].issued[i];
            c in s.turns[t].items && s.turns[t].items[c].Call() == c
  {
    hide BuildItem, CallId, Receipt;
    var u := s.turns[t];
    var names: set<string> :| BuildItem(s.env, s.harness, names, u.steps[i], u.token, i) == Some(u.items[u.issued[i]]);
    BuiltItemAnswersItsCall(s.env, s.harness, names, u.steps[i], u.token, i);
  }

  // ------------------------------------------------------------ preservation

  /** What `TurnOk` reads of a turn. */
  ghost predicate SameScript(a: Turn, b: Turn) {
    a.steps == b.steps && a.token == b.token && a.results == b.results && a.issued == b.issued && a.items == b.items
  }

  /** A turn keeps its discipline while its script, its results and its own call records stay. */
  lemma TurnOkCarries(s: State, r: State, t: nat)
    requires t < |s.turns| && TurnOk(s, t)
    requires t < |r.turns| && SameScript(s.turns[t], r.turns[t]) && r.env == s.env && r.harness == s.harness
    requires forall c | c in s.calls && s.calls[c].turn == t :: c in r.calls && r.calls[c] == s.calls[c]
    requires r.turns[t].finalEmitted ==> s.turns[t].finalEmitted || AllAnswered(s.turns[t])
    ensures TurnOk(r, t)
  {
    hide IssuedOk, ResultOk, CallId, Receipt;
    forall i | 0 <= i < |r.turns[t].issued| ensures IssuedOk(r, t, i) {
      assert IssuedOk(s, t, i);
      IssuedIsRecorded(s, t, i);
      IssuedOkCarries(s, r, t, i);
    }
    forall i | 0 <= i < |r.turns[t].results| ensures ResultOk(r, t, i) {
      assert IssuedOk(s, t, i) && ResultOk(s, t, i);
      IssuedIsRecorded(s, t, i);
      ResultOkCarries(s, r, t, i);
    }
  }

  /** Every step called, every call answered. */
  predicate AllAnswered(turn: Turn) { |turn.results| == |turn.issued| == |turn.steps| }

  lemma IssuedOkCarries(s: State, r: State, t: nat, i: nat)
    requires t < |s.turns| && i < |s.turns[t].issued| <= |s.turns[t].steps| && IssuedOk(s, t, i)
    requires t < |r.turns| && SameScript(s.turns[t], r.turns[t]) && r.env == s.env && r.harness == s.harness
    requires s.turns[t].issued[i] in r.calls && r.calls[s.turns[t].issued[i]] == s.calls[s.turns[t].issued[i]]
    ensures IssuedOk(r, t, i)
  {
    hide BuiltFor, CallId, Receipt;
    BuiltForCarries(s, r, t, i, s.turns[t].items[s.turns[t].issued[i]]);
  }

  lemma BuiltForCarries(s: State, r: State, t: nat, i: nat, item: Item)
    requires t < |s.turns| && i < |s.turns[t].steps| && BuiltFor(s, s.turns[t], i, item)
    requires t < |r.turns| && s.turns[t].steps == r.turns[t].steps && s.turns[t].token == r.turns[t].token
    requires r.env == s.env && r.harness == s.harness
    ensures BuiltFor(r, r.turns[t], i, item)
  {
    hide BuildItem;
    var u := s.turns[t];
    var names: set<string> :| BuildItem(s.env, s.harness, names, u.steps[i], u.token, i) == Some(item);
    assert BuildItem(r.env, r.harness, names, r.turns[t].steps[i], r.turns[t].token, i) == Some(item);
  }

  lemma ResultOkCarries(s: State, r: State, t: nat, i: nat)
    requires t < |s.turns| && i < |s.turns[t].results| <= |s.turns[t].steps| && ResultOk(s, t, i)
    requires t < |r.turns| && r.turns[t].steps == s.turns[t].steps && r.turns[t].token == s.turns[t].token && r.harness == s.harness
    requires |s.turns[t].results| <= |r.turns[t].results| <= |r.turns[t].steps| && r.turns[t].results[i] == s.turns[t].results[i]
    requires var c := CallId(s.harness, s.turns[t].token, i); c in r.calls && r.calls[c].result == s.calls[c].result
    ensures ResultOk(r, t, i)
  {
    hide CallId, Receipt, ResultOf;
  }

  /** Steps that record no call and no result keep every turn and every call. */
  lemma ScriptsCarry(s: State, r: State)
    requires TurnsOk(s) && CallsOk(s)
    requires |r.turns| == |s.turns| && r.env == s.env && r.harness == s.harness && r.calls == s.calls
    requires forall t | 0 <= t < |s.turns| :: SameScript(s.turns[t], r.turns[t])
    requires forall t | 0 <= t < |s.turns| && r.turns[t].finalEmitted :: s.turns[t].finalEmitted || AllAnswered(s.turns[t])
    ensures TurnsOk(r) && CallsOk(r)
  {
    hide TurnOk, SameScript, AllAnswered;
    forall t | 0 <= t < |r.turns| ensures TurnOk(r, t) {
      assert TurnOk(s, t) && SameScript(s.turns[t], r.turns[t]);
      TurnOkCarries(s, r, t);
    }
    forall c | c in r.calls ensures CallOk(r, c) {
      assert CallOk(s, c);
      CallOkCarries(s, r, c);
    }
  }

  lemma CallOkCarries(s: State, r: State, c: string)
    requires CallOk(s, c) && c in r.calls && r.calls[c] == s.calls[c] && |s.turns| <= |r.turns|
    requires var t := s.calls[c].turn; s.turns[t].issued <= r.turns[t].issued || SameScript(s.turns[t], r.turns[t])
    ensures CallOk(r, c)
  {}

  lemma InitialInv(env: Env, h: Harness)
    ensures Inv(Initial(env, h))
  {}

  ghost predicate FreshToken(s: State, token: string) {
    |token| == TOKEN_LENGTH && forall t | 0 <= t < |s.turns| :: s.turns[t].token != token
  }

  /** Recording a call or a result of one started turn leaves the schedule alone. */
  lemma ScheduleCarries(s: State, r: State, t: nat)
    requires ScheduleOk(s) && t < |s.turns| && s.turns[t].fingerprint.Some?
    requires |r.turns| == |s.turns| && r.queued == s.queued && r.active == s.active && r.last == s.last
    requires forall u | 0 <= u < |s.turns| && u != t :: r.turns[u] == s.turns[u]
    requires r.turns[t].fingerprint == s.turns[t].fingerprint && r.turns[t].finalEmitted == s.turns[t].finalEmitted
    ensures ScheduleOk(r)
  {
    assert forall i | 0 <= i < |s.queued| :: s.queued[i] != t;
  }

  lemma TokensCarry(s: State, r: State)
    requires TokensOk(s) && |r.turns| == |s.turns|
    requires forall u | 0 <= u < |s.turns| :: r.turns[u].token == s.turns[u].token
    ensures TokensOk(r)
  {}

  // ------------------------------------------------------------ a queued turn

  lemma QueueTurnKeepsInv(s: State, title: string, steps: seq<Step>, finalText: string, token: string)
    requires Inv(s) && FreshToken(s, token)
    ensures Inv(QueueTurn(s, title, steps, finalText, token))
  {
    hide Linked, TurnsOk, CallsOk, TokensOk, ScheduleOk, Accepts, FreshToken;
    if Accepts(s.harness, title, steps) {
      QueueTurnKeepsTokens(s, title, steps, finalText, token);
      QueueTurnKeepsScripts(s, title, steps, finalText, token);
      QueueTurnKeepsSchedule(s, title, steps, finalText, token);
      QueueTurnKeepsLinks(s, title, steps, finalText, token);
    }
  }

  lemma QueueTurnKeepsTokens(s: State, title: string, steps: seq<Step>, finalText: string, token: string)
    requires TokensOk(s) && FreshToken(s, token) && Accepts(s.harness, title, steps)
    ensures TokensOk(QueueTurn(s, title, steps, finalText, token))
  {
    hide Accepts;
  }

  lemma QueueTurnKeepsLinks(s: State, title: string, steps: seq<Step>, finalText: string, token: string)
    requires Linked(s) && Accepts(s.harness, title, steps)
    ensures Linked(QueueTurn(s, title, steps, finalText, token))
  {
    hide Accepts;
  }

  lemma QueueTurnKeepsScripts(s: State, title: string, steps: seq<Step>, finalText: string, token: string)
    requires TurnsOk(s) && CallsOk(s) && Accepts(s.harness, title, steps)
    ensures var r := QueueTurn(s, title, steps, finalText, token); TurnsOk(r) && CallsOk(r)
  {
    hide Accepts, TurnOk;
    var r := QueueTurn(s, title, steps, finalText, token);
    NewTurnIsOk(r, |s.turns|);
    forall t | 0 <= t < |s.turns| ensures TurnOk(r, t) {
      assert TurnOk(s, t);
      TurnOkCarries(s, r, t);
    }
    forall c | c in r.calls ensures CallOk(r, c) {
      assert CallOk(s, c);
      CallOkCarries(s, r, c);
    }
  }

  lemma NewTurnIsOk(r: State, t: nat)
    requires t < |r.turns| && r.turns[t].issued == [] && r.turns[t].results == [] && r.turns[t].items == map[]
    requires !r.turns[t].finalEmitted
    ensures TurnOk(r, t)
  {
    hide IssuedOk, ResultOk;
  }

  lemma QueueTurnKeepsSchedule(s: State, title: string, steps: seq<Step>, finalText: string, token: string)
    requires ScheduleOk(s) && Accepts(s.harness, title, steps)
    ensures ScheduleOk(QueueTurn(s, title, steps, finalText, token))
  {
    hide Accepts, Untouched;
    var r := QueueTurn(s, title, steps, finalText, token);
    assert forall t | 0 <= t < |s.turns| :: r.turns[t] == s.turns[t];
    assert forall i | 0 <= i < |s.queued| :: r.queued[i] == s.queued[i];
    NewTurnIsUntouched(title, steps, finalText, token);
  }

  lemma NewTurnIsUntouched(title: string, steps: seq<Step>, finalText: string, token: string)
    ensures Untouched(NewTurn(title, steps, finalText, token))
  {}

  // ----------------------------------------------------------------- a result

  /** A call with no result is its turn's last issued call, one past its results. */
  lemma UnansweredIsOutstanding(s: State, c: string)
    requires TurnsOk(s) && CallsOk(s) && c in s.calls
    ensures var call := s.calls[c];
            && call.turn < |s.turns|
            && var turn := s.turns[call.turn];
               && c == CallId(s.harness, turn.token, call.index)
               && call.index < |turn.issued| && turn.issued[call.index] == c
               && (call.result.None? <==> call.index >= |turn.results|)
               && (call.result.None? ==> call.index == |turn.results| == |turn.issued| - 1)
  {
    hide TurnsOk, TurnOk, CallsOk, IssuedOk, CallId, Receipt;
    CallIsOk(s, c);
    var t := s.calls[c].turn;
    TurnIsOk(s, t);
    TurnLengths(s, t);
    IssuedIsOk(s, t, s.calls[c].index);
    IssuedIsRecorded(s, t, s.calls[c].index);
  }

  /** The outstanding call of a turn, as `WithResult` finds it. */
  ghost predicate Awaits(s: State, o: Output) {
    Linked(s) && TurnsOk(s) && CallsOk(s) && o.callId in s.calls && s.calls[o.callId].result.None?
  }

  /** What recording a result changes. */
  lemma ResultChanges(s: State, o: Output)
    requires Awaits(s, o)
    ensures var call, r := s.calls[o.callId], WithResult(s, o);
            && call.turn < |s.turns| && call.index < |s.turns[call.turn].steps|
            && var u := s.turns[call.turn];
               && call.index == |u.results| == |u.issued| - 1 && call.receipt == Receipt(u.token, call.index)
               && o.callId == CallId(s.harness, u.token, call.index)
               && var result := ResultOf(u.steps[call.index], call.index, call.receipt, o);
                  r == s.(turns := s.turns[call.turn := u.(results := u.results + [result])],
                          calls := s.calls[o.callId := call.(result := Some(o))])
  {
    hide TurnsOk, TurnOk, CallsOk, IssuedOk, CallId, Receipt, ResultOf;
    UnansweredIsOutstanding(s, o.callId);
    var t := s.calls[o.callId].turn;
    TurnIsOk(s, t);
    IssuedIsOk(s, t, s.calls[o.callId].index);
    IssuedIsRecorded(s, t, s.calls[o.callId].index);
  }

  lemma OwnTurnAfterResult(s: State, o: Output)
    requires Awaits(s, o)
    ensures TurnOk(WithResult(s, o), s.calls[o.callId].turn)
  {
    hide TurnsOk, CallsOk, CallId, Receipt, ResultOf, Linked, IssuedOk, ResultOk, WithResult;
    ResultChanges(s, o);
    var t := s.calls[o.callId].turn;
    var u, r := s.turns[t], WithResult(s, o);
    TurnIsOk(s, t);
    forall i | 0 <= i < |u.issued| ensures IssuedOk(r, t, i) {
      OwnCallAfterResult(s, o, i);
    }
    forall i | 0 <= i < |u.results| + 1 ensures ResultOk(r, t, i) {
      if i < |u.results| {
        OldResultStays(s, o, i);
      } else {
        NewResultIsOk(s, o);
      }
    }
  }

  lemma OwnCallAfterResult(s: State, o: Output, i: nat)
    requires Awaits(s, o) && i < |s.turns[s.calls[o.callId].turn].issued|
    ensures var t, r := s.calls[o.callId].turn, WithResult(s, o);
            t < |r.turns| && i < |r.turns[t].issued| <= |r.turns[t].steps| && IssuedOk(r, t, i)
  {
    hide TurnsOk, TurnOk, CallsOk, CallId, Receipt, ResultOf, Linked, BuiltFor, WithResult;
    ResultChanges(s, o);
    var t, k := s.calls[o.callId].turn, s.calls[o.callId].index;
    var u, r := s.turns[t], WithResult(s, o);
    TurnIsOk(s, t);
    IssuedIsOk(s, t, i);
    IssuedIsOk(s, t, k);
    if i != k && u.issued[i] == o.callId {
      CallIdInjective(s.harness, u.token, i, u.token, k);
    }
    BuiltForCarries(s, r, t, i, u.items[u.issued[i]]);
  }

  lemma NewResultIsOk(s: State, o: Output)
    requires Awaits(s, o)
    ensures var t, r := s.calls[o.callId].turn, WithResult(s, o);
            && t < |s.turns| && t < |r.turns|
            && |s.turns[t].results| < |r.turns[t].results| <= |r.turns[t].steps| && ResultOk(r, t, |s.turns[t].results|)
  {
    hide TurnsOk, TurnOk, CallsOk, CallId, Receipt, ExitCode, Linked, WithResult;
    ResultChanges(s, o);
  }

  lemma OldResultStays(s: State, o: Output, i: nat)
    requires Awaits(s, o) && i < |s.turns[s.calls[o.callId].turn].results|
    ensures var t, r := s.calls[o.callId].turn, WithResult(s, o);
            t < |r.turns| && i < |r.turns[t].results| <= |r.turns[t].steps| && ResultOk(r, t, i)
  {
    hide TurnsOk, TurnOk, CallsOk, IssuedOk, ResultOk, CallId, Receipt, ResultOf, Linked, WithResult;
    ResultChanges(s, o);
    var t := s.calls[o.callId].turn;
    TurnIsOk(s, t);
    ResultIsOk(s, t, i);
    IssuedIsOk(s, t, i);
    IssuedIsRecorded(s, t, i);
    ResultOkCarries(s, WithResult(s, o), t, i);
  }

  lemma ResultKeepsScripts(s: State, o: Output)
    requires Awaits(s, o)
    ensures TurnsOk(WithResult(s, o)) && CallsOk(WithResult(s, o))
  {
    hide TurnOk, ResultOf, Receipt, Linked, CallId, WithResult;
    ResultChanges(s, o);
    OwnTurnAfterResult(s, o);
    var t, r := s.calls[o.callId].turn, WithResult(s, o);
    forall u | 0 <= u < |r.turns| && u != t ensures TurnOk(r, u) {
      assert TurnOk(s, u);
      TurnOkCarries(s, r, u);
    }
    forall c | c in r.calls ensures CallOk(r, c) { assert CallOk(s, c); }
  }

  lemma ResultKeepsSchedule(s: State, o: Output)
    requires Awaits(s, o) && ScheduleOk(s) && TokensOk(s)
    ensures ScheduleOk(WithResult(s, o)) && TokensOk(WithResult(s, o))
  {
    hide TurnsOk, CallsOk, ScheduleOk, TokensOk, ResultOf, Receipt, CallId, Linked, WithResult;
    ResultChanges(s, o);
    CalledTurnHasBegun(s, o.callId);
    ScheduleCarries(s, WithResult(s, o), s.calls[o.callId].turn);
    TokensCarry(s, WithResult(s, o));
  }

  lemma CalledTurnHasBegun(s: State, c: string)
    requires TurnsOk(s) && CallsOk(s) && ScheduleOk(s) && c in s.calls
    ensures s.calls[c].turn < |s.turns| && s.turns[s.calls[c].turn].fingerprint.Some?
  {
    hide TurnsOk, CallsOk, CallId;
    UnansweredIsOutstanding(s, c);
  }

  lemma ResultKeepsInv(s: State, o: Output)
    requires Inv(s) && o.callId in s.calls && s.calls[o.callId].result.None?
    ensures Inv(WithResult(s, o))
  {
    hide Linked, TurnsOk, CallsOk, ScheduleOk, TokensOk, WithResult;
    ResultKeepsScripts(s, o);
    ResultKeepsSchedule(s, o);
  }

  lemma AbsorbOneKeepsInv(s: State, o: Output)
    requires Inv(s) && o.callId in s.calls
    ensures Inv(AbsorbOne(s, o).0) && AbsorbOne(s, o).1 != Some(OutOfSequence)
    ensures AbsorbOne(s, o).0 == s || AbsorbOne(s, o).0 == WithResult(s, o)
  {
    hide TurnsOk, CallsOk, TokensOk, ScheduleOk, WithResult, Linked, CallId, Utf8Length;
    UnansweredIsOutstanding(s, o.callId);
    if s.calls[o.callId].result.None? {
      ResultKeepsInv(s, o);
    }
  }

  /** Tool results keep the discipline, and the out-of-sequence refusal never happens. */
  lemma {:induction false} AbsorbKeepsInv(s: State, outputs: seq<Output>)
    requires Inv(s) && forall o | o in outputs :: o.callId in s.calls
    ensures Inv(Absorb(s, outputs).0) && Absorb(s, outputs).1 != Some(OutOfSequence)
    decreases |outputs|
  {
    hide Inv, AbsorbOne, Linked;
    InvLinks(s);
    if outputs == [] {
    } else {
      var o := outputs[0];
      AbsorbOneKeepsInv(s, o);
      var one := AbsorbOne(s, o);
      if one.1.None? {
        AbsorbKeepsInv(one.0, outputs[1..]);
      }
    }
  }

  // ------------------------------------------------------------ the next answer

  lemma ActivateKeepsInv(s: State, fingerprint: string)
    requires Inv(s) && s.active.None? && s.queued != []
    ensures Inv(Activate(s, fingerprint))
  {
    hide TurnsOk, CallsOk, TokensOk, ScheduleOk;
    var r := Activate(s, fingerprint);
    assert s.queued[0] in s.queued;
    ActivateKeepsSchedule(s, fingerprint);
    ScriptsCarry(s, r);
    TokensCarry(s, r);
  }

  lemma ActivateKeepsSchedule(s: State, fingerprint: string)
    requires Linked(s) && ScheduleOk(s) && s.active.None? && s.queued != []
    ensures ScheduleOk(Activate(s, fingerprint))
  {
    hide Linked;
    var r := Activate(s, fingerprint);
    assert forall i | 0 <= i < |r.queued| :: r.queued[i] == s.queued[i + 1];
    assert forall t | 0 <= t < |s.turns| && t != s.queued[0] :: r.turns[t] == s.turns[t];
  }

  /** The next call can be issued: its turn runs, and every call before it is answered. */
  ghost predicate Ready(s: State, item: Item) {
    && Linked(s) && TurnsOk(s) && CallsOk(s) && HasNext(s) && NextItem(s) == Some(item)
    && |s.turns[s.active.value].issued| == |s.turns[s.active.value].results| && !s.turns[s.active.value].finalEmitted
    && CallId(s.harness, s.turns[s.active.value].token, |s.turns[s.active.value].issued|) !in s.calls
  }

  lemma OwnTurnAfterCall(s: State, item: Item)
    requires Ready(s, item)
    ensures TurnOk(WithCall(s, item), s.active.value)
  {
    hide IssuedOk, ResultOk, TurnsOk, CallsOk, CallId, Receipt, NextItem, Linked;
    var t := s.active.value;
    var u, r := s.turns[t], WithCall(s, item);
    TurnIsOk(s, t);
    forall i | 0 <= i < |u.issued| + 1 ensures IssuedOk(r, t, i) {
      if i < |u.issued| {
        assert IssuedOk(s, t, i);
        OldCallIsOk(s, item, i);
      } else {
        NewCallIsOk(s, item);
      }
    }
    forall i | 0 <= i < |u.results| ensures ResultOk(r, t, i) {
      assert IssuedOk(s, t, i) && ResultOk(s, t, i);
      OldResultIsOk(s, item, i);
    }
  }

  lemma NewCallIsOk(s: State, item: Item)
    requires Ready(s, item)
    ensures var t, r := s.active.value, WithCall(s, item);
            |r.turns[t].issued| <= |r.turns[t].steps| && IssuedOk(r, t, |s.turns[t].issued|)
  {
    hide BuildItem, CallId, Receipt, TurnsOk, CallsOk, Linked;
    var t := s.active.value;
    var u, r := s.turns[t], WithCall(s, item);
    assert BuildItem(r.env, r.harness, s.toolNames, r.turns[t].steps[|u.issued|], u.token, |u.issued|) == Some(item);
  }

  lemma OldCallIsOk(s: State, item: Item, i: nat)
    requires Ready(s, item) && i < |s.turns[s.active.value].issued| && IssuedOk(s, s.active.value, i)
    ensures var t, r := s.active.value, WithCall(s, item);
            |r.turns[t].issued| <= |r.turns[t].steps| && i < |r.turns[t].issued| && IssuedOk(r, t, i)
  {
    hide BuiltFor, CallId, Receipt, NextItem, TurnsOk, CallsOk, Linked;
    var t := s.active.value;
    BuiltForCarries(s, WithCall(s, item), t, i, s.turns[t].items[s.turns[t].issued[i]]);
  }

  lemma OldResultIsOk(s: State, item: Item, i: nat)
    requires Ready(s, item) && i < |s.turns[s.active.value].results| && IssuedOk(s, s.active.value, i) && ResultOk(s, s.active.value, i)
    ensures var t, r := s.active.value, WithCall(s, item);
            |r.turns[t].results| <= |r.turns[t].steps| && i < |r.turns[t].results| && ResultOk(r, t, i)
  {
    hide IssuedOk, ResultOk, CallId, Receipt, NextItem, TurnsOk, CallsOk, Linked;
    IssuedIsRecorded(s, s.active.value, i);
    ResultOkCarries(s, WithCall(s, item), s.active.value, i);
  }

  lemma CallKeepsScripts(s: State, item: Item)
    requires Ready(s, item)
    ensures TurnsOk(WithCall(s, item)) && CallsOk(WithCall(s, item))
  {
    hide TurnOk, NextItem, Linked, CallId, Receipt;
    var t, r := s.active.value, WithCall(s, item);
    var id := CallId(s.harness, s.turns[t].token, |s.turns[t].issued|);
    OwnTurnAfterCall(s, item);
    forall v | 0 <= v < |r.turns| && v != t ensures TurnOk(r, v) {
      assert TurnOk(s, v);
      TurnOkCarries(s, r, v);
    }
    forall c | c in s.calls ensures CallOk(r, c) {
      assert CallOk(s, c);
      CallOkCarries(s, r, c);
    }
    assert CallOk(r, id);
  }

  lemma CallKeepsSchedule(s: State, item: Item)
    requires Linked(s) && HasNext(s) && ScheduleOk(s) && TokensOk(s)
    ensures ScheduleOk(WithCall(s, item)) && TokensOk(WithCall(s, item))
  {
    hide Linked, ScheduleOk, TokensOk, CallId, Receipt;
    RunningHasBegun(s);
    ScheduleCarries(s, WithCall(s, item), s.active.value);
    TokensCarry(s, WithCall(s, item));
  }

  lemma RunningHasBegun(s: State)
    requires ScheduleOk(s) && s.active.Some?
    ensures s.active.value < |s.turns|
    ensures s.turns[s.active.value].fingerprint.Some? && !s.turns[s.active.value].finalEmitted
  {}

  lemma IssueKeepsInv(s: State)
    requires Inv(s) && HasNext(s) && |s.turns[s.active.value].issued| == |s.turns[s.active.value].results|
    ensures Inv(Issue(s).0)
  {
    hide Linked, TurnsOk, CallsOk, ScheduleOk, TokensOk, NextItem, WithCall, CallId;
    RunningHasBegun(s);
    if NextItem(s).Some? {
      FreshCallId(s, s.active.value);
      CallKeepsScripts(s, NextItem(s).value);
      CallKeepsSchedule(s, NextItem(s).value);
    }
  }

  lemma FinishKeepsSchedule(s: State)
    requires Linked(s) && ScheduleOk(s) && s.active.Some?
    ensures ScheduleOk(Finish(s))
  {
    hide Linked;
    assert forall i | 0 <= i < |s.queued| :: s.queued[i] != s.active.value;
    assert forall t | 0 <= t < |s.turns| && t != s.active.value :: Finish(s).turns[t] == s.turns[t];
  }

  lemma FinishKeepsInv(s: State)
    requires Inv(s) && s.active.Some? && s.active.value < |s.turns| && AllAnswered(s.turns[s.active.value])
    ensures Inv(Finish(s))
  {
    hide Linked, TurnsOk, CallsOk, ScheduleOk, TokensOk;
    FinishKeepsSchedule(s);
    ScriptsCarry(s, Finish(s));
    TokensCarry(s, Finish(s));
  }

  lemma AdvanceKeepsInv(s: State)
    requires Inv(s) && s.active.Some?
    ensures Inv(Advance(s).0)
  {
    hide Inv, Linked, Issue, Finish;
    RunningTurnOk(s);
    var turn := s.turns[s.active.value];
    if |turn.results| == |turn.issued| {
      if HasNext(s) {
        IssueKeepsInv(s);
      } else {
        FinishKeepsInv(s);
      }
    }
  }

  lemma RunningTurnOk(s: State)
    requires Inv(s) && s.active.Some?
    ensures Linked(s) && s.active.value < |s.turns|
    ensures var u := s.turns[s.active.value];
            && |u.results| <= |u.issued| <= |u.results| + 1 && |u.issued| <= |u.steps|
            && u.fingerprint.Some? && !u.finalEmitted
  {
    hide Linked, TurnsOk, TurnOk, CallsOk, ScheduleOk, TokensOk;
    RunningHasBegun(s);
    TurnIsOk(s, s.active.value);
    TurnLengths(s, s.active.value);
  }

  lemma DispatchKeepsInv(s: State, fingerprint: string)
    requires Inv(s)
    ensures Inv(Dispatch(s, fingerprint).0)
    ensures Dispatch(s, fingerprint).1 != Raised(OutOfSequence)
  {
    hide Inv, Linked, Issue, Advance, Activate;
    InvLinks(s);
    if s.active.Some? {
      AdvanceKeepsInv(s);
    } else if s.queued != [] {
      ActivateKeepsInv(s, fingerprint);
      AdvanceKeepsInv(Activate(s, fingerprint));
    }
  }

  // ------------------------------------------------------------- every request

  /** The invariant speaks of turns, calls and schedule only. */
  lemma InvIgnoresLogs(s: State, r: State)
    requires Inv(s)
    requires r == s.(requests := r.requests, timeline := r.timeline, toolNames := r.toolNames)
    ensures Inv(r)
  {
    hide TurnsOk, CallsOk, TokensOk, ScheduleOk;
    ScriptsCarry(s, r);
    TokensCarry(s, r);
    ScheduleOfTurns(s, r);
  }

  lemma ScheduleOfTurns(s: State, r: State)
    requires ScheduleOk(s) && r.turns == s.turns && r.queued == s.queued && r.active == s.active && r.last == s.last
    ensures ScheduleOk(r)
  {}

  lemma AbandonKeepsInv(s: State)
    requires Inv(s)
    ensures Inv(Abandon(s))
  {
    hide TurnsOk, CallsOk, TokensOk, ScheduleOk;
    ScriptsCarry(s, Abandon(s));
    TokensCarry(s, Abandon(s));
    AbandonKeepsSchedule(s);
  }

  lemma AbandonKeepsSchedule(s: State)
    requires ScheduleOk(s)
    ensures ScheduleOk(Abandon(s))
  {}

  /** Every request, answered or refused at any point, keeps the discipline. */
  lemma RespondKeepsInv(s: State, req: Request)
    requires Inv(s)
    ensures Inv(Respond(s, req).0)
    ensures Respond(s, req).1 != Raised(OutOfSequence)
  {
    hide Inv, Linked, Absorb, Dispatch;
    InvLinks(s);
    var a := Advertise(s, req.tools);
    InvIgnoresLogs(s, a);
    InvLinks(a);
    var known := Known(s.calls.Keys, req.outputs);
    AbsorbKeepsInv(a, known);
    var absorbed := Absorb(a, known);
    if absorbed.1.None? {
      var b := Arrive(absorbed.0, req, known);
      InvIgnoresLogs(absorbed.0, b);
      InvLinks(b);
      DispatchKeepsInv(b, req.fingerprint);
    }
  }
}
