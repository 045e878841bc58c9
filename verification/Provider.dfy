/** The objects of scripts/mixed_fleet_provider.py, updated in place, each method proved against the
    step it takes on the provider's value. */
module Provider {
  import opened Option
  import opened Text
  import Spec = ProviderSpec
  import opened Discipline

  class ScriptedTurn {
    const title: string
    const steps: seq<Spec.Step>
    const finalText: string
    const token: string
    /** Its position in the provider's `turns`: the name the specification knows it by. */
    ghost const id: nat

    var results: seq<Spec.StepResult>
    var finalEmitted: bool
    var inputFingerprint: Option<string>
    var issued: seq<string>
    var items: map<string, Spec.Item>

    constructor (title: string, steps: seq<Spec.Step>, finalText: string, token: string, ghost id: nat)
      ensures View() == Spec.NewTurn(title, steps, finalText, token) && this.id == id
    {
      this.title, this.steps, this.finalText, this.token, this.id := title, steps, finalText, token, id;
      results, finalEmitted, inputFingerprint, issued, items := [], false, None, [], map[];
    }

    function View(): Spec.Turn
      reads this
    {
      Spec.Turn(title, steps, finalText, token, results, finalEmitted, inputFingerprint, issued, items)
    }
  }

  /** An entry of `_calls`; its turn is the object itself. */
  datatype Call = Call(turn: ScriptedTurn, index: nat, item: Spec.Item, receipt: string, result: Option<Spec.Output>)

  ghost function RecordOf(c: Call): Spec.CallRecord {
    Spec.CallRecord(c.turn.id, c.index, c.item, c.receipt, c.result)
  }

  ghost function RecordsOf(calls: map<string, Call>): map<string, Spec.CallRecord> {
    map c | c in calls :: RecordOf(calls[c])
  }

  ghost function ViewsOf(ts: seq<ScriptedTurn>): seq<Spec.Turn>
    reads ts
  {
    seq(|ts|, i requires 0 <= i < |ts| reads ts => ts[i].View())
  }

  ghost function IdsOf(ts: seq<ScriptedTurn>): seq<nat> {
    seq(|ts|, i requires 0 <= i < |ts| => ts[i].id)
  }

  class ScriptedProvider {
    const env: Spec.Env
    const harness: Spec.Harness
    var requests: seq<Spec.RequestRow>
    var timeline: seq<Spec.Row>
    var turns: seq<ScriptedTurn>
    var queued: seq<ScriptedTurn>
    var active: ScriptedTurn?
    var last: ScriptedTurn?
    var calls: map<string, Call>
    var toolNames: set<string>

    // ------------------------------------------------------------ abstraction

    /** Every reference the provider holds is one of its turns, named by its position. */
    ghost predicate Valid()
      reads this
    {
      && (forall i | 0 <= i < |turns| :: turns[i].id == i)
      && (forall i | 0 <= i < |queued| :: queued[i] in turns)
      && (active != null ==> active in turns)
      && (last != null ==> last in turns)
      && (forall c | c in calls :: calls[c].turn in turns)
    }

    /** Valid, and in a state the turn discipline allows. */
    ghost predicate Disciplined()
      reads this, turns
    {
      Valid() && Inv(View())
    }

    ghost function View(): Spec.State
      reads this, turns
    {
      Spec.State(env, harness, requests, timeline, ViewsOf(turns), IdsOf(queued),
                 if active == null then None else Some(active.id),
                 if last == null then None else Some(last.id), RecordsOf(calls), toolNames)
    }

    lemma TurnOf(t: ScriptedTurn)
      requires Valid() && t in turns
      ensures t.id < |turns| && turns[t.id] == t && View().turns[t.id] == t.View()
    {}

    /** What the value says, field by field. */
    lemma Fields()
      requires Valid()
      ensures var v := View();
              && v.env == env && v.harness == harness && v.requests == requests && v.timeline == timeline
              && v.toolNames == toolNames && |v.turns| == |turns| && v.queued == IdsOf(queued)
              && v.active == (if active == null then None else Some(active.id))
              && v.last == (if last == null then None else Some(last.id))
              && v.calls.Keys == calls.Keys && forall c | c in calls :: v.calls[c] == RecordOf(calls[c])
    {}

    /** Replacing one call's record and one turn's fields is `Record` on the provider's value. */
    lemma RecordedView(was: Spec.State, wasCalls: map<string, Call>, id: string, call: Call)
      requires Valid() && call.turn in turns && calls == wasCalls[id := call] && was.calls == RecordsOf(wasCalls)
      requires |was.turns| == |turns|
      requires forall i | 0 <= i < |turns| && i != call.turn.id :: was.turns[i] == turns[i].View()
      requires was.(turns := View().turns, calls := View().calls) == View()
      ensures call.turn.id < |was.turns| && View() == Spec.Record(was, id, RecordOf(call), call.turn.View())
    {
      TurnOf(call.turn);
      assert ViewsOf(turns) == was.turns[call.turn.id := call.turn.View()];
      assert RecordsOf(calls) == was.calls[id := RecordOf(call)];
    }

    constructor (env: Spec.Env, harness: Spec.Harness)
      ensures Disciplined() && View() == Spec.Initial(env, harness)
    {
      hide Inv;
      this.env, this.harness := env, harness;
      requests, timeline, turns, queued, active, last, calls, toolNames := [], [], [], [], null, null, map[], {};
      new;
      InitialInv(env, harness);
      assert View() == Spec.Initial(env, harness);
    }

    // ------------------------------------------------------------- operations

    /** A marker row, and the number of requests before it; a label that is not one nonempty line is refused. */
    method Mark(stage: string) returns (count: Result<nat>)
      requires Disciplined()
      modifies this`timeline
      ensures Disciplined() && (View(), count) == Spec.Mark(old(View()), stage)
    {
      hide Inv;
      if !Spec.OneLine(stage) {
        return Err;
      }
      timeline := timeline + [Spec.Marker(stage)];
      InvIgnoresLogs(old(View()), View());
      return Ok(|requests|);
    }

    /** A new turn behind those already queued; the token is fresh from `uuid4`. */
    method QueueTurn(title: string, steps: seq<Spec.Step>, finalText: string, token: string)
      returns (turn: Result<ScriptedTurn>)
      requires Disciplined() && FreshToken(View(), token)
      modifies this`turns, this`queued
      ensures Disciplined() && View() == Spec.QueueTurn(old(View()), title, steps, finalText, token)
      ensures turn.Ok? <==> Spec.Accepts(harness, title, steps)
      ensures turn.Ok? ==> fresh(turn.value) && turns == old(turns) + [turn.value] && queued == old(queued) + [turn.value]
      ensures turn.Ok? ==> turn.value.View() == Spec.Turn(title, steps, finalText, token, [], false, None, [], map[])
    {
      hide Inv;
      QueueTurnKeepsInv(View(), title, steps, finalText, token);
      if !Spec.Accepts(harness, title, steps) {
        return Err;
      }
      var t := new ScriptedTurn(title, steps, finalText, token, |turns|);
      turns := turns + [t];
      queued := queued + [t];
      assert ViewsOf(turns) == old(ViewsOf(turns)) + [t.View()];
      assert IdsOf(queued) == old(IdsOf(queued)) + [t.id];
      return Ok(t);
    }

    /** The row a handler appends after its answer was written, or after its client was gone. */
    method RecordAnswer(sequence: int, closed: bool)
      requires Disciplined()
      modifies this`timeline
      ensures Disciplined() && View() == Spec.RecordAnswer(old(View()), sequence, closed)
    {
      hide Inv;
      timeline := timeline + [if closed then Spec.ClosedAt(sequence) else Spec.RespondedAt(sequence)];
      InvIgnoresLogs(old(View()), View());
    }

    /** The runner's step after a fault: no turn runs and none waits. */
    method Abandon()
      requires Disciplined()
      modifies this`active, this`queued
      ensures Disciplined() && View() == Spec.Abandon(old(View()))
      ensures active == null && queued == []
    {
      hide Inv;
      active := null;
      queued := [];
      assert IdsOf(queued) == [];
      AbandonKeepsInv(old(View()));
    }

    /** Record one known tool result, or say why it is refused. */
    method AbsorbOne(o: Spec.Output) returns (error: Option<Spec.Error>)
      requires Valid() && Spec.Linked(View()) && o.callId in calls
      modifies this`calls, turns
      ensures Valid() && (View(), error) == Spec.AbsorbOne(old(View()), o)
    {
      hide Utf8Length, Spec.ResultOf;
      var call := calls[o.callId];
      var turn := call.turn;
      TurnOf(turn);
      assert View().calls[o.callId] == RecordOf(call) && call.index < |turn.steps|;
      if Utf8Length(o.text) > Spec.MAX_OUTPUT {
        return Some(Spec.OutputTooLarge);
      }
      if call.result.Some? {
        return if o != call.result.value then Some(Spec.HistoryChanged) else None;
      }
      if call.index != |turn.results| {
        return Some(Spec.OutOfSequence);
      }
      RecordResult(o, call);
      return None;
    }

    /** Set a call's result and append it to its turn. */
    method RecordResult(o: Spec.Output, call: Call)
      requires Valid() && call.turn in turns && call.index < |call.turn.steps|
      modifies this`calls, call.turn`results
      ensures Valid() && call.turn.id < |old(View()).turns|
      ensures View() == Spec.Record(old(View()), o.callId, RecordOf(call.(result := Some(o))),
                                    old(call.turn.View()).(results := old(call.turn.results) +
                                      [Spec.ResultOf(call.turn.steps[call.index], call.index, call.receipt, o)]))
    {
      hide Spec.ResultOf;
      ghost var was, wasCalls := View(), calls;
      TurnOf(call.turn);
      calls := calls[o.callId := call.(result := Some(o))];
      call.turn.results := call.turn.results + [Spec.ResultOf(call.turn.steps[call.index], call.index, call.receipt, o)];
      RecordedView(was, wasCalls, o.callId, calls[o.callId]);
    }

    /** Issue call `index` of a turn: `_item`. */
    method Item(turn: ScriptedTurn, index: nat) returns (item: Option<Spec.Item>)
      requires Valid() && Spec.Linked(View()) && active == turn && index == |turn.issued| < |turn.steps|
      requires turn in turns
      modifies this`calls, turn`issued, turn`items
      ensures Valid()
      ensures (View(), if item.Some? then Spec.Answer(item.value, |requests|) else Spec.Raised(Spec.ApprovalUnsupported))
              == Spec.Issue(old(View()))
    {
      hide Spec.BuildItem, Spec.CallId, Spec.Receipt, Spec.Linked;
      TurnOf(turn);
      item := Spec.BuildItem(env, harness, toolNames, turn.steps[index], turn.token, index);
      if item.None? {
        return;
      }
      ghost var was, wasCalls := View(), calls;
      var id := Spec.CallId(harness, turn.token, index);
      calls := calls[id := Call(turn, index, item.value, Spec.Receipt(turn.token, index), None)];
      turn.issued := turn.issued + [id];
      turn.items := turn.items[id := item.value];
      RecordedView(was, wasCalls, id, calls[id]);
    }

    /** The running turn's answer, once the request is logged. */
    method Advance() returns (o: Spec.Outcome)
      requires Valid() && Spec.Linked(View()) && active != null
      modifies this`calls, this`active, this`last, turns
      ensures Valid() && (View(), o) == Spec.Advance(old(View()))
    {
      hide Spec.Issue, Spec.Linked, View, ViewsOf, RecordsOf;
      var turn := active;
      TurnOf(turn);
      Fields();
      Spec.RunningIsTurn(View());
      if |turn.results| < |turn.issued| {
        return Spec.Answer(calls[turn.issued[|turn.issued| - 1]].item, |requests|);
      }
      if |turn.issued| < |turn.steps| {
        var item := Item(turn, |turn.issued|);
        return if item.Some? then Spec.Answer(item.value, |requests|) else Spec.Raised(Spec.ApprovalUnsupported);
      }
      o := Spec.Answer(Spec.FinalItem(harness, turn.View()), |requests|);
      Finish(turn);
    }

    method Finish(turn: ScriptedTurn)
      requires Valid() && turn in turns
      modifies this`active, this`last, turn`finalEmitted
      ensures Valid() && turn.id < |old(View()).turns|
      ensures View() == old(View()).(turns := old(View()).turns[turn.id := old(turn.View()).(finalEmitted := true)],
                                     active := None, last := Some(turn.id))
    {
      TurnOf(turn);
      turn.finalEmitted := true;
      active := null;
      last := turn;
      assert ViewsOf(turns) == old(ViewsOf(turns))[turn.id := turn.View()];
    }

    /** Replay a finished turn on its own input, or run the next one. */
    method Dispatch(fingerprint: string) returns (o: Spec.Outcome)
      requires Valid() && Spec.Linked(View())
      modifies this`queued, this`active, this`last, this`calls, turns
      ensures Valid() && (View(), o) == Spec.Dispatch(old(View()), fingerprint)
    {
      hide Spec.Advance, Spec.Linked;
      if active == null {
        if last != null {
          TurnOf(last);
          if last.inputFingerprint == Some(fingerprint) {
            return Spec.Answer(Spec.FinalItem(harness, last.View()), |requests|);
          }
        }
        if queued == [] {
          return Spec.Raised(Spec.NoQueuedTurn);
        }
        Activate(fingerprint);
      }
      o := Advance();
    }

    method Activate(fingerprint: string)
      requires Valid() && Spec.Linked(View()) && queued != []
      modifies this`queued, this`active, turns
      ensures Valid() && active != null && View() == Spec.Activate(old(View()), fingerprint)
    {
      hide Spec.Linked, RecordsOf;
      var turn := queued[0];
      TurnOf(turn);
      active := turn;
      queued := queued[1..];
      turn.inputFingerprint := Some(fingerprint);
      assert ViewsOf(turns) == old(ViewsOf(turns))[turn.id := turn.View()];
      assert IdsOf(queued) == old(IdsOf(queued))[1..];
    }

    /** Record known results in order, up to the first that is refused. */
    method Absorb(known: seq<Spec.Output>) returns (error: Option<Spec.Error>)
      requires Valid() && Spec.Linked(View()) && forall o | o in known :: o.callId in calls
      modifies this`calls, turns
      ensures Valid() && Spec.Linked(View()) && (View(), error) == Spec.Absorb(old(View()), known)
    {
      hide Spec.AbsorbOne, Spec.Linked;
      ghost var start := View();
      assert start.calls.Keys == calls.Keys;
      var i := 0;
      while i < |known|
        invariant 0 <= i <= |known| && Valid() && Spec.Linked(View()) && View().calls.Keys == start.calls.Keys
        invariant Spec.Absorb(start, known) == Spec.Absorb(View(), known[i..])
      {
        assert known[i] in known && known[i..][0] == known[i] && known[i..][1..] == known[i + 1..];
        assert known[i].callId in View().calls;
        error := AbsorbOne(known[i]);
        if error.Some? {
          return;
        }
        i := i + 1;
      }
      return None;
    }

    /** `_respond`: whatever it raises, and wherever, the discipline holds when the lock is released. */
    method Respond(request: Spec.Request) returns (o: Spec.Outcome)
      requires Disciplined()
      modifies this`requests, this`timeline, this`queued, this`active, this`last, this`calls, this`toolNames, turns
      ensures Disciplined() && (View(), o) == Spec.Respond(old(View()), request)
      ensures o != Spec.Raised(Spec.OutOfSequence)
    {
      hide Inv, Spec.Respond;
      InvLinks(View());
      RespondKeepsInv(View(), request);
      o := Handle(request);
    }

    /** Absorb the request's known tool results, log it, and answer it. */
    method Handle(request: Spec.Request) returns (o: Spec.Outcome)
      requires Valid() && Spec.Linked(View())
      modifies this`requests, this`timeline, this`queued, this`active, this`last, this`calls, this`toolNames, turns
      ensures Valid() && (View(), o) == Spec.Respond(old(View()), request)
    {
      hide Spec.Absorb, Spec.Dispatch, Spec.Linked, Spec.Known, View;
      Fields();
      Advertise(request.tools);
      Spec.LinksIgnoreLogs(old(View()), View());
      Fields();
      var known := Spec.Known(calls.Keys, request.outputs);
      var error := Absorb(known);
      if error.Some? {
        return Spec.Raised(error.value);
      }
      ghost var absorbed := View();
      Log(request, known);
      Spec.LinksIgnoreLogs(absorbed, View());
      o := Dispatch(request.fingerprint);
    }

    method Advertise(tools: seq<string>)
      requires Valid()
      modifies this`toolNames
      ensures Valid() && View() == Spec.Advertise(old(View()), tools)
    {
      toolNames := toolNames + set n | n in tools;
    }

    /** The request's row, and its row in the timeline. */
    method Log(request: Spec.Request, known: seq<Spec.Output>)
      requires Valid()
      modifies this`requests, this`timeline
      ensures Valid() && View() == Spec.Arrive(old(View()), request, known)
      ensures requests == old(requests) + [Spec.RequestRow(request.path, request.tools, known, request.fingerprint)]
      ensures timeline == old(timeline) + [Spec.RequestAt(|old(requests)| + 1)]
    {
      requests := requests + [Spec.RequestRow(request.path, request.tools, known, request.fingerprint)];
      timeline := timeline + [Spec.RequestAt(|requests|)];
    }
  }
}
