/** What is queued: which scripts are accepted, and that each is kept as it was given. */
module Scripts {
  import opened Option
  import opened Text
  import opened ProviderSpec
  import opened Discipline
  import Fixture

  predicate IsScript(turn: Turn, title: string, steps: seq<Step>, finalText: string, token: string) {
    turn.title == title && turn.steps == steps && turn.finalText == finalText && turn.token == token
  }

  predicate IsNewTurn(turn: Turn) {
    turn.results == [] && turn.issued == [] && turn.items == map[] && turn.fingerprint.None? && !turn.finalEmitted
  }

  /** A script is accepted exactly when it has a title, at most 64 steps, and only steps its harness has tools
      for: Codex a shell and patches, Claude a shell and writes. It joins the queue at the back as it was given. */
  lemma QueueTurnTakesScripts(s: State, title: string, steps: seq<Step>, finalText: string, token: string)
    ensures var r := QueueTurn(s, title, steps, finalText, token);
            if title != "" && |steps| <= 64
               && forall i | 0 <= i < |steps| :: match steps[i]
                                                case Shell(_, _, _, _, _) => true
                                                case Patch(_) => s.harness.Codex?
                                                case Write(_, _) => s.harness.Claude?
            then
              && |r.turns| == |s.turns| + 1 && r.turns[..|s.turns|] == s.turns && r.queued == s.queued + [|s.turns|]
              && r == s.(turns := r.turns, queued := r.queued)
              && IsScript(r.turns[|s.turns|], title, steps, finalText, token) && IsNewTurn(r.turns[|s.turns|])
            else r == s
  {}

  /** A script that was queued is kept as it was given, in every later state of any run. */
  lemma QueuedScriptStays(sys: Fixture.Sys, title: string, steps: seq<Step>, finalText: string, token: string, events: seq<Fixture.Event>)
    requires Inv(sys.p) && FreshToken(sys.p, token)
    requires |Fixture.Next(sys, Fixture.Queued(title, steps, finalText, token)).p.turns| > |sys.p.turns|
    requires Fixture.Possible(Fixture.Next(sys, Fixture.Queued(title, steps, finalText, token)), events)
    ensures var r, t := Fixture.Exec(Fixture.Next(sys, Fixture.Queued(title, steps, finalText, token)), events).p, |sys.p.turns|;
            t < |r.turns| && IsScript(r.turns[t], title, steps, finalText, token)
  {
    hide Inv, QueueTurn, Fixture.Exec, Fixture.Possible;
    QueueTurnTakesScripts(sys.p, title, steps, finalText, token);
    RunKeepsScripts(Fixture.Next(sys, Fixture.Queued(title, steps, finalText, token)), events);
  }

  /** Turns stay where they are, with their own scripts and tokens, and so does the harness. */
  ghost predicate ScriptsStay(s: State, r: State) {
    && r.harness == s.harness && |s.turns| <= |r.turns|
    && forall t | 0 <= t < |s.turns| :: IsScript(r.turns[t], s.turns[t].title, s.turns[t].steps, s.turns[t].finalText, s.turns[t].token)
  }

  lemma {:induction false} AbsorbKeepsScripts(s: State, outputs: seq<Output>)
    requires Linked(s) && forall o | o in outputs :: o.callId in s.calls
    ensures ScriptsStay(s, Absorb(s, outputs).0)
    decreases |outputs|
  {
    hide Linked, AbsorbOne;
    if outputs == [] {
    } else {
      AbsorbOneKeepsScripts(s, outputs[0]);
      if AbsorbOne(s, outputs[0]).1.None? {
        AbsorbKeepsScripts(AbsorbOne(s, outputs[0]).0, outputs[1..]);
      }
    }
  }

  lemma AbsorbOneKeepsScripts(s: State, o: Output)
    requires Linked(s) && o.callId in s.calls
    ensures ScriptsStay(s, AbsorbOne(s, o).0)
  {
    hide Linked, WithResult, Utf8Length;
    WithResultKeepsScripts(s, o);
  }

  lemma WithResultKeepsScripts(s: State, o: Output)
    requires Linked(s) && o.callId in s.calls
    ensures ScriptsStay(s, WithResult(s, o))
  {
    hide ResultOf, ScheduleLinked, LastCallsLinked;
  }

  lemma AdvanceKeepsScripts(s: State)
    requires Linked(s) && s.active.Some?
    ensures ScriptsStay(s, Advance(s).0)
  {
    hide Linked, NextItem, CallId, Receipt, FinalItem;
    RunningIsTurn(s);
  }

  lemma DispatchKeepsScripts(s: State, fingerprint: string)
    requires Linked(s)
    ensures ScriptsStay(s, Dispatch(s, fingerprint).0)
  {
    hide Advance;
    if s.active.Some? {
      AdvanceKeepsScripts(s);
    } else if s.queued != [] {
      assert s.queued[0] in s.queued;
      AdvanceKeepsScripts(Activate(s, fingerprint));
    }
  }

  lemma RespondKeepsScripts(s: State, req: Request)
    requires Linked(s)
    ensures ScriptsStay(s, Respond(s, req).0)
  {
    hide Linked, Absorb, Dispatch;
    var a := Advertise(s, req.tools);
    LinksIgnoreLogs(s, a);
    var known := Known(s.calls.Keys, req.outputs);
    AbsorbKeepsScripts(a, known);
    var b := Arrive(Absorb(a, known).0, req, known);
    LinksIgnoreLogs(Absorb(a, known).0, b);
    DispatchKeepsScripts(b, req.fingerprint);
  }

  lemma NextKeepsScripts(sys: Fixture.Sys, e: Fixture.Event)
    requires Inv(sys.p) && Fixture.Can(sys, e)
    ensures ScriptsStay(sys.p, Fixture.Next(sys, e).p)
  {
    hide Inv, Linked, Respond;
    InvLinks(sys.p);
    if e.Arrived? {
      RespondKeepsScripts(sys.p, e.request);
    }
  }

  lemma {:induction false} RunKeepsScripts(sys: Fixture.Sys, events: seq<Fixture.Event>)
    requires Inv(sys.p) && Fixture.Possible(sys, events)
    ensures ScriptsStay(sys.p, Fixture.Exec(sys, events).p)
    decreases |events|
  {
    hide Inv, Fixture.Next, Fixture.Can;
    if events == [] {
    } else {
      NextKeepsScripts(sys, events[0]);
      RunKeepsScripts(Fixture.Next(sys, events[0]), events[1..]);
    }
  }
}
