/** What the runner's abandon step does: nothing runs or waits any more, and what it gave up never ends. */
module GivenUp {
  import opened Option
  import opened Text
  import opened ProviderSpec
  import opened Discipline
  import opened Retries
  import opened RunLength
  import Fixture
  import Scripts

  /** Nothing runs and nothing waits. */
  predicate Idle(s: State) { s.active.None? && s.queued == [] }

  /** The step gives up the running script and everything queued, and changes nothing else. */
  lemma AbandonLeavesNothingToDo(sys: Fixture.Sys)
    requires Inv(sys.p)
    ensures var r := Fixture.Next(sys, Fixture.Abandoned);
            Idle(r.p) && r == sys.(p := sys.p.(active := None, queued := []))
  {
    hide Inv;
  }

  /** The input is not the one the last finished turn started on. */
  ghost predicate IsNewInput(s: State, req: Request) {
    s.last.Some? && s.last.value < |s.turns| ==> s.turns[s.last.value].fingerprint != Some(req.fingerprint)
  }

  /** With nothing queued, new input is refused; any input begins no turn and ends none. */
  lemma IdleRefusesNewInput(s: State, req: Request)
    requires Inv(s) && Idle(s) && Fits(s, req.outputs)
    ensures Linked(s) && Idle(Respond(s, req).0)
    ensures IsNewInput(s, req) ==> Respond(s, req).1 == Raised(NoQueuedTurn)
  {
    hide Inv, Linked, Respond, Taken, Fits, Advance;
    TakenReachesDispatch(s, req);
    if s.last.Some? {
      LastIsDone(s);
      TakenKeepsQuietTurn(s, req, s.last.value);
    }
  }

  lemma IdleStaysIdle(sys: Fixture.Sys, e: Fixture.Event)
    requires Inv(sys.p) && Idle(sys.p) && Fixture.Can(sys, e) && !e.Queued?
    ensures Idle(Fixture.Next(sys, e).p)
  {
    hide Inv, Linked, Respond;
    InvLinks(sys.p);
    if e.Arrived? {
      RespondKeepsIdle(sys.p, e.request);
    }
  }

  lemma RespondKeepsIdle(s: State, req: Request)
    requires Inv(s) && Idle(s)
    ensures Linked(s) && Idle(Respond(s, req).0)
  {
    hide Inv, Linked, Absorb, Advance;
    InvLinks(s);
    var a := Advertise(s, req.tools);
    LinksIgnoreLogs(s, a);
    var known := Known(s.calls.Keys, req.outputs);
    LinksIgnoreLogs(Absorb(a, known).0, Arrive(Absorb(a, known).0, req, known));
  }

  predicate NothingQueued(events: seq<Fixture.Event>) { forall e | e in events :: !e.Queued? }

  lemma {:induction false} QuietRunStaysIdle(sys: Fixture.Sys, events: seq<Fixture.Event>)
    requires Inv(sys.p) && Idle(sys.p) && Fixture.Possible(sys, events) && NothingQueued(events)
    ensures Idle(Fixture.Exec(sys, events).p)
    decreases |events|
  {
    hide Inv, Fixture.Next, Fixture.Can, Idle;
    if events == [] {
    } else {
      assert events[0] in events;
      IdleStaysIdle(sys, events[0]);
      QuietRunStaysIdle(Fixture.Next(sys, events[0]), events[1..]);
    }
  }

  // ------------------------------------------------------- what comes afterwards

  /** The turn waits first in the queue, with this script, and nothing runs. */
  ghost predicate WaitsFirst(s: State, t: nat, title: string, steps: seq<Step>, finalText: string, token: string) {
    && s.active.None? && s.queued != [] && s.queued[0] == t && t < |s.turns|
    && Scripts.IsScript(s.turns[t], title, steps, finalText, token)
  }

  /** No request comes, and nothing is given up. */
  predicate OnlyWaiting(events: seq<Fixture.Event>) { forall e | e in events :: !e.Arrived? && !e.Abandoned? }

  lemma {:induction false} FirstStaysFirst(sys: Fixture.Sys, events: seq<Fixture.Event>, t: nat, title: string, steps: seq<Step>, finalText: string, token: string)
    requires Inv(sys.p) && WaitsFirst(sys.p, t, title, steps, finalText, token) && Fixture.Possible(sys, events) && OnlyWaiting(events)
    ensures WaitsFirst(Fixture.Exec(sys, events).p, t, title, steps, finalText, token)
    decreases |events|
  {
    hide Inv, Fixture.Next, Fixture.Can, WaitsFirst;
    if events == [] {
    } else {
      assert events[0] in events;
      FirstStaysFirstNow(sys, events[0], t, title, steps, finalText, token);
      FirstStaysFirst(Fixture.Next(sys, events[0]), events[1..], t, title, steps, finalText, token);
    }
  }

  lemma FirstStaysFirstNow(sys: Fixture.Sys, e: Fixture.Event, t: nat, title: string, steps: seq<Step>, finalText: string, token: string)
    requires Inv(sys.p) && WaitsFirst(sys.p, t, title, steps, finalText, token) && Fixture.Can(sys, e) && !e.Arrived? && !e.Abandoned?
    ensures WaitsFirst(Fixture.Next(sys, e).p, t, title, steps, finalText, token)
  {
    hide Inv, Respond;
  }

  /** After the step, whatever runs while nothing is queued, the first turn queued next is the one that the
      next new input opens, whatever is queued behind it or marked meanwhile. */
  lemma FirstQueuedAfterwardsOpens(
      sys: Fixture.Sys, quiet: seq<Fixture.Event>, title: string, steps: seq<Step>, finalText: string, token: string,
      waiting: seq<Fixture.Event>, req: Request)
    requires Inv(sys.p) && Fixture.Possible(Fixture.Next(sys, Fixture.Abandoned), quiet) && NothingQueued(quiet)
    requires var idle := Fixture.Exec(Fixture.Next(sys, Fixture.Abandoned), quiet);
             && FreshToken(idle.p, token) && Accepts(idle.p.harness, title, steps)
             && Fixture.Possible(Fixture.Next(idle, Fixture.Queued(title, steps, finalText, token)), waiting) && OnlyWaiting(waiting)
    requires var idle := Fixture.Exec(Fixture.Next(sys, Fixture.Abandoned), quiet);
             var s := Fixture.Exec(Fixture.Next(idle, Fixture.Queued(title, steps, finalText, token)), waiting).p;
             Fits(s, req.outputs) && IsNewInput(s, req)
    ensures var idle := Fixture.Exec(Fixture.Next(sys, Fixture.Abandoned), quiet);
            var s := Fixture.Exec(Fixture.Next(idle, Fixture.Queued(title, steps, finalText, token)), waiting).p;
            var t := |idle.p.turns|;
            && Linked(s)
            && var (r, o) := Respond(s, req);
               && t < |r.turns| && Scripts.IsScript(r.turns[t], title, steps, finalText, token)
               && r.turns[t].fingerprint == Some(req.fingerprint) && GoesOn(r, t, o)
  {
    hide Inv, Linked, Respond, Fits, Accepts, FreshToken, GoesOn, Fixture.Exec, Fixture.Possible, Fixture.Next, NothingQueued, OnlyWaiting, FirstSupported;
    AbandonLeavesNothingToDo(sys);
    QuietRunStaysIdle(Fixture.Next(sys, Fixture.Abandoned), quiet);
    var idle := Fixture.Exec(Fixture.Next(sys, Fixture.Abandoned), quiet);
    var queued := Fixture.Next(idle, Fixture.Queued(title, steps, finalText, token));
    QueuedWaitsFirst(idle, title, steps, finalText, token);
    FirstStaysFirst(queued, waiting, |idle.p.turns|, title, steps, finalText, token);
    var s := Fixture.Exec(queued, waiting).p;
    InvLinks(s);
    LastIsInRange(s);
    OpeningStarts(s, req);
  }

  lemma LastIsInRange(s: State)
    requires Inv(s)
    ensures s.last.Some? ==> s.last.value < |s.turns|
  {
    hide TurnsOk, CallsOk, TokensOk, Linked;
  }

  lemma QueuedWaitsFirst(idle: Fixture.Sys, title: string, steps: seq<Step>, finalText: string, token: string)
    requires Inv(idle.p) && Idle(idle.p) && FreshToken(idle.p, token) && Accepts(idle.p.harness, title, steps)
    ensures WaitsFirst(Fixture.Next(idle, Fixture.Queued(title, steps, finalText, token)).p, |idle.p.turns|, title, steps, finalText, token)
  {
    hide Inv, Respond, Accepts;
  }

  // ------------------------------------------------------------ what was given up

  /** The turn has not ended, does not run and does not wait. */
  ghost predicate IsGivenUp(s: State, t: nat) {
    t < |s.turns| && !s.turns[t].finalEmitted && s.active != Some(t) && t !in s.queued
  }

  lemma {:induction false} AbsorbKeepsCalls(s: State, outputs: seq<Output>, t: nat)
    requires Linked(s) && t < |s.turns| && forall o | o in outputs :: o.callId in s.calls
    ensures var r := Absorb(s, outputs).0;
            t < |r.turns| && r.turns[t].issued == s.turns[t].issued && r.turns[t].finalEmitted == s.turns[t].finalEmitted
    decreases |outputs|
  {
    hide Linked, AbsorbOne;
    if outputs == [] {
    } else {
      AbsorbOneKeepsCalls(s, outputs[0], t);
      if AbsorbOne(s, outputs[0]).1.None? {
        AbsorbKeepsCalls(AbsorbOne(s, outputs[0]).0, outputs[1..], t);
      }
    }
  }

  lemma AbsorbOneKeepsCalls(s: State, o: Output, t: nat)
    requires Linked(s) && t < |s.turns| && o.callId in s.calls
    ensures var r := AbsorbOne(s, o).0;
            t < |r.turns| && r.turns[t].issued == s.turns[t].issued && r.turns[t].finalEmitted == s.turns[t].finalEmitted
  {
    hide Utf8Length, ResultOf, LastCallsLinked, ScheduleLinked;
  }

  lemma DispatchKeepsGivenUp(s: State, fingerprint: string, t: nat)
    requires Linked(s) && IsGivenUp(s, t)
    ensures var r := Dispatch(s, fingerprint).0; IsGivenUp(r, t) && r.turns[t] == s.turns[t]
  {
    hide Linked, Advance, Activate, IsGivenUp;
    GivenUpDoesNotRun(s, t);
    if s.active.Some? {
      AdvanceKeepsGivenUp(s, t);
    } else if s.queued != [] {
      ActivateKeepsGivenUp(s, fingerprint, t);
      AdvanceKeepsGivenUp(Activate(s, fingerprint), t);
    }
  }

  lemma GivenUpDoesNotRun(s: State, t: nat)
    requires IsGivenUp(s, t)
    ensures t < |s.turns| && s.active != Some(t)
  {}

  lemma ActivateKeepsGivenUp(s: State, fingerprint: string, t: nat)
    requires Linked(s) && s.queued != [] && IsGivenUp(s, t)
    ensures var r := Activate(s, fingerprint); IsGivenUp(r, t) && r.turns[t] == s.turns[t]
  {
    hide CallsLinked, LastCallsLinked;
    assert s.queued[0] in s.queued && s.queued[0] != t;
    assert forall u | u in s.queued[1..] :: u in s.queued;
  }

  lemma AdvanceKeepsGivenUp(s: State, t: nat)
    requires Linked(s) && s.active.Some? && IsGivenUp(s, t)
    ensures var r := Advance(s).0; IsGivenUp(r, t) && r.turns[t] == s.turns[t]
  {
    hide Linked, NextItem, CallId, Receipt, FinalItem;
    RunningIsTurn(s);
  }

  lemma RespondKeepsGivenUp(s: State, req: Request, t: nat)
    requires Inv(s) && IsGivenUp(s, t)
    ensures Linked(s)
    ensures var r := Respond(s, req).0; IsGivenUp(r, t) && r.turns[t].issued == s.turns[t].issued
  {
    hide Inv, Linked, Absorb, Dispatch;
    InvLinks(s);
    var a := Advertise(s, req.tools);
    LinksIgnoreLogs(s, a);
    var known := Known(s.calls.Keys, req.outputs);
    AbsorbKeepsCalls(a, known, t);
    var b := Arrive(Absorb(a, known).0, req, known);
    LinksIgnoreLogs(Absorb(a, known).0, b);
    if Absorb(a, known).1.None? {
      DispatchKeepsGivenUp(b, req.fingerprint, t);
    }
  }

  lemma EventKeepsGivenUp(sys: Fixture.Sys, e: Fixture.Event, t: nat)
    requires Inv(sys.p) && IsGivenUp(sys.p, t) && Fixture.Can(sys, e)
    ensures var r := Fixture.Next(sys, e).p; IsGivenUp(r, t) && r.turns[t].issued == sys.p.turns[t].issued
  {
    hide Inv, Linked, Respond;
    InvLinks(sys.p);
    if e.Arrived? {
      RespondKeepsGivenUp(sys.p, e.request, t);
    }
  }

  lemma {:induction false} RunKeepsGivenUp(sys: Fixture.Sys, events: seq<Fixture.Event>, t: nat)
    requires Inv(sys.p) && IsGivenUp(sys.p, t) && Fixture.Possible(sys, events)
    ensures var r := Fixture.Exec(sys, events).p; IsGivenUp(r, t) && r.turns[t].issued == sys.p.turns[t].issued
    decreases |events|
  {
    hide Inv, Fixture.Next, Fixture.Can;
    if events == [] {
    } else {
      EventKeepsGivenUp(sys, events[0], t);
      RunKeepsGivenUp(Fixture.Next(sys, events[0]), events[1..], t);
    }
  }

  /** A turn that had not ended when the runner gave up is issued no further call and ends in no later state
      of any run. */
  lemma GivenUpNeverEnds(sys: Fixture.Sys, events: seq<Fixture.Event>, t: nat)
    requires Inv(sys.p) && t < |sys.p.turns| && !sys.p.turns[t].finalEmitted
    requires Fixture.Possible(Fixture.Next(sys, Fixture.Abandoned), events)
    ensures var r := Fixture.Exec(Fixture.Next(sys, Fixture.Abandoned), events).p;
            t < |r.turns| && !r.turns[t].finalEmitted && r.turns[t].issued == sys.p.turns[t].issued
  {
    hide Inv, Fixture.Exec, Fixture.Possible, Fixture.Next;
    AbandonLeavesNothingToDo(sys);
    RunKeepsGivenUp(Fixture.Next(sys, Fixture.Abandoned), events, t);
  }
}
