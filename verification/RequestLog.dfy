/** What the provider's request log holds: one row for each request whose results were taken, in the order
    they came, and nothing written over. */
module RequestLog {
  import opened Option
  import opened ProviderSpec
  import opened Discipline
  import opened Listing
  import opened RunLength
  import Fixture

  /** `picked` are the outputs that answer one of these calls, in the order they came. */
  ghost predicate Picks(picked: seq<Output>, outputs: seq<Output>, calls: set<string>) {
    exists at: seq<nat> ::
      && Ascending(at) && |picked| == |at|
      && (forall i: int :: i in at <==> 0 <= i < |outputs| && outputs[i].callId in calls)
      && forall k | 0 <= k < |at| && at[k] < |outputs| :: picked[k] == outputs[at[k]]
  }

  /** The row a request leaves, the calls known at its arrival being these. */
  ghost predicate IsRowOf(row: RequestRow, req: Request, calls: set<string>) {
    row.path == req.path && row.tools == req.tools && row.fingerprint == req.fingerprint && Picks(row.outputs, req.outputs, calls)
  }

  function Answering(calls: set<string>): Output -> bool { (o: Output) => o.callId in calls }

  /** These outputs stand at these positions, the first counted as `base`. */
  ghost predicate StandAt(picked: seq<Output>, outputs: seq<Output>, at: seq<nat>, base: nat) {
    && |picked| == |at|
    && forall k | 0 <= k < |at| :: base <= at[k] < base + |outputs| && picked[k] == outputs[at[k] - base]
  }

  lemma {:induction false} KnownIsListed(calls: set<string>, outputs: seq<Output>, base: nat)
    ensures StandAt(Known(calls, outputs), outputs, Where(outputs, Answering(calls), base), base)
    decreases |outputs|
  {
    hide StandAt;
    if outputs == [] {
      NoneStand(base);
    } else {
      KnownIsListed(calls, outputs[1..], base + 1);
      OneMoreStands(Known(calls, outputs[1..]), outputs, Where(outputs[1..], Answering(calls), base + 1), base, outputs[0].callId in calls);
    }
  }

  lemma NoneStand(base: nat)
    ensures StandAt([], [], [], base)
  {}

  lemma OneMoreStands(picked: seq<Output>, outputs: seq<Output>, at: seq<nat>, base: nat, first: bool)
    requires outputs != [] && StandAt(picked, outputs[1..], at, base + 1)
    ensures StandAt((if first then [outputs[0]] else []) + picked, outputs, (if first then [base] else []) + at, base)
  {
    forall k | 0 <= k < |at| ensures picked[k] == outputs[at[k] - base] {
      assert outputs[1..][at[k] - base - 1] == outputs[at[k] - base];
    }
  }

  lemma KnownPicks(calls: set<string>, outputs: seq<Output>)
    ensures Picks(Known(calls, outputs), outputs, calls)
  {
    hide Known, Where;
    var at := Where(outputs, Answering(calls), 0);
    WhereIsExact(outputs, Answering(calls), 0);
    KnownIsListed(calls, outputs, 0);
    assert forall i: int :: i in at <==> 0 <= i < |outputs| && outputs[i].callId in calls;
  }

  /** A request whose results fit adds its own row at the end of the log and keeps every earlier one;
      any other leaves the log as it is. */
  lemma RequestIsLogged(s: State, req: Request)
    requires Inv(s)
    ensures Linked(s)
    ensures var (r, o) := Respond(s, req);
            if Fits(s, req.outputs)
            then s.requests < r.requests && |r.requests| == |s.requests| + 1
                 && IsRowOf(r.requests[|s.requests|], req, s.calls.Keys) && r.timeline == s.timeline + [RequestAt(|s.requests| + 1)]
            else o.Raised? && r.requests == s.requests && r.timeline == s.timeline
  {
    hide Inv, Linked, Fits, Absorb, Dispatch, Known, Picks;
    InvLinks(s);
    var a := Advertise(s, req.tools);
    var known := Known(s.calls.Keys, req.outputs);
    InvIgnoresLogs(s, a);
    InvLinks(a);
    KnownFits(s, a, req.outputs);
    TakenWhenTheyFit(a, known);
    LinksIgnoreLogs(Absorb(a, known).0, Arrive(Absorb(a, known).0, req, known));
    KnownPicks(s.calls.Keys, req.outputs);
  }

  /** The requests of a run that are logged, each with the calls known when it came. */
  ghost function Arrivals(sys: Fixture.Sys, events: seq<Fixture.Event>): seq<(Request, set<string>)>
    requires Inv(sys.p) && Fixture.Possible(sys, events)
    decreases |events|
  {
    if events == [] then []
    else NewArrival(sys.p, events[0]) + Arrivals(Fixture.Next(sys, events[0]), events[1..])
  }

  ghost function NewArrival(s: State, e: Fixture.Event): seq<(Request, set<string>)> {
    if e.Arrived? && Fits(s, e.request.outputs) then [(e.request, s.calls.Keys)] else []
  }

  /** The log grew by these arrivals' rows, in order. */
  ghost predicate GrewBy(before: seq<RequestRow>, after: seq<RequestRow>, arrivals: seq<(Request, set<string>)>) {
    && before <= after && |after| == |before| + |arrivals|
    && forall k | 0 <= k < |arrivals| :: IsRowOf(after[|before| + k], arrivals[k].0, arrivals[k].1)
  }

  lemma EventGrowsLog(sys: Fixture.Sys, e: Fixture.Event)
    requires Inv(sys.p) && Fixture.Can(sys, e)
    ensures GrewBy(sys.p.requests, Fixture.Next(sys, e).p.requests, NewArrival(sys.p, e))
  {
    hide Inv, Linked, Respond, Fits, IsRowOf;
    InvLinks(sys.p);
    if e.Arrived? {
      RequestIsLogged(sys.p, e.request);
    }
  }

  /** Over any run the log only grows, and its k-th new row is that of the k-th request logged. */
  lemma {:induction false} RunIsLogged(sys: Fixture.Sys, events: seq<Fixture.Event>)
    requires Inv(sys.p) && Fixture.Possible(sys, events)
    ensures GrewBy(sys.p.requests, Fixture.Exec(sys, events).p.requests, Arrivals(sys, events))
    decreases |events|
  {
    hide Inv, Fixture.Next, Fixture.Can, NewArrival, IsRowOf, GrewBy;
    if events == [] {
      NothingGrew(sys.p.requests);
    } else {
      var next := Fixture.Next(sys, events[0]);
      EventGrowsLog(sys, events[0]);
      RunIsLogged(next, events[1..]);
      GrowthAddsUp(sys.p.requests, next.p.requests, Fixture.Exec(sys, events).p.requests,
                   NewArrival(sys.p, events[0]), Arrivals(next, events[1..]));
    }
  }

  lemma NothingGrew(rows: seq<RequestRow>)
    ensures GrewBy(rows, rows, [])
  {}

  lemma GrowthAddsUp(a: seq<RequestRow>, b: seq<RequestRow>, c: seq<RequestRow>,
                     x: seq<(Request, set<string>)>, y: seq<(Request, set<string>)>)
    requires GrewBy(a, b, x) && GrewBy(b, c, y)
    ensures GrewBy(a, c, x + y)
  {
    hide IsRowOf;
    forall k | 0 <= k < |x + y| ensures IsRowOf(c[|a| + k], (x + y)[k].0, (x + y)[k].1) {
      if k < |x| {
        assert c[|a| + k] == b[|a| + k];
      } else {
        assert c[|a| + k] == c[|b| + (k - |x|)];
      }
    }
  }
}
