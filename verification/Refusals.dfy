/** What a request with a tool result that does not fit leaves behind. */
module Refusals {
  import opened Option
  import opened Text
  import opened ProviderSpec
  import opened Discipline
  import opened Retries
  import opened RunLength

  /** The results before `k` are recorded, result `k` is the first that does not fit, and every call they do
      not answer is as it was. */
  ghost predicate StopsAt(s: State, r: State, outputs: seq<Output>, k: nat) {
    && k < |outputs| && outputs[k].callId in s.calls && Fits(s, outputs[..k]) && !Fits(s, outputs[..k + 1])
    && (forall i | 0 <= i < k && outputs[i].callId in s.calls :: Settled(r, outputs[i]))
    && RecordsStay(s, r) && r.calls.Keys == s.calls.Keys && forall c | c in s.calls && !Gives(outputs[..k], c) :: r.calls[c] == s.calls[c]
  }

  /** Its size is looked at before its history. */
  function WhyRefused(o: Output): Error { if Utf8Length(o.text) > 1048576 then OutputTooLarge else HistoryChanged }

  lemma {:induction false} RefusedAt(s: State, outputs: seq<Output>) returns (k: nat)
    requires Inv(s) && Linked(s) && Absorb(s, Known(s.calls.Keys, outputs)).1.Some?
    ensures var (r, e) := Absorb(s, Known(s.calls.Keys, outputs)); StopsAt(s, r, outputs, k) && e == Some(WhyRefused(outputs[k]))
    decreases |outputs|
  {
    hide Inv, Linked, AbsorbOne, Fits, Settled, StopsAt, Utf8Length, Known;
    SomeAreKnown(s, outputs);
    var rest := outputs[1..];
    KnownSplits(s.calls.Keys, outputs);
    if outputs[0].callId !in s.calls {
      k := RefusedAt(s, rest);
      PassedOver(s, Absorb(s, Known(s.calls.Keys, outputs)).0, outputs, k);
      k := k + 1;
    } else {
      AbsorbOneKeepsInv(s, outputs[0]);
      var one := AbsorbOne(s, outputs[0]);
      if one.1.Some? {
        k := 0;
        FirstIsRefused(s, outputs);
      } else {
        InvLinks(one.0);
        k := RefusedAt(one.0, rest);
        RecordedThenStops(s, Absorb(s, Known(s.calls.Keys, outputs)).0, outputs, k);
        k := k + 1;
      }
    }
  }

  lemma SomeAreKnown(s: State, outputs: seq<Output>)
    requires Linked(s) && Absorb(s, Known(s.calls.Keys, outputs)).1.Some?
    ensures outputs != []
  {
    hide Linked, AbsorbOne;
  }

  lemma KnownSplits(calls: set<string>, outputs: seq<Output>)
    requires outputs != []
    ensures var rest := Known(calls, outputs[1..]);
            Known(calls, outputs) == (if outputs[0].callId in calls then [outputs[0]] + rest else rest)
            && (outputs[0].callId in calls ==> Known(calls, outputs)[0] == outputs[0] && Known(calls, outputs)[1..] == rest)
  {
    assert [] + Known(calls, outputs[1..]) == Known(calls, outputs[1..]);
  }

  lemma FirstIsRefused(s: State, outputs: seq<Output>)
    requires Inv(s) && Linked(s) && outputs != [] && outputs[0].callId in s.calls && AbsorbOne(s, outputs[0]).1.Some?
    ensures StopsAt(s, s, outputs, 0) && AbsorbOne(s, outputs[0]) == (s, Some(WhyRefused(outputs[0])))
  {
    hide Inv, Linked, Fits, Utf8Length;
    AbsorbOneKeepsInv(s, outputs[0]);
    assert outputs[..1] == [outputs[0]];
    OneFits(s, outputs[..1]);
    NothingFits(s);
    assert outputs[..0] == [];
  }

  /** A result of no known call changes nothing. */
  lemma PassedOver(s: State, r: State, outputs: seq<Output>, k: nat)
    requires outputs != [] && outputs[0].callId !in s.calls && StopsAt(s, r, outputs[1..], k)
    ensures StopsAt(s, r, outputs, k + 1) && k < |outputs[1..]| && outputs[k + 1] == outputs[1..][k]
  {
    hide Settled, Fits, RecordsStay, Gives;
    UnknownFits(s, outputs[..k + 1]);
    UnknownFits(s, outputs[..k + 2]);
    assert outputs[..k + 1][1..] == outputs[1..][..k] && outputs[..k + 2][1..] == outputs[1..][..k + 1];
    forall c | c in s.calls ensures Gives(outputs[..k + 1], c) <==> Gives(outputs[1..][..k], c) {
      OtherGives(outputs[..k + 1], c);
    }
    assert forall i | 0 < i < |outputs| :: outputs[i] == outputs[1..][i - 1];
  }

  lemma UnknownFits(s: State, outputs: seq<Output>)
    requires outputs != [] && outputs[0].callId !in s.calls
    ensures Fits(s, outputs) <==> Fits(s, outputs[1..])
  {
    hide Utf8Length;
    assert outputs == [outputs[0]] + outputs[1..];
    assert forall x :: x in outputs <==> x == outputs[0] || x in outputs[1..];
  }

  lemma OtherGives(outputs: seq<Output>, c: string)
    requires outputs != []
    ensures Gives(outputs, c) <==> outputs[0].callId == c || Gives(outputs[1..], c)
  {
    assert outputs == [outputs[0]] + outputs[1..];
    assert forall x :: x in outputs <==> x == outputs[0] || x in outputs[1..];
  }

  /** Recording a result touches its own call alone. */
  lemma AbsorbOneTouchesItsCall(s: State, o: Output)
    requires Linked(s) && o.callId in s.calls && AbsorbOne(s, o).1.None?
    ensures var r := AbsorbOne(s, o).0;
            && Settled(r, o) && RecordsStay(s, r) && r.calls.Keys == s.calls.Keys
            && forall c | c in s.calls && c != o.callId :: r.calls[c] == s.calls[c]
  {
    hide Linked, Utf8Length, ResultOf;
  }

  lemma SettledStays(s: State, r: State, o: Output)
    requires Settled(s, o)
    ensures RecordsStay(s, r) ==> Settled(r, o)
  {
    hide Utf8Length;
  }

  lemma RecordedThenStops(s: State, r: State, outputs: seq<Output>, k: nat)
    requires Inv(s) && Linked(s) && outputs != [] && outputs[0].callId in s.calls && AbsorbOne(s, outputs[0]).1.None?
    requires StopsAt(AbsorbOne(s, outputs[0]).0, r, outputs[1..], k)
    ensures StopsAt(s, r, outputs, k + 1) && k < |outputs[1..]| && outputs[k + 1] == outputs[1..][k]
  {
    hide Inv, Linked, Fits, Utf8Length, AbsorbOne, Gives, Settled;
    var one := AbsorbOne(s, outputs[0]).0;
    AbsorbOneTouchesItsCall(s, outputs[0]);
    SettledStays(one, r, outputs[0]);
    OneFits(s, outputs[..k + 1]);
    OneFits(s, outputs[..k + 2]);
    assert outputs[..k + 1][1..] == outputs[1..][..k] && outputs[..k + 2][1..] == outputs[1..][..k + 1];
    forall c | c in s.calls && !Gives(outputs[..k + 1], c) ensures r.calls[c] == s.calls[c] {
      OtherGives(outputs[..k + 1], c);
    }
    assert forall i | 0 < i < |outputs| :: outputs[i] == outputs[1..][i - 1];
  }

  /** A request whose results do not fit is refused at the first that does not, without a row in either log:
      what came before it is recorded and stays, as a client that sends the rest again will find; every other
      call, and what runs and waits, is as it was. */
  lemma RefusedRequestKeepsWhatCame(s: State, req: Request) returns (k: nat)
    requires Inv(s) && !Fits(s, req.outputs)
    ensures Linked(s)
    ensures var (r, o) := Respond(s, req);
            && StopsAt(s, r, req.outputs, k) && o == Raised(WhyRefused(req.outputs[k]))
            && r.requests == s.requests && r.timeline == s.timeline
            && r.queued == s.queued && r.active == s.active && r.last == s.last && |r.turns| == |s.turns|
  {
    hide Inv, Linked, Fits, Absorb, Dispatch, Known, StopsAt, Utf8Length;
    InvLinks(s);
    var a := Advertise(s, req.tools);
    InvIgnoresLogs(s, a);
    InvLinks(a);
    KnownFits(s, a, req.outputs);
    TakenWhenTheyFit(a, Known(s.calls.Keys, req.outputs));
    AbsorbKeepsTurnCount(a, Known(s.calls.Keys, req.outputs));
    k := RefusedAt(a, req.outputs);
    ToolsDoNotMatter(s, a, Respond(s, req).0, req.outputs, k);
  }

  lemma ToolsDoNotMatter(s: State, a: State, r: State, outputs: seq<Output>, k: nat)
    requires a.calls == s.calls && StopsAt(a, r, outputs, k)
    ensures StopsAt(s, r, outputs, k)
  {
    hide Settled, Utf8Length;
  }
}
