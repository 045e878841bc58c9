/** The recount agrees with the history of every run, and what its acceptance means for any log. */
module Recount {
  import opened Option
  import opened ProviderSpec
  import opened Discipline
  import opened Timeline
  import opened Fixture
  import opened Listing

  // -------------------------------------------------------- the replay window

  /** Open the window in any history, run anything, close it, run anything: the recount accepts
      exactly when no request arrived in between and the receipt names the count at the opening. */
  lemma WindowSeesEveryRequest(sys: Sys, inside: seq<Event>, later: seq<Event>, before: int, after: int)
    requires History(sys) && MarksOf(sys.stages, OPEN) == [] && MarksOf(sys.stages, CLOSE) == []
    requires Marked(OPEN) !in inside + later && Marked(CLOSE) !in inside + later
    requires CanRunAfter(sys, OPEN, inside) && CanRunAfter(RunAfter(sys, OPEN, inside), CLOSE, later)
    ensures var closing := RunAfter(sys, OPEN, inside);
            var end := RunAfter(closing, CLOSE, later);
            ReplayWindow(LogOf(end.p), before, after) ==
            Ok(|closing.p.requests| == |sys.p.requests| && before == after == |sys.p.requests|)
  {
    hide Inv, History, Next, Exec, Possible, OneLine, MarksOf, ReplayWindow;
    StageNamesAreLines();
    HistoryHasInv(sys);
    var afterOpen := Next(sys, Marked(OPEN));
    MarkIsRecorded(sys, OPEN, OPEN);
    MarkIsRecorded(sys, OPEN, CLOSE);
    NextKeepsHistory(sys, Marked(OPEN));
    var closing := Exec(afterOpen, inside);
    ExecKeepsHistory(afterOpen, inside);
    OtherEventsAddNoMark(afterOpen, inside, OPEN);
    OtherEventsAddNoMark(afterOpen, inside, CLOSE);
    var closed := Next(closing, Marked(CLOSE));
    MarkIsRecorded(closing, CLOSE, OPEN);
    MarkIsRecorded(closing, CLOSE, CLOSE);
    NextKeepsHistory(closing, Marked(CLOSE));
    ExecKeepsHistory(closed, later);
    OtherEventsAddNoMark(closed, later, OPEN);
    OtherEventsAddNoMark(closed, later, CLOSE);
    ReplayWindowIsExact(Exec(closed, later), before, after);
    assert |afterOpen.p.timeline| <= |closing.p.timeline|;
  }

  lemma StageNamesAreLines()
    ensures OneLine(OPEN) && OneLine(CLOSE) && OneLine(FAULT) && OPEN != CLOSE
  {
    assert OPEN[14] == 'o' && CLOSE[14] == 'c';
  }

  // ------------------------------------------------------------ held at a fault

  /** The requests with no answer row: still writing, refused after their row, or lost. */
  function Unanswered(handlers: seq<Status>): seq<int> {
    if handlers == [] then []
    else
      var n := |handlers| - 1;
      Unanswered(handlers[..n]) + (if handlers[n].Responded? || handlers[n].Closed? then [] else [n + 1])
  }

  lemma {:induction false} OutsideOfConcat(a: seq<int>, b: seq<int>, answered: set<int>)
    ensures Outside(a + b, answered) == Outside(a, answered) + Outside(b, answered)
  {
    if a == [] {
      assert a + b == b;
    } else {
      OutsideOfConcat(a[1..], b, answered);
      assert (a + b)[0] == a[0] && (a + b)[1..] == a[1..] + b;
      Associative(if a[0] in answered then [] else [a[0]], Outside(a[1..], answered), Outside(b, answered));
    }
  }

  lemma {:induction false} OutsideIsUnanswered(handlers: seq<Status>, answered: set<int>)
    requires forall n | 1 <= n <= |handlers| :: n in answered <==> handlers[n - 1].Responded? || handlers[n - 1].Closed?
    ensures Outside(OneTo(|handlers|), answered) == Unanswered(handlers)
  {
    if handlers == [] {
    } else {
      var n := |handlers| - 1;
      OutsideIsUnanswered(handlers[..n], answered);
      assert OneTo(n + 1) == OneTo(n) + [n + 1];
      OutsideOfConcat(OneTo(n), [n + 1], answered);
    }
  }

  lemma FaultRowStands(sys: Sys, later: seq<Event>)
    requires History(sys) && MarksOf(sys.stages, FAULT) == [] && Marked(FAULT) !in later
    requires CanRunAfter(sys, FAULT, later)
    ensures var end := RunAfter(sys, FAULT, later);
            && History(end) && MarkerAt(end.p.timeline, FAULT) == Ok(|sys.p.timeline|)
            && sys.p.timeline <= end.p.timeline
  {
    hide Inv, History, Next, Exec, Possible, OneLine, MarksOf, MarkerAt;
    StageNamesAreLines();
    HistoryHasInv(sys);
    var marked := Next(sys, Marked(FAULT));
    var end := Exec(marked, later);
    MarkIsRecorded(sys, FAULT, FAULT);
    NextKeepsHistory(sys, Marked(FAULT));
    ExecKeepsHistory(marked, later);
    OtherEventsAddNoMark(marked, later, FAULT);
    HistoryHasStages(end);
    MarkerIsTheMark(end, FAULT);
  }

  lemma HistoryHasStages(sys: Sys)
    requires History(sys)
    ensures StagesRecorded(sys) && AnswersRecorded(sys) && RequestIndexes(sys.p.timeline) == OneTo(|sys.p.requests|)
  {
    hide Inv, StagesRecorded, AnswersRecorded, RequestIndexes;
  }

  /** Mark a fault in any history and run anything after it: the list is exactly the requests that
      had no answer row when the fault came, whatever was answered later. */
  lemma HeldAtFaultIsExact(sys: Sys, later: seq<Event>)
    requires History(sys) && MarksOf(sys.stages, FAULT) == [] && Marked(FAULT) !in later
    requires CanRunAfter(sys, FAULT, later)
    ensures HeldAtFault(LogOf(RunAfter(sys, FAULT, later).p)) == Ok(Unanswered(sys.handlers))
  {
    hide Inv, History, Next, Exec, Possible, StagesRecorded, RequestIndexes, MarkerAt, AnsweredIn;
    HistoryHasInv(sys);
    FaultRowStands(sys, later);
    var end := RunAfter(sys, FAULT, later);
    HistoryHasStages(sys);
    HistoryHasStages(end);
    assert end.p.timeline[..|sys.p.timeline|] == sys.p.timeline;
    AnsweredIsRecorded(sys);
    OutsideIsUnanswered(sys.handlers, AnsweredIn(sys.p.timeline));
  }

  lemma AnsweredIsRecorded(sys: Sys)
    requires AnswersRecorded(sys)
    ensures forall n | 1 <= n <= |sys.handlers| ::
              n in AnsweredIn(sys.p.timeline) <==> sys.handlers[n - 1].Responded? || sys.handlers[n - 1].Closed?
  {
    forall n | 1 <= n <= |sys.handlers|
      ensures n in AnsweredIn(sys.p.timeline) <==> sys.handlers[n - 1].Responded? || sys.handlers[n - 1].Closed?
    {
      assert n in AnsweredIn(sys.p.timeline) <==> RespondedAt(n) in sys.p.timeline || ClosedAt(n) in sys.p.timeline;
    }
  }

  // --------------------------------------------------- acceptance of any log

  lemma MarkerAtIsOnlyAt(rows: seq<Row>, stage: string, i: nat)
    ensures MarkerAt(rows, stage) == Ok(i) <==> OnlyAt(rows, IsMarker(stage), i)
  {
    hide OnlyAt, Where;
    var hits := Hits(rows, stage);
    OnlyIsListed(rows, IsMarker(stage), i);
    assert |hits| == 1 ==> hits == [hits[0]];
  }

  lemma {:induction false} NoRequests(rows: seq<Row>)
    ensures CountRequests(rows) == 0 <==> forall r | r in rows :: !r.RequestAt?
  {
    if rows == [] {
    } else {
      NoRequests(rows[1..]);
      assert rows == [rows[0]] + rows[1..];
    }
  }

  /** Whatever wrote the log: acceptance means one open before one close, no request row between
      them, and the receipt's two counts equal to the rows before the opening. So a window opened
      early, replayed into, reversed, or listing a request the log does not hold is refused. */
  lemma AcceptedWindowMeans(log: Log, before: int, after: int)
    ensures ReplayWindow(log, before, after) == Ok(true) <==>
            && RequestIndexes(log.timeline) == OneTo(|log.requests|)
            && exists o: nat, c: nat ::
                 && OnlyAt(log.timeline, IsMarker(OPEN), o) && OnlyAt(log.timeline, IsMarker(CLOSE), c) && o < c
                 && (forall i | o <= i < c :: !log.timeline[i].RequestAt?)
                 && CountRequests(log.timeline[..o]) == before == after
  {
    var rows := log.timeline;
    var start, end := MarkerAt(rows, OPEN), MarkerAt(rows, CLOSE);
    if start.Ok? && end.Ok? {
      MarkerAtIsOnlyAt(rows, OPEN, start.value);
      MarkerAtIsOnlyAt(rows, CLOSE, end.value);
      if start.value < end.value {
        var between := rows[start.value..end.value];
        NoRequests(between);
        assert (forall r | r in between :: !r.RequestAt?) <==> forall i | start.value <= i < end.value :: !rows[i].RequestAt?
        by {
          assert forall i | start.value <= i < end.value :: rows[i] == between[i - start.value];
        }
      }
    }
    forall o: nat, c: nat | OnlyAt(rows, IsMarker(OPEN), o) && OnlyAt(rows, IsMarker(CLOSE), c)
      ensures start == Ok(o) && end == Ok(c)
    {
      MarkerAtIsOnlyAt(rows, OPEN, o);
      MarkerAtIsOnlyAt(rows, CLOSE, c);
    }
  }

  lemma {:induction false} RequestIndexesHold(rows: seq<Row>)
    ensures forall n: int :: n in RequestIndexes(rows) <==> RequestAt(n) in rows
  {
    if rows == [] {
    } else {
      RequestIndexesHold(rows[1..]);
      assert rows == [rows[0]] + rows[1..];
    }
  }

  lemma {:induction false} OutsideHolds(indexes: seq<int>, answered: set<int>)
    ensures forall n: int :: n in Outside(indexes, answered) <==> n in indexes && n !in answered
  {
    if indexes == [] {
    } else {
      OutsideHolds(indexes[1..], answered);
      assert indexes == [indexes[0]] + indexes[1..];
    }
  }

  /** Whatever wrote the log: with numbered requests and one fault, the list holds exactly the requests
      whose row precedes the fault and that no row before it answers. */
  lemma HeldListMeans(log: Log, fault: nat)
    requires RequestIndexes(log.timeline) == OneTo(|log.requests|) && OnlyAt(log.timeline, IsMarker(FAULT), fault)
    ensures var held := HeldAtFault(log);
            held.Ok? && forall n: int :: n in held.value <==>
              && RequestAt(n) in log.timeline[..fault]
              && RespondedAt(n) !in log.timeline[..fault] && ClosedAt(n) !in log.timeline[..fault]
  {
    MarkerAtIsOnlyAt(log.timeline, FAULT, fault);
    var reached := log.timeline[..fault];
    RequestIndexesHold(reached);
    OutsideHolds(RequestIndexes(reached), AnsweredIn(reached));
    assert forall n: int :: n in AnsweredIn(reached) <==> RespondedAt(n) in reached || ClosedAt(n) in reached;
  }

  // ------------------------------------------------------- refusals of any log

  /** The request rows are numbered one by one, and there are as many as the log lists. */
  ghost predicate Numbered(rows: seq<Row>, count: nat) {
    exists at: seq<nat> :: Ascending(at) && |at| == count && NumberedAt(rows, at)
  }

  ghost predicate NumberedAt(rows: seq<Row>, at: seq<nat>) {
    && (forall i: int :: i in at <==> 0 <= i < |rows| && rows[i].RequestAt?)
    && forall k | 0 <= k < |at| :: at[k] < |rows| && rows[at[k]] == RequestAt(k + 1)
  }

  function IsRequest(): Row -> bool { (r: Row) => r.RequestAt? }

  /** These numbers stand at these positions, the first row counted as `base`. */
  ghost predicate IndexesAt(indexes: seq<int>, rows: seq<Row>, at: seq<nat>, base: nat) {
    && |indexes| == |at|
    && forall k | 0 <= k < |at| :: base <= at[k] < base + |rows| && rows[at[k] - base] == RequestAt(indexes[k])
  }

  lemma {:induction false} RequestsStand(rows: seq<Row>, base: nat)
    ensures IndexesAt(RequestIndexes(rows), rows, Where(rows, IsRequest(), base), base)
    decreases |rows|
  {
    hide IndexesAt;
    if rows == [] {
      NoneStand(base);
    } else {
      RequestsStand(rows[1..], base + 1);
      OneMoreStands(RequestIndexes(rows[1..]), rows, Where(rows[1..], IsRequest(), base + 1), base);
    }
  }

  lemma NoneStand(base: nat)
    ensures IndexesAt([], [], [], base)
  {}

  lemma OneMoreStands(indexes: seq<int>, rows: seq<Row>, at: seq<nat>, base: nat)
    requires rows != [] && IndexesAt(indexes, rows[1..], at, base + 1)
    ensures IndexesAt((if rows[0].RequestAt? then [rows[0].index] else []) + indexes, rows,
                      (if rows[0].RequestAt? then [base] else []) + at, base)
  {
    forall k | 0 <= k < |at| ensures rows[at[k] - base] == RequestAt(indexes[k]) {
      assert rows[1..][at[k] - base - 1] == rows[at[k] - base];
    }
  }

  lemma NumberedMeans(rows: seq<Row>, count: nat)
    ensures RequestIndexes(rows) == OneTo(count) <==> Numbered(rows, count)
  {
    hide RequestIndexes, Where, NumberedAt, IndexesAt, OneTo;
    var at := Where(rows, IsRequest(), 0);
    RequestsAreListed(rows);
    RequestsStand(rows, 0);
    NumbersByPosition(rows, at, RequestIndexes(rows), count);
    if Numbered(rows, count) {
      var other: seq<nat> :| Ascending(other) && |other| == count && NumberedAt(rows, other);
      NumberedIsListed(rows, at, other);
    }
  }

  lemma RequestsAreListed(rows: seq<Row>)
    ensures var at := Where(rows, IsRequest(), 0);
            Ascending(at) && forall i: int :: i in at <==> 0 <= i < |rows| && rows[i].RequestAt?
  {
    hide Where;
    WhereIsExact(rows, IsRequest(), 0);
  }

  lemma NumberedIsListed(rows: seq<Row>, at: seq<nat>, other: seq<nat>)
    requires Ascending(at) && forall i: int :: i in at <==> 0 <= i < |rows| && rows[i].RequestAt?
    requires Ascending(other) && NumberedAt(rows, other)
    ensures at == other
  {
    AscendingIsOne(at, other);
  }

  lemma NumbersByPosition(rows: seq<Row>, at: seq<nat>, indexes: seq<int>, count: nat)
    requires forall i: int :: i in at <==> 0 <= i < |rows| && rows[i].RequestAt?
    requires IndexesAt(indexes, rows, at, 0)
    ensures indexes == OneTo(count) <==> |at| == count && NumberedAt(rows, at)
  {
    if |at| == count && NumberedAt(rows, at) {
      forall k | 0 <= k < count ensures indexes[k] == k + 1 {
        assert rows[at[k]] == RequestAt(k + 1);
      }
    }
  }

  /** The log marks this label once, here. */
  ghost predicate MarkedOnce(rows: seq<Row>, name: string, at: nat) {
    at < |rows| && rows[at] == Marker(name) && forall i | 0 <= i < |rows| && rows[i] == Marker(name) :: i == at
  }

  lemma MarkedOnceIsFound(rows: seq<Row>, name: string)
    ensures MarkerAt(rows, name).Ok? <==> exists at: nat :: MarkedOnce(rows, name, at)
    ensures forall at: nat :: MarkerAt(rows, name) == Ok(at) <==> MarkedOnce(rows, name, at)
  {
    forall at: nat ensures MarkerAt(rows, name) == Ok(at) <==> MarkedOnce(rows, name, at) {
      MarkerAtIsOnlyAt(rows, name, at);
    }
  }

  /** Whatever wrote the log: a list of held requests is given exactly when its requests are numbered and it
      marks one fault; it ascends, and holds the requests before the fault that no row before it answers. */
  lemma HeldAtFaultMeans(log: Log)
    ensures HeldAtFault(log).Ok? <==>
            Numbered(log.timeline, |log.requests|) && exists at: nat :: MarkedOnce(log.timeline, "fault", at)
    ensures HeldAtFault(log).Ok? ==> Ascends(HeldAtFault(log).value)
    ensures forall fault: nat, n: int | HeldAtFault(log).Ok? && MarkedOnce(log.timeline, "fault", fault) ::
              n in HeldAtFault(log).value <==>
              RequestAt(n) in log.timeline[..fault] && RespondedAt(n) !in log.timeline[..fault] && ClosedAt(n) !in log.timeline[..fault]
  {
    hide RequestIndexes, Outside, AnsweredIn, Numbered, OneTo, MarkerAt, Ascends;
    var rows := log.timeline;
    NumberedMeans(rows, |log.requests|);
    MarkedOnceIsFound(rows, "fault");
    if RequestIndexes(rows) == OneTo(|log.requests|) && MarkerAt(rows, "fault").Ok? {
      var fault := MarkerAt(rows, "fault").value;
      MarkerAtIsOnlyAt(rows, FAULT, fault);
      HeldListMeans(log, fault);
      HeldListAscends(log, fault);
    }
  }

  ghost predicate Ascends(xs: seq<int>) { forall i, j | 0 <= i < j < |xs| :: xs[i] < xs[j] }

  lemma HeldListAscends(log: Log, fault: nat)
    requires RequestIndexes(log.timeline) == OneTo(|log.requests|) && fault <= |log.timeline|
    ensures var reached := log.timeline[..fault]; Ascends(Outside(RequestIndexes(reached), AnsweredIn(reached)))
  {
    hide RequestIndexes, Outside, AnsweredIn;
    var reached := log.timeline[..fault];
    RequestIndexesOfConcat(reached, log.timeline[fault..]);
    assert log.timeline == reached + log.timeline[fault..];
    assert RequestIndexes(reached) <= OneTo(|log.requests|);
    OutsideAscends(RequestIndexes(reached), AnsweredIn(reached));
  }

  lemma {:induction false} OutsideAscends(indexes: seq<int>, answered: set<int>)
    requires Ascends(indexes)
    ensures Ascends(Outside(indexes, answered))
  {
    if indexes != [] {
      OutsideAscends(indexes[1..], answered);
      OutsideHolds(indexes[1..], answered);
      var rest := Outside(indexes[1..], answered);
      forall k | 0 <= k < |rest| ensures indexes[0] < rest[k] {
        assert rest[k] in rest && rest[k] in indexes[1..];
      }
    }
  }

  /** Whatever wrote the log: the window is refused outright exactly when its requests are not numbered, or
      either of its marks was not made once. */
  lemma RefusedWindowMeans(log: Log, before: int, after: int)
    ensures ReplayWindow(log, before, after).Err? <==>
            !(Numbered(log.timeline, |log.requests|)
              && (exists at: nat :: MarkedOnce(log.timeline, "replay-window:open", at))
              && (exists at: nat :: MarkedOnce(log.timeline, "replay-window:close", at)))
  {
    hide RequestIndexes, CountRequests, Numbered, OneTo, MarkerAt;
    NumberedMeans(log.timeline, |log.requests|);
    MarkedOnceIsFound(log.timeline, "replay-window:open");
    MarkedOnceIsFound(log.timeline, "replay-window:close");
  }
}
