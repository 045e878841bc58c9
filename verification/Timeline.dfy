/** The recount of scripts/check-interrupted.py: a checker that counts rows of the provider's
    timeline instead of reading a receipt's numbers. Each function raises where its original does. */
module Timeline {
  import opened Option
  import opened ProviderSpec
  import opened Listing

  datatype Log = Log(requests: seq<RequestRow>, timeline: seq<Row>)

  function LogOf(s: State): Log { Log(s.requests, s.timeline) }

  function RequestIndexes(rows: seq<Row>): seq<int> {
    if rows == [] then []
    else (if rows[0].RequestAt? then [rows[0].index] else []) + RequestIndexes(rows[1..])
  }

  function CountRequests(rows: seq<Row>): nat { |RequestIndexes(rows)| }

  /** `list(range(1, n + 1))` */
  function OneTo(n: nat): seq<int> { seq(n, i => i + 1) }

  /** The rows, unless their requests are not numbered as the log lists them. */
  function ProviderTimeline(log: Log): Result<seq<Row>> {
    if RequestIndexes(log.timeline) == OneTo(|log.requests|) then Ok(log.timeline) else Err
  }

  function IsMarker(stage: string): Row -> bool { (r: Row) => r == Marker(stage) }

  /** Every position of a stage's marker. */
  function Hits(rows: seq<Row>, stage: string): seq<nat> { Where(rows, IsMarker(stage), 0) }

  function MarkerAt(rows: seq<Row>, stage: string): (r: Result<nat>)
    ensures r.Ok? ==> r.value < |rows| && rows[r.value] == Marker(stage)
  {
    WhereIsExact(rows, IsMarker(stage), 0);
    var hits := Hits(rows, stage);
    if |hits| == 1 then assert hits[0] in hits; Ok(hits[0]) else Err
  }

  const OPEN: string := "replay-window:open"
  const CLOSE: string := "replay-window:close"
  const FAULT: string := "fault"

  /** Nothing arrived between the two marks, and the receipt counts what the rows before them count. */
  function ReplayWindow(log: Log, before: int, after: int): Result<bool> {
    var rows := ProviderTimeline(log);
    if rows.Err? then Err
    else
      var start := MarkerAt(rows.value, OPEN);
      if start.Err? then Err
      else
        var end := MarkerAt(rows.value, CLOSE);
        if end.Err? then Err
        else
          var inside := if start.value <= end.value then CountRequests(rows.value[start.value..end.value]) else 0;
          Ok(start.value < end.value && inside == 0 && CountRequests(rows.value[..start.value]) == before == after)
  }

  /** Indexes a responded or closed row names. */
  function AnsweredIn(rows: seq<Row>): set<int> {
    set r | r in rows && (r.RespondedAt? || r.ClosedAt?) :: r.index
  }

  function Outside(indexes: seq<int>, answered: set<int>): seq<int> {
    if indexes == [] then []
    else (if indexes[0] in answered then [] else [indexes[0]]) + Outside(indexes[1..], answered)
  }

  /** The indexes listed before the fault's mark that no row before it answers. */
  function HeldAtFault(log: Log): Result<seq<int>> {
    var rows := ProviderTimeline(log);
    if rows.Err? then Err
    else
      var fault := MarkerAt(rows.value, FAULT);
      if fault.Err? then Err
      else
        var reached := rows.value[..fault.value];
        Ok(Outside(RequestIndexes(reached), AnsweredIn(reached)))
  }

  lemma {:induction false} RequestIndexesOfConcat(a: seq<Row>, b: seq<Row>)
    ensures RequestIndexes(a + b) == RequestIndexes(a) + RequestIndexes(b)
  {
    if a == [] {
      assert a + b == b;
    } else {
      RequestIndexesOfConcat(a[1..], b);
      assert (a + b)[0] == a[0] && (a + b)[1..] == a[1..] + b;
      Associative(if a[0].RequestAt? then [a[0].index] else [], RequestIndexes(a[1..]), RequestIndexes(b));
    }
  }
}
