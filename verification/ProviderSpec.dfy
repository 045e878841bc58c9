/** The scripted provider of scripts/mixed_fleet_provider.py as a value and its atomic steps.
    Everything a caller does under the provider's lock is one function from state to state. */
module ProviderSpec {
  import opened Option
  import opened Json
  import opened Text

  // ------------------------------------------------------------------ values

  datatype Harness = Codex | Claude

  datatype Step =
    | Shell(command: string, cwd: string, marker: string, timeoutMs: int, requireApproval: bool)
    | Patch(text: string)
    | Write(path: string, content: string)

  /** What the provider takes from its own process: the interpreter's path, the shell wrapper
      program, and how a JSON document is written out as bytes. */
  datatype Env = Env(executable: string, runner: string, dumps: Json -> seq<Byte>)

  /** One tool result found in a request. Claude gives `isError`; Codex leaves it null. */
  datatype Output = Output(callId: string, text: string, isError: Json)

  /** A parsed request: what `_outputs` and `_fingerprint` read off it. */
  datatype Request = Request(path: string, tools: seq<string>, outputs: seq<Output>, fingerprint: string)

  datatype RequestRow = RequestRow(path: string, tools: seq<string>, outputs: seq<Output>, fingerprint: string)

  datatype Item =
    | ToolUse(id: string, name: string, input: Json)
    | FunctionCall(id: string, callId: string, name: string, arguments: Json)
    | CustomToolCall(id: string, callId: string, name: string, text: string)
    | TextBlock(text: string)
    | Message(id: string, text: string)
  {
    /** The identifier a tool result answers. */
    function Call(): string {
      match this
      case ToolUse(id, _, _) => id
      case FunctionCall(_, c, _, _) => c
      case CustomToolCall(_, c, _, _) => c
      case TextBlock(_) => ""
      case Message(_, _) => ""
    }
  }

  /** A retained result: the output, its step, and for a shell step the exit code the output shows. */
  datatype StepResult = StepResult(output: Output, step: nat, shell: bool, exitCode: Option<int>)

  datatype Turn = Turn(
    title: string, steps: seq<Step>, finalText: string, token: string,
    results: seq<StepResult>, finalEmitted: bool, fingerprint: Option<string>,
    issued: seq<string>, items: map<string, Item>)

  datatype CallRecord = CallRecord(turn: nat, index: nat, item: Item, receipt: string, result: Option<Output>)

  datatype Row = RequestAt(index: int) | RespondedAt(index: int) | ClosedAt(index: int) | Marker(stage: string)

  /** Turns are named by their position in `turns`. */
  datatype State = State(
    env: Env, harness: Harness, requests: seq<RequestRow>, timeline: seq<Row>, turns: seq<Turn>,
    queued: seq<nat>, active: Option<nat>, last: Option<nat>,
    calls: map<string, CallRecord>, toolNames: set<string>)

  datatype Error = OutputTooLarge | HistoryChanged | OutOfSequence | NoQueuedTurn | ApprovalUnsupported

  datatype Outcome = Answer(item: Item, sequence: nat) | Raised(error: Error)

  const MAX_OUTPUT: nat := 1048576
  const MAX_STEPS: nat := 64

  function Initial(env: Env, harness: Harness): State {
    State(env, harness, [], [], [], [], None, None, map[], {})
  }

  function NewTurn(title: string, steps: seq<Step>, finalText: string, token: string): Turn {
    Turn(title, steps, finalText, token, [], false, None, [], map[])
  }

  // ----------------------------------------------------- identifiers and items

  function CallId(h: Harness, token: string, index: nat): string {
    (if h.Codex? then "call_buddy_" else "toolu_buddy_") + token + "_" + Decimal(index)
  }

  const RECEIPT: string := "BUDDY_FIXTURE_EXIT_"

  function Receipt(token: string, index: nat): string {
    RECEIPT + token + "_" + Decimal(index)
  }

  /** The command line up to the encoded arguments. */
  function CommandHead(env: Env): string {
    Quote(env.executable) + " " + "-c" + " " + Quote(env.runner)
  }

  /** What the wrapper is told: the step, and the receipt to print. */
  function Arguments(step: Step, receipt: string): Json
    requires step.Shell?
  {
    Obj(map["command" := Str(step.command), "cwd" := Str(step.cwd), "timeout_ms" := Num(step.timeoutMs as real),
            "receipt" := Str(receipt), "marker" := Str(step.marker)])
  }

  function ShellCommand(env: Env, step: Step, receipt: string): string
    requires step.Shell?
  {
    CommandHead(env) + " " + Quote(Base64(env.dumps(Arguments(step, receipt))))
  }

  function Min(a: int, b: int): int { if a < b then a else b }

  const JUSTIFICATION: string :=
    "Allow this exact disposable mixed-fleet Git mutation under /private/tmp? No production repository, credentials or persistent permission change."

  /** The Codex tool a shell step is sent to, and its arguments; none when the step asks for an
      approval that tool cannot give. */
  function CodexShell(toolNames: set<string>, step: Step, command: string): Option<(string, Json)>
    requires step.Shell?
  {
    var timeout := Num((step.timeoutMs + 5000) as real);
    if "shell_command" in toolNames && "exec_command" !in toolNames then
      if step.requireApproval then None
      else Some(("shell_command", Obj(map["command" := Str(command), "workdir" := Str(step.cwd), "timeout_ms" := timeout])))
    else if "shell" in toolNames && "exec_command" !in toolNames then
      if step.requireApproval then None
      else Some(("shell", Obj(map["command" := Arr([Str("/bin/sh"), Str("-c"), Str(command)]),
                                  "workdir" := Str(step.cwd), "timeout_ms" := timeout])))
    else
      var plain := map["cmd" := Str(command), "workdir" := Str(step.cwd), "login" := Bool(false),
                       "shell" := Str("/bin/sh"), "yield_time_ms" := Num(30000.0), "max_output_tokens" := Num(10000.0)];
      Some(("exec_command",
            Obj(if step.requireApproval
                then plain["sandbox_permissions" := Str("require_escalated")]["justification" := Str(JUSTIFICATION)]
                else plain)))
  }

  /** `_item`'s item for one step; none when it raises. */
  function BuildItem(env: Env, h: Harness, toolNames: set<string>, step: Step, token: string, index: nat): Option<Item> {
    var id := CallId(h, token, index);
    match step
    case Shell(_, _, _, _, _) =>
      var command := ShellCommand(env, step, Receipt(token, index));
      if h.Claude? then
        Some(ToolUse(id, "Bash", Obj(map["command" := Str(command),
                                         "timeout" := Num(Min(60000, step.timeoutMs + 5000) as real)])))
      else
        var call := CodexShell(toolNames, step, command);
        if call.None? then None
        else Some(FunctionCall("item_" + id, id, call.value.0, call.value.1))
    case Patch(text) =>
      if h.Claude? then Some(ToolUse(id, "apply_patch", Str(text)))
      else Some(CustomToolCall("item_" + id, id, "apply_patch", text))
    case Write(path, content) =>
      var value := Obj(map["file_path" := Str(path), "content" := Str(content)]);
      if h.Claude? then Some(ToolUse(id, "Write", value))
      else Some(FunctionCall("item_" + id, id, "Write", value))
  }

  function FinalItem(h: Harness, turn: Turn): Item {
    if h.Claude? then TextBlock(turn.finalText) else Message("msg_buddy_" + turn.token, turn.finalText)
  }

  // ------------------------------------------------------------ exit receipts

  /** The exit code one line shows: the receipt, `=`, an integer, and perhaps a carriage return. */
  function LineExit(receipt: string, line: string): Option<int> {
    var body := if line != "" && line[|line| - 1] == '\r' then line[..|line| - 1] else line;
    var head := receipt + "=";
    if head <= body && IsInteger(body[|head|..]) then Some(IntOf(body[|head|..])) else None
  }

  function LineExits(receipt: string, lines: seq<string>): seq<int> {
    if lines == [] then []
    else
      var e := LineExit(receipt, lines[0]);
      (if e.Some? then [e.value] else []) + LineExits(receipt, lines[1..])
  }

  /** The exit code of an output: the one its receipt line shows, none when there is not exactly one. */
  function ExitCode(receipt: string, text: string): Option<int> {
    var exits := LineExits(receipt, Lines(text));
    if |exits| == 1 then Some(exits[0]) else None
  }

  function ResultOf(step: Step, index: nat, receipt: string, o: Output): StepResult {
    StepResult(o, index, step.Shell?, if step.Shell? then ExitCode(receipt, o.text) else None)
  }

  // -------------------------------------------------------------- atomic steps

  /** What the steps below need to be defined: every reference in the state resolves. */
  ghost predicate Linked(s: State) {
    CallsLinked(s) && ScheduleLinked(s) && LastCallsLinked(s)
  }

  ghost predicate CallsLinked(s: State) {
    forall c | c in s.calls :: s.calls[c].turn < |s.turns| && s.calls[c].index < |s.turns[s.calls[c].turn].steps|
  }

  ghost predicate ScheduleLinked(s: State) {
    && (forall t | t in s.queued :: t < |s.turns|)
    && (s.active.Some? ==> s.active.value < |s.turns|)
    && (s.last.Some? ==> s.last.value < |s.turns|)
  }

  ghost predicate LastCallsLinked(s: State) {
    forall t | 0 <= t < |s.turns| :: LastIn(s.turns[t].issued, s.calls)
  }

  ghost predicate LastIn(issued: seq<string>, calls: map<string, CallRecord>) {
    issued != [] ==> issued[|issued| - 1] in calls
  }

  lemma LinksIgnoreLogs(s: State, r: State)
    requires Linked(s) && r == s.(requests := r.requests, timeline := r.timeline, toolNames := r.toolNames)
    ensures Linked(r)
  {}

  /** The state once call `id` has this record and its turn this value. */
  function Record(s: State, id: string, call: CallRecord, turn: Turn): (r: State)
    requires call.turn < |s.turns|
  {
    s.(calls := s.calls[id := call], turns := s.turns[call.turn := turn])
  }

  lemma RecordKeepsLinks(s: State, id: string, call: CallRecord, turn: Turn)
    requires Linked(s) && call.turn < |s.turns| && call.index < |turn.steps|
    requires turn.steps == s.turns[call.turn].steps
    requires turn.issued == s.turns[call.turn].issued || (turn.issued != [] && turn.issued[|turn.issued| - 1] == id)
    ensures Linked(Record(s, id, call, turn))
  {
    hide CallsLinked;
    RecordKeepsCalls(s, id, call, turn);
    var r := Record(s, id, call, turn);
    forall t | 0 <= t < |r.turns| ensures LastIn(r.turns[t].issued, r.calls) {
      assert LastIn(s.turns[t].issued, s.calls);
    }
  }

  lemma RecordKeepsCalls(s: State, id: string, call: CallRecord, turn: Turn)
    requires CallsLinked(s) && call.turn < |s.turns| && call.index < |turn.steps| && turn.steps == s.turns[call.turn].steps
    ensures CallsLinked(Record(s, id, call, turn))
  {
    var r := Record(s, id, call, turn);
    forall c | c in r.calls
      ensures r.calls[c].turn < |r.turns| && r.calls[c].index < |r.turns[r.calls[c].turn].steps|
    {
      if c != id {
        assert c in s.calls;
      }
    }
  }

  /** A step on the schedule alone keeps the links. */
  lemma LinksCarry(s: State, r: State)
    requires Linked(s) && ScheduleLinked(r) && r.calls == s.calls && |r.turns| == |s.turns|
    requires forall t | 0 <= t < |s.turns| :: r.turns[t].steps == s.turns[t].steps && r.turns[t].issued == s.turns[t].issued
    ensures Linked(r)
  {
    hide LastIn;
  }

  ghost predicate SameLogs(s: State, r: State) {
    r.requests == s.requests && r.timeline == s.timeline
  }

  predicate Accepts(h: Harness, title: string, steps: seq<Step>) {
    && title != "" && |steps| <= MAX_STEPS
    && forall step | step in steps :: step.Shell? || (if h.Codex? then step.Patch? else step.Write?)
  }

  /** `queue_turn`. */
  function QueueTurn(s: State, title: string, steps: seq<Step>, finalText: string, token: string): (r: State) {
    if Accepts(s.harness, title, steps)
    then s.(turns := s.turns + [NewTurn(title, steps, finalText, token)], queued := s.queued + [|s.turns|])
    else s
  }

  predicate OneLine(stage: string) { stage != "" && '\n' !in stage && '\r' !in stage }

  /** `mark`: a row in the timeline and the number of requests before it. */
  function Mark(s: State, stage: string): (State, Result<nat>) {
    if OneLine(stage) then (s.(timeline := s.timeline + [Marker(stage)]), Ok(|s.requests|)) else (s, Err)
  }

  /** A handler's last row, once its answer was written or its client was gone. */
  function RecordAnswer(s: State, sequence: int, closed: bool): State {
    s.(timeline := s.timeline + [if closed then ClosedAt(sequence) else RespondedAt(sequence)])
  }

  /** The runner gives up the running script and everything queued. */
  function Abandon(s: State): State {
    s.(active := None, queued := [])
  }

  function Known(keys: set<string>, outputs: seq<Output>): (r: seq<Output>)
    ensures forall o :: o in r <==> o in outputs && o.callId in keys
  {
    if outputs == [] then []
    else (if outputs[0].callId in keys then [outputs[0]] else []) + Known(keys, outputs[1..])
  }

  /** The state once this output is its call's result, and the next result of the call's turn. */
  function WithResult(s: State, o: Output): (r: State)
    requires Linked(s) && o.callId in s.calls
    ensures Linked(r)
  {
    var call := s.calls[o.callId];
    var turn := s.turns[call.turn];
    var result := ResultOf(turn.steps[call.index], call.index, call.receipt, o);
    var call', turn' := call.(result := Some(o)), turn.(results := turn.results + [result]);
    RecordKeepsLinks(s, o.callId, call', turn');
    Record(s, o.callId, call', turn')
  }

  /** One tool result: refused, already recorded, or the next result of its turn. */
  function AbsorbOne(s: State, o: Output): (r: (State, Option<Error>))
    requires Linked(s) && o.callId in s.calls
    ensures Linked(r.0) && r.0.calls.Keys == s.calls.Keys && |r.0.turns| == |s.turns|
    ensures r.0 == s.(calls := r.0.calls, turns := r.0.turns)
  {
    var call := s.calls[o.callId];
    if Utf8Length(o.text) > MAX_OUTPUT then (s, Some(OutputTooLarge))
    else if call.result.Some? then (s, if o != call.result.value then Some(HistoryChanged) else None)
    else if call.index != |s.turns[call.turn].results| then (s, Some(OutOfSequence))
    else (WithResult(s, o), None)
  }

  function Absorb(s: State, outputs: seq<Output>): (r: (State, Option<Error>))
    requires Linked(s) && forall o | o in outputs :: o.callId in s.calls
    ensures Linked(r.0) && r.0.calls.Keys == s.calls.Keys
    ensures r.0 == s.(calls := r.0.calls, turns := r.0.turns)
    decreases |outputs|
  {
    if outputs == [] then (s, None)
    else
      var one := AbsorbOne(s, outputs[0]);
      if one.1.Some? then one else Absorb(one.0, outputs[1..])
  }

  /** A turn runs, and has a step not yet issued. */
  predicate HasNext(s: State) {
    && s.active.Some? && s.active.value < |s.turns|
    && |s.turns[s.active.value].issued| < |s.turns[s.active.value].steps|
  }

  /** The state once this item is the running turn's next call. */
  function WithCall(s: State, item: Item): (r: State)
    requires Linked(s) && HasNext(s)
    ensures Linked(r) && r == s.(turns := r.turns, calls := r.calls)
  {
    var t := s.active.value;
    var turn := s.turns[t];
    var index := |turn.issued|;
    var id := CallId(s.harness, turn.token, index);
    var call := CallRecord(t, index, item, Receipt(turn.token, index), None);
    var turn' := turn.(issued := turn.issued + [id], items := turn.items[id := item]);
    RecordKeepsLinks(s, id, call, turn');
    Record(s, id, call, turn')
  }

  /** The item of the running turn's next call. */
  function NextItem(s: State): Option<Item>
    requires HasNext(s)
  {
    var turn := s.turns[s.active.value];
    BuildItem(s.env, s.harness, s.toolNames, turn.steps[|turn.issued|], turn.token, |turn.issued|)
  }

  /** Issue the running turn's next call. */
  function Issue(s: State): (r: (State, Outcome))
    requires Linked(s) && HasNext(s)
    ensures Linked(r.0) && SameLogs(s, r.0)
    ensures if r.1.Answer? then r.1.sequence == |s.requests| else r.1.error.ApprovalUnsupported?
  {
    var item := NextItem(s);
    if item.None? then (s, Raised(ApprovalUnsupported))
    else (WithCall(s, item.value), Answer(item.value, |s.requests|))
  }

  /** The running turn ends. */
  function Finish(s: State): (r: State)
    requires Linked(s) && s.active.Some?
    ensures Linked(r) && SameLogs(s, r)
  {
    var t := s.active.value;
    var r := s.(turns := s.turns[t := s.turns[t].(finalEmitted := true)], active := None, last := Some(t));
    LinksCarry(s, r);
    r
  }

  /** The running turn is one, and its last issued call is recorded. */
  lemma RunningIsTurn(s: State)
    requires Linked(s) && s.active.Some?
    ensures s.active.value < |s.turns|
    ensures var issued := s.turns[s.active.value].issued; issued != [] ==> issued[|issued| - 1] in s.calls
  {
    hide CallsLinked;
    assert LastIn(s.turns[s.active.value].issued, s.calls);
  }

  /** The running turn's answer: its outstanding call again, its next call, or its final item. */
  function Advance(s: State): (State, Outcome)
    requires Linked(s) && s.active.Some?
  {
    hide Issue, Finish;
    RunningIsTurn(s);
    var turn := s.turns[s.active.value];
    if |turn.results| < |turn.issued| then (s, Answer(s.calls[turn.issued[|turn.issued| - 1]].item, |s.requests|))
    else if HasNext(s) then Issue(s)
    else (Finish(s), Answer(FinalItem(s.harness, turn), |s.requests|))
  }

  lemma AdvanceKeepsLogs(s: State)
    requires Linked(s) && s.active.Some?
    ensures var (r, o) := Advance(s);
            && Linked(r) && SameLogs(s, r)
            && if o.Answer? then o.sequence == |s.requests| else o.error.ApprovalUnsupported?
  {
    hide Issue, Finish, FinalItem;
  }

  /** Start the next queued turn on this input. */
  function Activate(s: State, fingerprint: string): (r: State)
    requires Linked(s) && s.queued != []
    ensures Linked(r) && r.active.Some? && SameLogs(s, r)
  {
    var t := s.queued[0];
    assert t in s.queued && forall u | u in s.queued[1..] :: u in s.queued;
    var turn := s.turns[t].(fingerprint := Some(fingerprint));
    var r := s.(queued := s.queued[1..], active := Some(t), turns := s.turns[t := turn]);
    LinksCarry(s, r);
    r
  }

  function Dispatch(s: State, fingerprint: string): (r: (State, Outcome))
    requires Linked(s)
    ensures SameLogs(s, r.0) && (r.1.Answer? ==> r.1.sequence == |s.requests|)
    ensures r.1.Raised? ==> r.1.error in {NoQueuedTurn, ApprovalUnsupported}
  {
    if s.active.Some? then AdvanceKeepsLogs(s); Advance(s)
    else if s.last.Some? && s.turns[s.last.value].fingerprint == Some(fingerprint) then
      (s, Answer(FinalItem(s.harness, s.turns[s.last.value]), |s.requests|))
    else if s.queued == [] then (s, Raised(NoQueuedTurn))
    else AdvanceKeepsLogs(Activate(s, fingerprint)); Advance(Activate(s, fingerprint))
  }

  function Arrive(s: State, r: Request, known: seq<Output>): State {
    s.(requests := s.requests + [RequestRow(r.path, r.tools, known, r.fingerprint)],
       timeline := s.timeline + [RequestAt(|s.requests| + 1)])
  }

  function Advertise(s: State, tools: seq<string>): State {
    s.(toolNames := s.toolNames + set n | n in tools)
  }

  /** `_respond`: a refusal in the tool results leaves no request row; a later one leaves it. */
  function Respond(s: State, r: Request): (State, Outcome)
    requires Linked(s)
  {
    var known := Known(s.calls.Keys, r.outputs);
    var absorbed := Absorb(Advertise(s, r.tools), known);
    if absorbed.1.Some? then (absorbed.0, Raised(absorbed.1.value))
    else Dispatch(Arrive(absorbed.0, r, known), r.fingerprint)
  }
}
