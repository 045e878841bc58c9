/** Which native approval requests a script answers: only its outstanding, exact call. */
module Approval {
  import opened Option
  import opened Json
  import opened Text
  import opened ProviderSpec
  import opened Discipline
  import opened Retries
  import Fixture
  import Scripts

  /** `matches_approval` returns true or false, or raises. */
  datatype Verdict = Yes | No | Raises

  /** `shlex.split`; none where it raises ValueError. */
  type Splitter = string -> Option<seq<string>>

  const CLAUDE_KEYS: set<string> := {
    "subtype", "tool_name", "display_name", "input", "description", "permission_suggestions",
    "decision_reason", "decision_reason_type", "tool_use_id"}

  const CODEX_KEYS: set<string> := {
    "kind", "startedAtMs", "environmentId", "threadId", "turnId", "itemId", "approvalId", "command", "cwd",
    "reason", "commandActions", "availableDecisions", "additionalPermissions", "proposedExecpolicyAmendment",
    "proposedNetworkPolicyAmendments", "networkApprovalContext"}

  function Strings(xs: seq<string>): Json { Arr(seq(|xs|, i requires 0 <= i < |xs| => Str(xs[i]))) }

  predicate Within(p: string, s: string) { exists i | 0 <= i <= |s| :: p <= s[i..] }

  /** `"accept" in detail.get("availableDecisions", [])` */
  function OffersAccept(f: map<string, Json>): Verdict {
    if "availableDecisions" !in f then No
    else match f["availableDecisions"]
      case Arr(xs) => if Str("accept") in xs then Yes else No
      case Str(s) => if Within("accept", s) then Yes else No
      case Obj(m) => if "accept" in m then Yes else No
      case _ => Raises
  }

  function MatchesToolUse(f: map<string, Json>, call: string, name: string, input: Json): Verdict {
    if f.Keys <= CLAUDE_KEYS && Get(f, "subtype") == Str("can_use_tool") && Get(f, "tool_use_id") == Str(call)
       && Get(f, "tool_name") == Str(name) && Get(f, "input") == input
    then Yes else No
  }

  /** The proposed policy amendment is absent or exactly this command's words. */
  function ProposalFits(f: map<string, Json>, command: string, split: Splitter): Verdict {
    var proposal := Get(f, "proposedExecpolicyAmendment");
    if proposal.Null? then Yes
    else
      var words := split(command);
      if words.None? then Raises else if proposal == Strings(words.value) then Yes else No
  }

  /** The requested command is the issued one, bare, as an argument list, or as its quoted line. */
  predicate CommandFits(asked: Json, command: string, split: Splitter) {
    var wrapped := ["/bin/sh", "-c", command];
    || asked == Str(command) || asked == Strings(wrapped)
    || (asked.Str? && split(asked.text) == Some(wrapped))
  }

  function MatchesExec(f: map<string, Json>, call: string, item: string, args: map<string, Json>, split: Splitter): Verdict {
    if !(f.Keys <= CODEX_KEYS)
       || Truthy(Get(f, "additionalPermissions")) || Truthy(Get(f, "proposedNetworkPolicyAmendments"))
       || Truthy(Get(f, "networkApprovalContext")) then No
    else if Get(args, "sandbox_permissions") != Str("require_escalated") then No
    else if Get(f, "kind") != Str("command") || Get(f, "environmentId") != Str("local") then No
    else if !OffersAccept(f).Yes? then OffersAccept(f)
    else
      var command := Get(args, "cmd");
      if !command.Str? then Raises
      else if !ProposalFits(f, command.text, split).Yes? then ProposalFits(f, command.text, split)
      else if CommandFits(Get(f, "command"), command.text, split) && Get(f, "cwd") == Get(args, "workdir")
              && (Get(f, "itemId") == Str(call) || Get(f, "itemId") == Str(item)) then Yes
      else No
  }

  function MatchesApproval(turn: Turn, detail: Json, split: Splitter): Verdict {
    if !detail.Obj? || turn.finalEmitted || |turn.issued| != |turn.results| + 1 then No
    else
      var call := turn.issued[|turn.issued| - 1];
      if call !in turn.items then Raises
      else match turn.items[call]
        case ToolUse(_, name, input) => MatchesToolUse(detail.fields, call, name, input)
        case FunctionCall(id, _, name, arguments) =>
          if name != "exec_command" then No
          else if !arguments.Obj? then Raises
          else MatchesExec(detail.fields, call, id, arguments.fields, split)
        case _ => No
  }

  // ---------------------------------------------------------------- soundness

  /** The detail identifies call `c`: Claude by the tool use, Codex by the call or its item. */
  ghost predicate Names(h: Harness, detail: Json, c: string) {
    detail.Obj? &&
    if h.Claude? then Get(detail.fields, "tool_use_id") == Str(c)
    else Get(detail.fields, "itemId") == Str(c) || Get(detail.fields, "itemId") == Str("item_" + c)
  }

  lemma BuiltItemShape(env: Env, h: Harness, names: set<string>, step: Step, token: string, index: nat)
    ensures var item := BuildItem(env, h, names, step, token, index);
            item.Some? ==>
              && (h.Claude? ==> item.value.ToolUse?)
              && (h.Codex? ==> item.value.CustomToolCall? || (item.value.FunctionCall? && item.value.id == "item_" + CallId(h, token, index)))
  {
    hide ShellCommand, CallId, Receipt;
  }

  /** A match is the turn's last issued call, without a result, and the detail names it. */
  lemma MatchIsOutstanding(s: State, t: nat, detail: Json, split: Splitter)
    requires Inv(s) && t < |s.turns| && MatchesApproval(s.turns[t], detail, split).Yes?
    ensures var turn := s.turns[t];
            && |turn.issued| == |turn.results| + 1
            && var c := turn.issued[|turn.issued| - 1];
               && c == CallId(s.harness, turn.token, |turn.results|)
               && c in s.calls && s.calls[c].result.None? && s.calls[c].turn == t && Names(s.harness, detail, c)
  {
    hide Inv, TurnsOk, CallsOk, TurnOk, Linked, CallId, Receipt, OffersAccept, ProposalFits, CommandFits, IssuedOk;
    InvLinks(s);
    TurnIsOk(s, t);
    LastItem(s, t);
  }

  /** The item of a turn's last issued call: recorded in the turn and the provider, and of its harness's kind. */
  lemma LastItem(s: State, t: nat)
    requires t < |s.turns| && TurnOk(s, t) && s.turns[t].issued != []
    ensures var u := s.turns[t];
            var i := |u.issued| - 1;
            && i < |u.steps| && i <= |u.results|
            && var c := u.issued[i];
               && c == CallId(s.harness, u.token, i) && c in u.items
               && c in s.calls && s.calls[c].turn == t && (s.calls[c].result.None? <==> i == |u.results|)
               && (s.harness.Claude? ==> u.items[c].ToolUse?)
               && (s.harness.Codex? ==> u.items[c].CustomToolCall? || (u.items[c].FunctionCall? && u.items[c].id == "item_" + c))
  {
    hide TurnOk, IssuedOk, BuiltFor, CallId, Receipt;
    var i := |s.turns[t].issued| - 1;
    TurnLengths(s, t);
    IssuedIsOk(s, t, i);
    IssuedIsRecorded(s, t, i);
    IssuedItemShape(s, t, i);
  }

  lemma IssuedItemShape(s: State, t: nat, i: nat)
    requires t < |s.turns| && i < |s.turns[t].issued| <= |s.turns[t].steps| && IssuedOk(s, t, i)
    ensures var c := s.turns[t].issued[i];
            && c in s.turns[t].items
            && (s.harness.Claude? ==> s.turns[t].items[c].ToolUse?)
            && (s.harness.Codex? ==> s.turns[t].items[c].CustomToolCall?
                                     || (s.turns[t].items[c].FunctionCall? && s.turns[t].items[c].id == "item_" + c))
  {
    hide BuildItem, CallId, Receipt;
    var u := s.turns[t];
    var names: set<string> :| BuildItem(s.env, s.harness, names, u.steps[i], u.token, i) == Some(u.items[u.issued[i]]);
    BuiltItemShape(s.env, s.harness, names, u.steps[i], u.token, i);
  }

  /** No detail names two calls. */
  lemma NamesOneCall(h: Harness, detail: Json, a: string, i: nat, b: string, j: nat)
    requires |a| == |b| && Names(h, detail, CallId(h, a, i)) && Names(h, detail, CallId(h, b, j))
    ensures CallId(h, a, i) == CallId(h, b, j)
  {
    var x, y := CallId(h, a, i), CallId(h, b, j);
    if h.Codex? {
      assert x[0] == 'c' && y[0] == 'c';
      assert ("item_" + x)[0] == 'i' && ("item_" + y)[0] == 'i';
      assert ("item_" + x)[5..] == x && ("item_" + y)[5..] == y;
    }
  }

  lemma TokensAreOfOneLength(s: State, t: nat, u: nat)
    requires Inv(s) && t < |s.turns| && u < |s.turns|
    ensures |s.turns[t].token| == |s.turns[u].token| && (s.turns[t].token == s.turns[u].token ==> t == u)
  {
    hide Linked, TurnsOk, CallsOk, ScheduleOk;
  }

  // ------------------------------------------------------------ over a whole run

  /** A recorded result stays, and so does the harness, at every step of every interleaving. */
  lemma NextKeepsRecorded(sys: Fixture.Sys, e: Fixture.Event, c: string)
    requires Inv(sys.p) && Fixture.Can(sys, e)
    requires c in sys.p.calls && sys.p.calls[c].result.Some?
    ensures var r := Fixture.Next(sys, e).p;
            r.harness == sys.p.harness && c in r.calls && r.calls[c].result.Some?
  {
    hide TurnsOk, CallsOk, TokensOk, ScheduleOk, Linked, Respond;
    if e.Arrived? {
      RespondKeepsRecorded(sys.p, e.request, c);
    }
  }

  lemma RespondKeepsRecorded(s: State, req: Request, c: string)
    requires Inv(s) && c in s.calls && s.calls[c].result.Some?
    ensures var r := Respond(s, req).0; r.harness == s.harness && c in r.calls && r.calls[c].result.Some?
  {
    hide Inv, Linked, Dispatch, Absorb;
    InvLinks(s);
    var a := Advertise(s, req.tools);
    var known := Known(s.calls.Keys, req.outputs);
    InvIgnoresLogs(s, a);
    InvLinks(a);
    AbsorbKeepsInv(a, known);
    AbsorbKeepsRecorded(a, known, c);
    if Absorb(a, known).1.None? {
      var b := Arrive(Absorb(a, known).0, req, known);
      InvIgnoresLogs(Absorb(a, known).0, b);
      InvLinks(b);
      DispatchAnswers(b, req.fingerprint);
      DispatchKeepsHarness(b, req.fingerprint);
    }
  }

  lemma {:induction false} AbsorbKeepsRecorded(s: State, outputs: seq<Output>, c: string)
    requires Linked(s) && c in s.calls && s.calls[c].result.Some? && forall o | o in outputs :: o.callId in s.calls
    ensures c in Absorb(s, outputs).0.calls && Absorb(s, outputs).0.calls[c].result.Some?
    decreases |outputs|
  {
    hide Linked, AbsorbOne;
    if outputs == [] {
    } else {
      AbsorbOneKeepsRecorded(s, outputs[0], c);
      if AbsorbOne(s, outputs[0]).1.None? {
        AbsorbKeepsRecorded(AbsorbOne(s, outputs[0]).0, outputs[1..], c);
      }
    }
  }

  lemma AbsorbOneKeepsRecorded(s: State, o: Output, c: string)
    requires Linked(s) && c in s.calls && s.calls[c].result.Some? && o.callId in s.calls
    ensures c in AbsorbOne(s, o).0.calls && AbsorbOne(s, o).0.calls[c].result.Some?
  {
    hide Linked, Utf8Length, ResultOf;
  }

  lemma DispatchKeepsHarness(s: State, fingerprint: string)
    requires Linked(s)
    ensures Dispatch(s, fingerprint).0.harness == s.harness
  {
    hide BuildItem, Linked;
  }

  lemma RecordedCallDoesNotMatch(s: State, c: string, detail: Json, split: Splitter)
    requires Inv(s) && c in s.calls && s.calls[c].result.Some? && Names(s.harness, detail, c)
    ensures forall t | 0 <= t < |s.turns| :: !MatchesApproval(s.turns[t], detail, split).Yes?
  {
    hide Inv, TurnsOk, CallsOk, Names, MatchesApproval, CallId;
    InvLinks(s);
    UnansweredIsOutstanding(s, c);
    forall t | 0 <= t < |s.turns| ensures !MatchesApproval(s.turns[t], detail, split).Yes? {
      if MatchesApproval(s.turns[t], detail, split).Yes? {
        MatchIsOutstanding(s, t, detail, split);
        var u := s.turns[s.calls[c].turn];
        TokensAreOfOneLength(s, s.calls[c].turn, t);
        NamesOneCall(s.harness, detail, u.token, s.calls[c].index, s.turns[t].token, |s.turns[t].results|);
      }
    }
  }

  lemma {:induction false} RunKeepsRecorded(sys: Fixture.Sys, events: seq<Fixture.Event>, c: string)
    requires Inv(sys.p) && Fixture.Possible(sys, events)
    requires c in sys.p.calls && sys.p.calls[c].result.Some?
    ensures var end := Fixture.Exec(sys, events).p;
            end.harness == sys.p.harness && c in end.calls && end.calls[c].result.Some?
    decreases |events|
  {
    hide Inv, Fixture.Next;
    if events == [] {
    } else {
      NextKeepsRecorded(sys, events[0], c);
      RunKeepsRecorded(Fixture.Next(sys, events[0]), events[1..], c);
    }
  }

  /** Once a call's result is recorded, no later state of any run has a turn that a detail naming it matches. */
  lemma SpentApprovalNeverMatches(
      sys: Fixture.Sys, events: seq<Fixture.Event>, c: string, detail: Json, split: Splitter)
    requires Inv(sys.p) && Fixture.Possible(sys, events)
    requires c in sys.p.calls && sys.p.calls[c].result.Some? && Names(sys.p.harness, detail, c)
    ensures var end := Fixture.Exec(sys, events).p;
            forall t | 0 <= t < |end.turns| :: !MatchesApproval(end.turns[t], detail, split).Yes?
  {
    hide Inv, Names, MatchesApproval, Fixture.Exec;
    RunKeepsRecorded(sys, events, c);
    RecordedCallDoesNotMatch(Fixture.Exec(sys, events).p, c, detail, split);
  }

  /** Over any run, abandons included, a detail matches one turn only, and that turn only while it waits for
      one and the same call. */
  lemma MatchesOneTurn(
      sys: Fixture.Sys, events: seq<Fixture.Event>, t: nat, u: nat, detail: Json, split: Splitter)
    requires Inv(sys.p) && Fixture.Possible(sys, events)
    requires t < |sys.p.turns| && MatchesApproval(sys.p.turns[t], detail, split).Yes?
    requires var end := Fixture.Exec(sys, events).p;
             u < |end.turns| && MatchesApproval(end.turns[u], detail, split).Yes?
    ensures t == u && |Fixture.Exec(sys, events).p.turns[u].results| == |sys.p.turns[t].results|
  {
    hide Inv, MatchesApproval, Names, CallId, Fixture.Exec, Fixture.Possible;
    var s, end := sys.p, Fixture.Exec(sys, events).p;
    Scripts.RunKeepsScripts(sys, events);
    MatchIsOutstanding(s, t, detail, split);
    MatchIsOutstanding(end, u, detail, split);
    TokensAreOfOneLength(end, t, u);
    NamesOneCall(s.harness, detail, s.turns[t].token, |s.turns[t].results|, end.turns[u].token, |end.turns[u].results|);
    CallIdInjective(s.harness, s.turns[t].token, |s.turns[t].results|, end.turns[u].token, |end.turns[u].results|);
  }

  // -------------------------------------------------------------- completeness

  /** A permission request of Claude's, with whatever of its metadata, for this step's own tool use. */
  predicate IsClaudeRequest(f: map<string, Json>, env: Env, step: Step, token: string, index: nat) {
    && f.Keys <= {"subtype", "tool_name", "display_name", "input", "description", "permission_suggestions",
                  "decision_reason", "decision_reason_type", "tool_use_id"}
    && Get(f, "subtype") == Str("can_use_tool") && Get(f, "tool_use_id") == Str(CallId(Claude, token, index))
    && var (name, input) := AskedOfClaude(env, step, token, index);
       Get(f, "tool_name") == Str(name) && Get(f, "input") == input
  }

  /** The tool a step is for, and what it is asked to do. */
  function AskedOfClaude(env: Env, step: Step, token: string, index: nat): (string, Json) {
    match step
    case Shell(_, _, _, timeoutMs, _) =>
      ("Bash", Obj(map["command" := Str(ShellCommand(env, step, Receipt(token, index))),
                       "timeout" := Num(Min(60000, timeoutMs + 5000) as real)]))
    case Patch(text) => ("apply_patch", Str(text))
    case Write(path, content) => ("Write", Obj(map["file_path" := Str(path), "content" := Str(content)]))
  }

  lemma ClaudeItemIsTheStep(s: State, t: nat, i: nat)
    requires s.harness.Claude? && t < |s.turns| && i < |s.turns[t].issued| <= |s.turns[t].steps| && IssuedOk(s, t, i)
    ensures var u := s.turns[t];
            var (name, input) := AskedOfClaude(s.env, u.steps[i], u.token, i);
            u.issued[i] in u.items && u.items[u.issued[i]] == ToolUse(CallId(Claude, u.token, i), name, input)
  {
    hide CallId, Receipt, ShellCommand, CodexShell;
    var u := s.turns[t];
    var names: set<string> :| BuildItem(s.env, s.harness, names, u.steps[i], u.token, i) == Some(u.items[u.issued[i]]);
  }

  /** For the open call, exactly Claude's own requests for that step are matched: its command and timeout,
      or its path and content. */
  lemma GenuineClaudeDetailMatches(s: State, t: nat, f: map<string, Json>, split: Splitter)
    requires Inv(s) && s.harness.Claude? && t < |s.turns| && !s.turns[t].finalEmitted
    requires |s.turns[t].issued| == |s.turns[t].results| + 1
    ensures var u := s.turns[t];
            var n := |u.results|;
            && n < |u.steps|
            && MatchesApproval(u, Obj(f), split) == if IsClaudeRequest(f, s.env, u.steps[n], u.token, n) then Yes else No
  {
    hide Inv, TurnsOk, CallsOk, TurnOk, IssuedOk, CallId, AskedOfClaude;
    InvLinks(s);
    TurnIsOk(s, t);
    IssuedIsOk(s, t, |s.turns[t].results|);
    IssuedIsRecorded(s, t, |s.turns[t].results|);
    ClaudeItemIsTheStep(s, t, |s.turns[t].results|);
  }

  /** The step's own command in its own directory, with escalation asked for exactly when the step asks for
      approval. */
  predicate EscalatesFor(arguments: Json, env: Env, step: Step, token: string, index: nat) {
    && step.Shell? && arguments.Obj?
    && Get(arguments.fields, "cmd") == Str(ShellCommand(env, step, Receipt(token, index)))
    && Get(arguments.fields, "workdir") == Str(step.cwd)
    && (Get(arguments.fields, "sandbox_permissions") == Str("require_escalated") <==> step.requireApproval)
  }

  lemma EscalationIsTheStepsRequest(env: Env, names: set<string>, step: Step, token: string, index: nat)
    ensures var item := BuildItem(env, Codex, names, step, token, index);
            item.Some? ==>
              && (item.value.FunctionCall? && item.value.name == "exec_command" ==>
                    EscalatesFor(item.value.arguments, env, step, token, index))
              && (step.Shell? && step.requireApproval ==> item.value.FunctionCall? && item.value.name == "exec_command")
  {
    hide ShellCommand, CallId, Receipt;
  }

  /** On Codex only a step that asked for approval can be approved, whatever the request says. */
  lemma CodexMatchNeedsRequest(s: State, t: nat, detail: Json, split: Splitter)
    requires Inv(s) && s.harness.Codex? && t < |s.turns| && MatchesApproval(s.turns[t], detail, split).Yes?
    ensures |s.turns[t].results| < |s.turns[t].steps|
    ensures var step := s.turns[t].steps[|s.turns[t].results|]; step.Shell? && step.requireApproval
  {
    hide Inv, TurnsOk, CallsOk, TurnOk, IssuedOk, CallId, OffersAccept, ProposalFits, CommandFits;
    InvLinks(s);
    TurnIsOk(s, t);
    LastItem(s, t);
    IssuedIsOk(s, t, |s.turns[t].issued| - 1);
    IssuedEscalation(s, t, |s.turns[t].issued| - 1);
  }

  lemma IssuedEscalation(s: State, t: nat, i: nat)
    requires s.harness.Codex? && t < |s.turns| && i < |s.turns[t].issued| <= |s.turns[t].steps| && IssuedOk(s, t, i)
    ensures var c := s.turns[t].issued[i];
            var step := s.turns[t].steps[i];
            && c in s.turns[t].items
            && var item := s.turns[t].items[c];
               && (item.FunctionCall? && item.name == "exec_command" ==>
                     EscalatesFor(item.arguments, s.env, step, s.turns[t].token, i))
               && (step.Shell? && step.requireApproval ==> item.FunctionCall? && item.name == "exec_command")
  {
    hide BuildItem, CallId, Receipt;
    var u := s.turns[t];
    var names: set<string> :| BuildItem(s.env, s.harness, names, u.steps[i], u.token, i) == Some(u.items[u.issued[i]]);
    EscalationIsTheStepsRequest(s.env, names, u.steps[i], u.token, i);
  }

  /** Something is said: not null, false, zero or empty. */
  predicate Says(j: Json) {
    j != Null && j != Bool(false) && j != Num(0.0) && j != Str("") && j != Arr([]) && (j.Obj? ==> exists k :: k in j.fields)
  }

  predicate IsOfCodex(key: string) {
    key in {"kind", "startedAtMs", "environmentId", "threadId", "turnId", "itemId", "approvalId", "command", "cwd",
            "reason", "commandActions", "availableDecisions", "additionalPermissions", "proposedExecpolicyAmendment",
            "proposedNetworkPolicyAmendments", "networkApprovalContext"}
  }

  /** A request of Codex's to run a local command, and nothing beyond it. */
  ghost predicate IsLocalCommand(f: map<string, Json>) {
    && (forall k | k in f :: IsOfCodex(k))
    && !Says(Get(f, "additionalPermissions")) && !Says(Get(f, "proposedNetworkPolicyAmendments"))
    && !Says(Get(f, "networkApprovalContext"))
    && Get(f, "kind") == Str("command") && Get(f, "environmentId") == Str("local")
  }

  /** The word is in the list, the text or the keys that are offered. */
  ghost predicate Offers(decisions: Json, word: string) {
    match decisions
    case Arr(xs) => exists i :: 0 <= i < |xs| && xs[i] == Str(word)
    case Str(s) => Occurs(word, s)
    case Obj(m) => word in m
    case _ => false
  }

  /** The words, each a string, in a list. */
  ghost predicate Spells(j: Json, words: seq<string>) {
    j.Arr? && |j.items| == |words| && forall i | 0 <= i < |words| :: j.items[i] == Str(words[i])
  }

  /** The command asked for is this one: bare, as the words that run it, or as a line of those words. */
  ghost predicate AsksFor(asked: Json, command: string, split: Splitter) {
    || asked == Str(command) || Spells(asked, ["/bin/sh", "-c", command])
    || (asked.Str? && split(asked.text) == Some(["/bin/sh", "-c", command]))
  }

  /** A command approval of Codex's for this call, this command in this directory: nothing beyond the one
      decision asked for, and any policy amendment proposed is the command's own words. */
  ghost predicate IsCodexRequest(f: map<string, Json>, call: string, command: string, cwd: string, split: Splitter) {
    var proposal := Get(f, "proposedExecpolicyAmendment");
    && IsLocalCommand(f) && Offers(Get(f, "availableDecisions"), "accept")
    && (Get(f, "itemId") == Str(call) || Get(f, "itemId") == Str("item_" + call))
    && AsksFor(Get(f, "command"), command, split) && Get(f, "cwd") == Str(cwd)
    && (proposal.Null? || (split(command).Some? && Spells(proposal, split(command).value)))
  }

  /** A local command request on which the check raises: its decisions are none that can be searched, or it
      proposes an amendment and the command cannot be split. */
  ghost predicate CannotBeRead(f: map<string, Json>, command: string, split: Splitter) {
    && IsLocalCommand(f) && "availableDecisions" in f
    && var decisions := f["availableDecisions"];
       || decisions.Null? || decisions.Bool? || decisions.Num?
       || (Offers(decisions, "accept") && Get(f, "proposedExecpolicyAmendment") != Null && split(command).None?)
  }

  lemma WithinIsOccurs(p: string, s: string)
    ensures Within(p, s) <==> Occurs(p, s)
  {
    if Within(p, s) {
      var i :| 0 <= i <= |s| && p <= s[i..];
      assert s[i..][..|p|] == s[i..i + |p|];
      assert OccursAt(p, s, i);
    }
    if Occurs(p, s) {
      var i: nat :| OccursAt(p, s, i);
      assert s[i..][..|p|] == s[i..i + |p|];
    }
  }

  lemma OffersMean(f: map<string, Json>)
    ensures OffersAccept(f).Yes? <==> Offers(Get(f, "availableDecisions"), "accept")
    ensures OffersAccept(f).Yes? ==> "availableDecisions" in f
    ensures OffersAccept(f).Raises? <==>
            "availableDecisions" in f && var d := f["availableDecisions"]; d.Null? || d.Bool? || d.Num?
  {
    hide Within, Occurs;
    var d := Get(f, "availableDecisions");
    if d.Str? {
      WithinIsOccurs("accept", d.text);
    }
  }

  lemma StringsSpell(j: Json, words: seq<string>)
    ensures j == Strings(words) <==> Spells(j, words)
  {
    if Spells(j, words) {
      assert j.items == Strings(words).items;
    }
  }

  lemma CommandFitsMeans(asked: Json, command: string, split: Splitter)
    ensures CommandFits(asked, command, split) <==> AsksFor(asked, command, split)
  {
    hide Strings, Spells;
    StringsSpell(asked, ["/bin/sh", "-c", command]);
  }

  lemma ProposalMeans(f: map<string, Json>, command: string, split: Splitter)
    ensures var proposal := Get(f, "proposedExecpolicyAmendment");
            && (ProposalFits(f, command, split).Yes? <==>
                  proposal.Null? || (split(command).Some? && Spells(proposal, split(command).value)))
            && (ProposalFits(f, command, split).Raises? <==> proposal != Null && split(command).None?)
  {
    hide Strings, Spells;
    if split(command).Some? {
      StringsSpell(Get(f, "proposedExecpolicyAmendment"), split(command).value);
    }
  }

  lemma SaysIsTruthy(j: Json)
    ensures Says(j) <==> Truthy(j)
  {}

  lemma LocalCommandMeans(f: map<string, Json>)
    ensures IsLocalCommand(f) <==>
            && f.Keys <= CODEX_KEYS && !Truthy(Get(f, "additionalPermissions")) && !Truthy(Get(f, "proposedNetworkPolicyAmendments"))
            && !Truthy(Get(f, "networkApprovalContext")) && Get(f, "kind") == Str("command") && Get(f, "environmentId") == Str("local")
  {
    hide Says, Truthy;
    SaysIsTruthy(Get(f, "additionalPermissions"));
    SaysIsTruthy(Get(f, "proposedNetworkPolicyAmendments"));
    SaysIsTruthy(Get(f, "networkApprovalContext"));
    forall k ensures k in CODEX_KEYS <==> IsOfCodex(k) {}
  }

  /** For the open call of a step that asked for approval, exactly Codex's own requests for that step's
      command in its directory are matched: with the policy amendment it always proposes, or without. */
  lemma GenuineCodexDetailMatches(s: State, t: nat, f: map<string, Json>, split: Splitter)
    requires Inv(s) && s.harness.Codex? && t < |s.turns| && !s.turns[t].finalEmitted
    requires |s.turns[t].issued| == |s.turns[t].results| + 1
    requires |s.turns[t].results| < |s.turns[t].steps|
    requires var step := s.turns[t].steps[|s.turns[t].results|]; step.Shell? && step.requireApproval
    ensures var u := s.turns[t];
            var n := |u.results|;
            MatchesApproval(u, Obj(f), split).Yes? <==>
            IsCodexRequest(f, CallId(Codex, u.token, n), ShellCommand(s.env, u.steps[n], Receipt(u.token, n)), u.steps[n].cwd, split)
    ensures var u := s.turns[t];
            var n := |u.results|;
            MatchesApproval(u, Obj(f), split).Raises? <==>
            CannotBeRead(f, ShellCommand(s.env, u.steps[n], Receipt(u.token, n)), split)
  {
    hide Inv, TurnsOk, CallsOk, TurnOk, IssuedOk, CallId, Receipt, ShellCommand, MatchesExec, IsCodexRequest, CannotBeRead;
    InvLinks(s);
    TurnIsOk(s, t);
    LastItem(s, t);
    var u := s.turns[t];
    var i := |u.issued| - 1;
    IssuedIsOk(s, t, i);
    IssuedEscalation(s, t, i);
    ExecMatchIsRequest(f, u.issued[i], u.items[u.issued[i]].arguments.fields, split);
  }

  lemma ExecMatchIsRequest(f: map<string, Json>, call: string, args: map<string, Json>, split: Splitter)
    requires Get(args, "sandbox_permissions") == Str("require_escalated") && Get(args, "cmd").Str? && Get(args, "workdir").Str?
    ensures var verdict, command := MatchesExec(f, call, "item_" + call, args, split), Get(args, "cmd").text;
            && (verdict.Yes? <==> IsCodexRequest(f, call, command, Get(args, "workdir").text, split))
            && (verdict.Raises? <==> CannotBeRead(f, command, split))
  {
    hide CommandFits, AsksFor, ProposalFits, OffersAccept, Offers, IsLocalCommand, CODEX_KEYS, Truthy, Spells;
    var command := Get(args, "cmd").text;
    LocalCommandMeans(f);
    OffersMean(f);
    CommandFitsMeans(Get(f, "command"), command, split);
    ProposalMeans(f, command, split);
  }
}
