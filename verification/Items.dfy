/** What is sent for a step: the call of each issued item, told from the step and the tools advertised. */
module Items {
  import opened Option
  import opened Json
  import opened Text
  import opened ProviderSpec
  import opened Discipline
  import opened ShellWords

  /** The Codex shell tool: `exec_command` where it is advertised or no other is, then `shell_command`, then `shell`. */
  predicate IsShellTool(names: set<string>, tool: string) {
    || (tool == "exec_command" && ("exec_command" in names || names !! {"shell_command", "shell"}))
    || (tool == "shell_command" && "shell_command" in names && "exec_command" !in names)
    || (tool == "shell" && "shell" in names && names !! {"exec_command", "shell_command"})
  }

  /** `exec_command`'s own arguments. */
  ghost predicate AsksLine(f: map<string, Json>, env: Env, step: Step, receipt: string) {
    && step.Shell? && Get(f, "cmd").Str? && Runs(Get(f, "cmd").text, env, step, receipt)
    && Get(f, "workdir") == Str(step.cwd) && Get(f, "login") == Bool(false) && Get(f, "shell") == Str("/bin/sh")
    && Get(f, "yield_time_ms") == Num(30000.0) && Get(f, "max_output_tokens") == Num(10000.0)
  }

  /** An approval is asked for exactly when the step does, and nothing else is said. */
  predicate AsksApproval(f: map<string, Json>, step: Step) {
    && step.Shell?
    && f.Keys == {"cmd", "workdir", "login", "shell", "yield_time_ms", "max_output_tokens"}
                 + (if step.requireApproval then {"sandbox_permissions", "justification"} else {})
    && (step.requireApproval ==>
          && Get(f, "sandbox_permissions") == Str("require_escalated")
          && Get(f, "justification") == Str("Allow this exact disposable mixed-fleet Git mutation under /private/tmp? No production repository, credentials or persistent permission change."))
  }

  ghost predicate AsksExec(f: map<string, Json>, env: Env, step: Step, receipt: string) {
    AsksLine(f, env, step, receipt) && AsksApproval(f, step)
  }

  /** The other two Codex shells: `shell_command` takes the line, `shell` the words that run it. */
  ghost predicate AsksShell(f: map<string, Json>, env: Env, step: Step, receipt: string, inWords: bool) {
    && step.Shell? && !step.requireApproval
    && f.Keys == {"command", "workdir", "timeout_ms"}
    && Get(f, "workdir") == Str(step.cwd) && Get(f, "timeout_ms") == Num((step.timeoutMs + 5000) as real)
    && var command := Get(f, "command");
       if inWords
       then command.Arr? && |command.items| == 3 && command.items[..2] == [Str("/bin/sh"), Str("-c")]
            && command.items[2].Str? && Runs(command.items[2].text, env, step, receipt)
       else command.Str? && Runs(command.text, env, step, receipt)
  }

  /** Claude's Bash takes the line and a bound on its time, never more than a minute. */
  ghost predicate AsksBash(f: map<string, Json>, env: Env, step: Step, receipt: string) {
    && step.Shell? && f.Keys == {"command", "timeout"}
    && Get(f, "command").Str? && Runs(Get(f, "command").text, env, step, receipt)
    && Get(f, "timeout") == Num(if step.timeoutMs <= 55000 then (step.timeoutMs + 5000) as real else 60000.0)
  }

  predicate AsksWrite(input: Json, step: Step) {
    && step.Write? && input.Obj? && input.fields.Keys == {"file_path", "content"}
    && Get(input.fields, "file_path") == Str(step.path) && Get(input.fields, "content") == Str(step.content)
  }

  /** The item is the call of this step: under its identifier, to its tool, with what the step holds. */
  ghost predicate CallsFor(item: Item, env: Env, h: Harness, names: set<string>, step: Step, token: string, index: nat) {
    var suffix := token + "_" + Decimal(index);
    var receipt := "BUDDY_FIXTURE_EXIT_" + suffix;
    if h.Claude? then
      && item.ToolUse? && item.id == "toolu_buddy_" + suffix
      && match step
         case Shell(_, _, _, _, _) => item.name == "Bash" && item.input.Obj? && AsksBash(item.input.fields, env, step, receipt)
         case Patch(text) => item.name == "apply_patch" && item.input == Str(text)
         case Write(_, _) => item.name == "Write" && AsksWrite(item.input, step)
    else
      var call := "call_buddy_" + suffix;
      match step
      case Patch(text) => item == CustomToolCall("item_" + call, call, "apply_patch", text)
      case Write(_, _) =>
        item.FunctionCall? && item.id == "item_" + call && item.callId == call && item.name == "Write" && AsksWrite(item.arguments, step)
      case Shell(_, _, _, _, _) =>
        && item.FunctionCall? && item.id == "item_" + call && item.callId == call
        && IsShellTool(names, item.name) && item.arguments.Obj?
        && var f := item.arguments.fields;
           if item.name == "exec_command" then AsksExec(f, env, step, receipt)
           else AsksShell(f, env, step, receipt, item.name == "shell")
  }

  lemma IdsAreSpelled(h: Harness, token: string, index: nat)
    ensures CallId(h, token, index) == (if h.Claude? then "toolu_buddy_" else "call_buddy_") + (token + "_" + Decimal(index))
    ensures Receipt(token, index) == "BUDDY_FIXTURE_EXIT_" + (token + "_" + Decimal(index))
  {
    hide Decimal;
  }

  lemma BuiltItemIsTheStep(env: Env, h: Harness, names: set<string>, step: Step, token: string, index: nat)
    ensures var item := BuildItem(env, h, names, step, token, index);
            item.Some? ==> CallsFor(item.value, env, h, names, step, token, index)
  {
    hide Decimal, CallId, Receipt, ShellCommand, Runs, CodexShell, AsksExec, AsksShell;
    IdsAreSpelled(h, token, index);
    if step.Shell? {
      CommandRunsTheStep(env, step, Receipt(token, index));
      CodexShellIsTheStep(env, names, step, ShellCommand(env, step, Receipt(token, index)), Receipt(token, index));
    }
  }

  lemma CodexShellIsTheStep(env: Env, names: set<string>, step: Step, command: string, receipt: string)
    requires step.Shell? && Runs(command, env, step, receipt)
    ensures var call := CodexShell(names, step, command);
            call.Some? ==>
              && IsShellTool(names, call.value.0) && call.value.1.Obj?
              && if call.value.0 == "exec_command" then AsksExec(call.value.1.fields, env, step, receipt)
                 else AsksShell(call.value.1.fields, env, step, receipt, call.value.0 == "shell")
  {
    hide Runs, CodexShell, AsksExec, AsksShell;
    if "exec_command" in names || names !! {"shell_command", "shell"} {
      ExecIsTheStep(env, names, step, command, receipt);
    } else {
      OtherShellIsTheStep(env, names, step, command, receipt);
    }
  }

  lemma ExecIsTheStep(env: Env, names: set<string>, step: Step, command: string, receipt: string)
    requires step.Shell? && Runs(command, env, step, receipt)
    requires "exec_command" in names || names !! {"shell_command", "shell"}
    ensures var call := CodexShell(names, step, command);
            && call.Some? && call.value.0 == "exec_command" && call.value.1.Obj?
            && AsksExec(call.value.1.fields, env, step, receipt)
  {
    hide Runs, CodexShell, AsksLine, AsksApproval;
    ExecAsksLine(env, names, step, command, receipt);
    ExecAsksApproval(names, step, command);
  }

  lemma ExecAsksLine(env: Env, names: set<string>, step: Step, command: string, receipt: string)
    requires step.Shell? && Runs(command, env, step, receipt)
    requires "exec_command" in names || names !! {"shell_command", "shell"}
    ensures var call := CodexShell(names, step, command);
            && call.Some? && call.value.0 == "exec_command" && call.value.1.Obj?
            && AsksLine(call.value.1.fields, env, step, receipt)
  {
    hide Runs;
  }

  lemma ExecAsksApproval(names: set<string>, step: Step, command: string)
    requires step.Shell?
    requires "exec_command" in names || names !! {"shell_command", "shell"}
    ensures var call := CodexShell(names, step, command);
            call.Some? && call.value.1.Obj? && AsksApproval(call.value.1.fields, step)
  {}

  lemma OtherShellIsTheStep(env: Env, names: set<string>, step: Step, command: string, receipt: string)
    requires step.Shell? && Runs(command, env, step, receipt)
    requires "exec_command" !in names && !(names !! {"shell_command", "shell"})
    ensures var call := CodexShell(names, step, command);
            call.Some? ==>
              && call.value.0 == (if "shell_command" in names then "shell_command" else "shell") && call.value.0 != "exec_command"
              && call.value.1.Obj? && AsksShell(call.value.1.fields, env, step, receipt, call.value.0 == "shell")
  {
    hide Runs;
    ToolNamesDiffer();
  }

  lemma ToolNamesDiffer()
    ensures "shell_command" != "shell" && "shell_command" != "exec_command" && "shell" != "exec_command"
  {
    assert "shell_command"[0] == 's' && "shell"[0] == 's' && "exec_command"[0] == 'e' && |"shell_command"| == 13 && |"shell"| == 5;
  }

  /** Every issued call of every reachable state is the call of its step, to a tool that was advertised for
      it, and is recorded in the provider as in its turn, with the receipt its output is read by. */
  lemma EveryCallIsItsStep(s: State, t: nat, i: nat)
    requires Inv(s) && t < |s.turns| && i < |s.turns[t].issued|
    ensures var u := s.turns[t];
            && i < |u.steps| && u.issued[i] in u.items && u.issued[i] in s.calls
            && (exists names :: CallsFor(u.items[u.issued[i]], s.env, s.harness, names, u.steps[i], u.token, i))
            && s.calls[u.issued[i]].item == u.items[u.issued[i]] && u.items[u.issued[i]].Call() == u.issued[i]
            && s.calls[u.issued[i]].receipt == "BUDDY_FIXTURE_EXIT_" + (u.token + "_" + Decimal(i))
  {
    hide Inv, TurnsOk, CallsOk, TurnOk, IssuedOk, CallsFor, CallId, Receipt, Decimal;
    InvLinks(s);
    TurnIsOk(s, t);
    TurnLengths(s, t);
    IssuedIsOk(s, t, i);
    IssuedIsRecorded(s, t, i);
    IssuedItemAnswers(s, t, i);
    IssuedIsTheStep(s, t, i);
    IdsAreSpelled(s.harness, s.turns[t].token, i);
  }

  lemma IssuedIsTheStep(s: State, t: nat, i: nat)
    requires t < |s.turns| && i < |s.turns[t].issued| <= |s.turns[t].steps| && IssuedOk(s, t, i)
    ensures var u := s.turns[t];
            && u.issued[i] in u.items
            && exists names :: CallsFor(u.items[u.issued[i]], s.env, s.harness, names, u.steps[i], u.token, i)
  {
    hide BuildItem, CallId, Receipt, CallsFor;
    var u := s.turns[t];
    var names: set<string> :| BuildItem(s.env, s.harness, names, u.steps[i], u.token, i) == Some(u.items[u.issued[i]]);
    BuiltItemIsTheStep(s.env, s.harness, names, u.steps[i], u.token, i);
  }
}
