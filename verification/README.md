# Verified model of the mixed-fleet fixture and its evidence checkers

The repository qualifies agent harnesses by running them against a scripted
loopback provider and then checking, from files alone, what happened. This
project models the two halves and proves that they agree:

- **The scripted provider** (`scripts/mixed_fleet_provider.py`). `ProviderSpec`
  gives each thing done under the provider's lock as a function on its state;
  `Provider` is the same provider as classes updated in place, each method
  proved to take that step; `Discipline` holds what every reachable state
  satisfies; `Fixture` interleaves handler threads and the runner in any order,
  with refused, closed and lost handlers and the runner's abandon step.
  `Scripts`, `Items`, `Retries`, `RunLength`, `Refusals`, `RequestLog`,
  `GivenUp`, `Receipts`, `Completion` and `Approval` prove what the scripts are
  for: each call sent is its step's and is read by a shell as it was meant
  (`ShellWords`), retries and old history advance nothing, a script has an exact
  length, the request log keeps every request, a refused request keeps what came
  before its fault, what was given up never ends, a denial that echoes its
  command is not execution, a script is complete exactly when its runs passed
  and showed their markers, and only the outstanding call can be approved.
- **The recount** (`scripts/check-interrupted.py`). `Timeline` is the checker
  and `Recount` proves its verdict is the history's, for every run.
- **Claim renewal** (`scripts/check-claude-gate.py`). `Renewal` covers the two
  ledger images, the claim checks, the journal and its batching, and
  `RenewalMeans` what they accept, told over rows and claims; `WriteResult` and
  `WriteMeans` do the same for `meta_verdict` and `matched_write`.
- **Admission, resume, gate, suite and message text.** `CandidateScan`,
  `Admission` and `AdmissionMeans`, `Resume`, `GateHook` and `GateMeans`,
  `Suite` and `SuiteMeans`, and `HtmlText`.

`Json`, `Option`, `Text` and `Listing` are shared vocabulary.

Conventions. A turn is named by its position in `turns`. A check that raises is
a refusal: functions whose callers see the raise return a `Result` or a third
verdict; the renewal checks are predicates for "returns true". A step is atomic
because the source takes the provider's lock for it; `matches_approval` alone
reads a turn without the lock, and is modelled between steps, not inside one
(`_item` appends to `issued` before it writes `_items`). A tool result over the
size bound, or a second and different one for its call, is refused and is no
answer (`TakenWhenTheyFit`). Tokens are strings of one length, distinct by
assumption (they come from `uuid4`). Parsed documents, digests and fingerprints
are data; `shlex.split`, `json.dumps`, `repr`, path resolution and
`html.UnescapeString` are parameters.

Four places where the code does less than a reader of its text might expect, each
kept as it is, shown on an input, and given its exact condition.

- A script does not always have its length. On Codex, a shell step that asks for
  approval is refused while the client advertises `shell` or `shell_command`
  without `exec_command`. A request is answered exactly when the step it leads to
  is `Supported`; where it is not, the result it carried is kept, the turn is left
  running with no call out, and it stays so, whatever is sent, until a request
  advertises `exec_command` (`ApprovalStepCanStall`, `StalledTurnWaits`).
- A retry is a stutter only under `RetryIsSafe`: after a final item, a request
  with another input starts the next turn or is refused. A turn opened on one
  input and finished on another is such a run (`SomeRetryIsNotSafe`).
- The replay window after a resume does not order an adapter frame that carries
  both a result and a method: such a frame passes ahead of the input, and a turn
  start that carries a result is its own answer (`SuchFramesExist`).
- A marker that `shell` accepts can be one that no output ever shows: it is
  refused for a line feed or a carriage return, and looked for among the lines of
  a splitter that breaks at eight further characters, a vertical tab for one
  (`SomeMarkerIsNeverShown`). Over the wrapper's own output a script is complete
  exactly when every run printed zero and no marker holds such a character
  (`WrappedRunsComplete`).

Run `dafny verify dfyconfig.toml` for the whole project.

## Model

| member | source | states |
|---|---|---|
| Fixture.EveryTurnIsDisciplined | scripts/mixed_fleet_provider.py:316-396 | in every state of every interleaving, including errors inside `_respond` and the runner's abandon: results, issued calls and steps are ordered with at most one call open, results are in step order, a call's result is unset exactly when it has not come, and a final item means all were called and answered |
| Fixture.Next | scripts/qualify-claude-interrupted.py:116-118 | each atomic step of handlers and runner ends in a state the discipline allows; the abandon step leaves nothing running and nothing queued, and the rest as it was |
| GivenUp.AbandonLeavesNothingToDo | scripts/qualify-claude-interrupted.py:116-118 | after the abandon step nothing runs and nothing waits, and turns, calls, logs and the last finished turn are what they were |
| GivenUp.IdleRefusesNewInput | scripts/mixed_fleet_provider.py:380-385 | while nothing runs or waits, new input is refused as arriving without a queued turn, and any input leaves it so |
| GivenUp.FirstQueuedAfterwardsOpens | scripts/qualify-claude-interrupted.py:116-125 | after an abandon, whatever runs before anything is queued and whatever is queued or marked behind it, the first turn queued is the one the next new input opens, with its own script |
| GivenUp.GivenUpNeverEnds | scripts/qualify-claude-interrupted.py:116-118 | a turn that had not ended at the abandon, running or queued, is issued no further call and has no final item in any later state of any run |
| Discipline.RespondKeepsInv | scripts/mixed_fleet_provider.py:354-396 | a request keeps the discipline wherever it raises, and the out-of-sequence guard never fires |
| Discipline.QueueTurnKeepsInv | scripts/mixed_fleet_provider.py:287-298 | queueing a turn with a new token keeps the discipline |
| Scripts.QueueTurnTakesScripts | scripts/mixed_fleet_provider.py:287-298 | a script is accepted exactly when it is titled, of at most 64 steps, and of steps its harness has tools for; it joins the queue at the back as it was given, and nothing else changes |
| Scripts.QueuedScriptStays | scripts/mixed_fleet_provider.py:287-298 | in every later state of any run a queued turn has the title, steps, final text and token it was queued with |
| Discipline.CallIdInjective | scripts/mixed_fleet_provider.py:316-319 | call identifiers of one harness name one turn and one step |
| Discipline.UnansweredIsOutstanding | scripts/mixed_fleet_provider.py:343-371 | a recorded call without a result is its turn's last issued call, one past its results |
| Fixture.RespondLogs | scripts/mixed_fleet_provider.py:374-379 | a request adds exactly one log row, its own, behind all earlier ones, and one timeline row numbered alike, or is refused and adds neither |
| RequestLog.RequestIsLogged | scripts/mixed_fleet_provider.py:354-379 | a request whose results fit adds a row with its path, tools and fingerprint and exactly the results of recorded calls, in their order; any other request leaves the log alone |
| RequestLog.RunIsLogged | scripts/mixed_fleet_provider.py:354-379 | over any run the log only grows, and its k-th new row is that of the k-th request logged |
| Fixture.EveryRunIsRecounted | scripts/check-interrupted.py:53-58 | every run's timeline passes `provider_timeline`, and each request has at most one answer row, of one kind, after its own row |
| Fixture.HandlerEndsOnce | scripts/mixed_fleet_provider.py:446-456 | an answered request's handler writes its answer or finds its client gone, once, and leaves one row of that kind with its number behind every other |
| Fixture.ReplayWindowIsExact | scripts/check-interrupted.py:61-74 | on any history the recount accepts exactly when each label was marked once, the close after the open, with one count returned at both and named by the receipt |
| Recount.WindowSeesEveryRequest | scripts/check-interrupted.py:68-74 | open, run anything, close, run anything: accepted exactly when no request arrived in between and the receipt's counts are the count at the opening |
| Recount.HeldAtFaultIsExact | scripts/check-interrupted.py:77-82 | the list is exactly the requests without an answer row when the fault was marked: still writing, refused after their row, or lost |
| Recount.HeldListMeans | scripts/check-interrupted.py:77-82 | for any log at all with numbered requests and one fault, the list is exactly the requests whose row precedes the fault and that no row before it answers |
| Recount.AcceptedWindowMeans | scripts/check-interrupted.py:345-366 | for any log at all, acceptance is one open before one close, no request row between, numbered requests and the receipt's counts; so the early, replayed, reversed and unlisted forgeries are refused |
| Recount.HeldAtFaultMeans | scripts/check-interrupted.py:53-82 | for any log at all, a list is given exactly when the requests are numbered one by one and there is one fault mark; it ascends and holds the unanswered requests before it |
| Recount.RefusedWindowMeans | scripts/check-interrupted.py:53-74 | for any log at all, the window raises exactly when the requests are not numbered one by one or either mark was not made once |
| Provider.ScriptedProvider.Respond | scripts/mixed_fleet_provider.py:354-396 | the class method takes exactly the specified step and keeps the object disciplined |
| Provider.ScriptedProvider.Item | scripts/mixed_fleet_provider.py:316-352 | the issued call is recorded in the provider and in its turn, or nothing is when the item raises |
| Items.EveryCallIsItsStep | scripts/mixed_fleet_provider.py:316-352 | in every reachable state each issued call is what its step asks for, field by field: its identifiers, its tool, and its text, path and content or command, directory and time, with the approval keys exactly where the step asks; and is recorded alike in the provider, with its receipt |
| ShellWords.CommandRunsTheStep | scripts/mixed_fleet_provider.py:185-189 | a shell reads the command line as the interpreter, `-c`, the wrapper program and one base64 word that decodes to the step and its receipt, whatever any of them hold |
| ShellWords.QuotedWordIsRead | scripts/mixed_fleet_provider.py:185-189 | a quoted word is read back as itself, whatever it holds |
| Provider.ScriptedProvider.Mark | scripts/mixed_fleet_provider.py:274-285 | the marker row and the number of requests before it, or a refusal |
| Fixture.MarkTakesOneLine | scripts/mixed_fleet_provider.py:274-285 | a label is marked exactly when it is one nonempty line, behind every row and with the count of requests so far |
| Provider.ScriptedProvider.QueueTurn | scripts/mixed_fleet_provider.py:287-298 | a new turn object at the back of the queue, or a refusal |
| Provider.ScriptedProvider.RecordAnswer | scripts/mixed_fleet_provider.py:446-456 | one answer row of the handler's kind |
| Retries.RetryStutters | scripts/mixed_fleet_provider.py:380-396 | repeating an answered request gives the same item and leaves turns, queue, active, last and calls unchanged exactly when it holds no result for the call it was given and, after a final, its input is the finished turn's |
| RunLength.FinalOnOtherInputIsNotRepeated | scripts/mixed_fleet_provider.py:380-396 | a last answer sent on another input than the turn started on gets the final item, and repeating it does not |
| RunLength.SomeRetryIsNotSafe | scripts/mixed_fleet_provider.py:380-396 | such a run exists: a one-step script opened on one input and answered on another |
| Retries.OldHistoryAdvancesNothing | scripts/mixed_fleet_provider.py:362-368 | tool results already recorded move no turn's results, and while a call is open the same call is answered with nothing changed |
| RunLength.TakenWhenTheyFit | scripts/mixed_fleet_provider.py:358-375 | in any reachable state a request's tool results are taken exactly when each is within the size bound, is its call's recorded result if there is one, and is the only one given for its call, whichever turn the call is of |
| Refusals.RefusedRequestKeepsWhatCame | scripts/mixed_fleet_provider.py:358-375 | a request whose results do not fit is refused at the first that does not, for its size before its history; the results before it are recorded and stay, and every other call, the schedule and both logs are as they were |
| Text.Utf8LengthCounts | scripts/mixed_fleet_provider.py:360-361 | the size is one byte for each character and one more from each of the three code points where the encoding widens |
| RunLength.TurnTakesItsLength | scripts/mixed_fleet_provider.py:324-396 | over any run without an abandon whose requests' results fit, with retries, late results of abandoned turns, marks, answer rows and queueing between: after its opening a k-step turn has one result for each answer and ends with the k-th, neither earlier nor later; until then it waits, or stands stuck exactly where an answer led to a step that cannot be sent and `exec_command` has not been advertised since |
| RunLength.AnswerAdvances | scripts/mixed_fleet_provider.py:324-396 | a fresh result is one step nearer the end whether or not the request is then refused; it is answered exactly when the next step can be sent, with that step's own call, sent to the tool the names advertised by then pick, or with its final text after the last result |
| RunLength.OpeningStarts | scripts/mixed_fleet_provider.py:358-396 | new input, with any results of abandoned turns that fit, starts the first queued turn on itself, and is answered, with its first step's own call or its final text, exactly when that step can be sent |
| RunLength.OpenCallIsRepeated | scripts/mixed_fleet_provider.py:387-390 | a request that brings nothing for the open call is answered with that call's recorded item again and leaves its turn as it was |
| RunLength.StalledTurnWaits | scripts/mixed_fleet_provider.py:333-335 | a turn whose next step cannot be sent refuses every request and keeps its script until one advertises `exec_command` |
| RunLength.StalledTurnResumes | scripts/mixed_fleet_provider.py:324-335 | a request whose results fit is answered in a stalled turn exactly when it advertises `exec_command` |
| RunLength.ApprovalStepCanStall | scripts/mixed_fleet_provider.py:324-335 | a one-step approval script offered `shell` alone is refused its first call and never ends, whatever runs without an abandon or `exec_command` |
| RunLength.TurnsFinishInQueueOrder | scripts/mixed_fleet_provider.py:380-396 | over every interleaving turns finish in the order they were queued |
| Receipts.EchoShowsNoExit | scripts/mixed_fleet_provider.py:172-189 | echoing the whole command between any texts that lack the receipt shows no exit code |
| Receipts.EchoedDenialIsNotExecution | scripts/mixed_fleet_provider.py:140-161 | a recorded result that echoes its call has no exit code, its script is not complete, and it witnesses no marker |
| Receipts.RealRunShowsItsExit | scripts/mixed_fleet_provider.py:372-375 | what the wrapper prints for any exit code, its line ended with or without a carriage return, is read back as that code |
| Receipts.ExitCodeIsExact | scripts/mixed_fleet_provider.py:372-375 | a code a line shows is read exactly when no other line shows any |
| Completion.CodeIsShown | scripts/mixed_fleet_provider.py:372-375 | a code is read exactly when one line of the output is the receipt, `=` and that integer, perhaps with a carriage return, and no other line is such for any code |
| Completion.LineIsShown | scripts/mixed_fleet_provider.py:155-161 | a word is one of the output's lines exactly when it stands there between line ends and holds none |
| Completion.CompleteMeans | scripts/mixed_fleet_provider.py:140-161 | in every reachable state a script is complete exactly when it has ended, each shell step's own output shows the code zero, and each marker is a line of some output that shows zero |
| Completion.WrappedRunsComplete | scripts/mixed_fleet_provider.py:140-183 | a script that has ended over the wrapper's own output is complete exactly when every printed code is zero and no marker holds a character that ends a line |
| Completion.BrokenMarkerNeverCompletes | scripts/mixed_fleet_provider.py:54-55 | a shell step whose marker holds such a character is complete on no output at all |
| Completion.SomeMarkerIsNeverShown | scripts/mixed_fleet_provider.py:54-55 | such a marker that `shell` accepts: two letters around a vertical tab |
| Text.QuoteAddsNoOccurrence | scripts/mixed_fleet_provider.py:185-189 | shell quoting brings no word without quotes into existence |
| Approval.MatchIsOutstanding | scripts/mixed_fleet_provider.py:93-138 | a matched detail names its turn's last issued call, which has no result |
| Approval.MatchesOneTurn | scripts/mixed_fleet_provider.py:93-138 | over a whole run, abandons included, a detail matches at most one turn, and that turn only while it waits for one and the same call |
| Approval.SpentApprovalNeverMatches | scripts/mixed_fleet_provider.py:100-107 | once a call's result is recorded, no later state of any run has a turn that a detail naming it matches, on either branch |
| Approval.CodexMatchNeedsRequest | scripts/mixed_fleet_provider.py:110-120 | on Codex only a shell step that asked for approval can be approved |
| Approval.GenuineClaudeDetailMatches | scripts/mixed_fleet_provider.py:100-109 | for the open call of step n, exactly Claude's own requests naming that call and carrying that step's tool and input are matched: its command and timeout, or its path and content |
| Approval.GenuineCodexDetailMatches | scripts/mixed_fleet_provider.py:110-138 | for the open call of a step that asked for approval, exactly Codex's own one-shot requests for that step's command in its directory are matched, the policy amendment it proposes being absent or this command's words; and the check raises exactly on a local command request whose decisions cannot be searched, or whose amendment cannot be compared |
| Renewal.ImagesArePinned | scripts/check-claude-gate.py:349-365 | the pair is chosen exactly when the images are one without the worker's idle row and one with it, both naming the worker |
| Renewal.ImageOrderIsIrrelevant | scripts/check-claude-gate.py:349-365 | the choice or the refusal does not depend on the images' order |
| Renewal.BatchingIsIrrelevant | scripts/check-claude-gate.py:409-428 | splitting or joining neighbouring batches keeps the verdict, except where the split tears a group that the joined batch held whole |
| Renewal.CoalescingIsIrrelevant | scripts/check-claude-gate.py:409-428 | joining every pair of neighbouring batches that can be joined, down to the fewest, keeps the verdict except where that brings together a group no batch held whole |
| RenewalMeans.NoneAreLeftToJoin | scripts/check-claude-gate.py:409-428 | joined so, no two neighbours are left that could be joined |
| Renewal.MismatchedBatchesCouldPass | scripts/check-claude-gate.py:419-428 | batches whose two path lists differ in length are not joined: two such rows are refused apart and would pass as one |
| Renewal.AppliedMeans | scripts/check-claude-gate.py:409-428 | acceptance places every path in exactly one row and nothing else, keeps each group in one row, and accounts for every renewed claim |
| RenewalMeans.AcceptedJournal | scripts/check-claude-gate.py:409-428 | acceptance is, both ways: every renewal row has the captured identity and this generation, complete coverage, an applied result, nothing unresolved and each native path spelled from its placed path; each path is placed as often as it should be; each group is whole in some row; and the counts add up |
| RenewalMeans.ReceiptIsTheEvidence | scripts/check-claude-gate.py:368-444 | a receipt's record matches exactly when its maps are the images' renewed times and its list the journal's renewals in order |
| RenewalMeans.ClaimsBoundMeans | scripts/check-claude-gate.py:372-386 | the claims are bound exactly when both images hold the expected ones, each of its one scope and owner, and created once |
| RenewalMeans.MovesMean | scripts/check-claude-gate.py:389-401 | between bound images the moves are accepted exactly when each claim a placed path lies under was renewed later and not past the idle, and every other claim not at all |
| Renewal.ExactlyTheWrittenClaimsMoved | scripts/check-claude-gate.py:349-444 | the checks together pin the receipt: the claims it shows moving are exactly those whose one scope covers a path the journal placed, each forward and not past the idle |
| Renewal.DisjointScopesDecide | scripts/check-claude-gate.py:389-396 | with claims that do not overlap, and a suite that writes under each claim on its moved list and nowhere else, no other claim covers a written path |
| Renewal.ClaudeRunMovesOnlyTheWrittenClaim | scripts/check-claude-gate.py:971-1015 | a qualified run's receipt shows one claim moving, the one whose scope covers what the journal placed and the worker's own; the held one is another session's |
| RenewalMeans.WriteRowsMean | scripts/check-claude-gate.py:971-1015 | the rows that run is checked on are the journal without its last renewal row, which is the edit's |
| Renewal.ClaudeListsFit | scripts/check-claude-gate.py:838-839 | the suite's four claims do not overlap, its two lists name exactly them, and it writes under the one on the moved list |
| Renewal.OrderedMeans | scripts/check-claude-gate.py:1029-1036 | the order check is: one allow, before every renewal row, all before every idle, and all three present |
| WriteResult.MetaOrderIsIrrelevant | scripts/check-claude-gate.py:877-915 | the verdict does not depend on the order of the entries |
| WriteResult.MatchedWriteIsExact | scripts/check-claude-gate.py:923-950 | an id is returned exactly when the trace holds a single Write of the path on the main thread with it and one result for it, in a renewable frame between that use and the next result frame |
| WriteResult.MatchedWriteIsExecuted | scripts/check-claude-gate.py:923-950 | the result a match stands on is unexecuted under no meta |
| WriteMeans.MetaMeans | scripts/check-claude-gate.py:877-915 | a result proceeds exactly with no list, no entry that names it, or its one entry permitting it; it is unexecuted exactly when its one entry refuses it and nothing says it completed; a list is read only if every entry names a result of the frame |
| WriteMeans.MatchedWriteMeans | scripts/check-claude-gate.py:923-950 | an id is returned exactly when the trace writes the path once on the main thread under it, with one result: later, on the main thread, no replay, alone in its frame, without an error, saying the path was created or updated, nothing against it, and before the next result frame |
| CandidateScan.CandidatesAreThoseOnOpenPaths | scripts/admission_lib.py:238-252 | descent finds exactly the candidates on paths through no other candidate |
| CandidateScan.Scan.Walk | scripts/admission_lib.py:238-252 | the two sets grow by exactly the document's bindings and strays |
| CandidateScan.ScanDocuments | scripts/admission_lib.py:255-274 | the sets returned are those of all the documents |
| CandidateScan.DocumentOrderIsIrrelevant | scripts/admission_lib.py:255-274 | gathered document by document, only which documents there are matters, not their order or number |
| Admission.AdmitsExactlyTheBound | scripts/admission_lib.py:277-303 | after a bind, admission of that harness holds exactly for the bound version and bytes, whatever the records say |
| AdmissionMeans.RecordsDecide | scripts/admission_lib.py:277-303 | with no expected build, a run is admitted exactly when its one binding carries bytes recorded for the version, or it bound nothing and the bytes known to have run are recorded for it, or none are known and the version is recorded |
| AdmissionMeans.ExpectedDecides | scripts/admission_lib.py:277-303 | with an expected build, exactly a run of that version and those bytes is admitted, recorded or not |
| AdmissionMeans.BindingIsWhatWasRead | scripts/admission_lib.py:134-164 | a bind succeeds exactly for a regular file that resolves, declares a version and did not change, with no other build bound; it binds what was read and tells both tables of that harness alone |
| AdmissionMeans.VersionLineIsExact | scripts/admission_lib.py:112-127 | a version line is read exactly when it is the harness's own form around a dotted version |
| Admission.RebindChangesNothing | scripts/admission_lib.py:151-163 | binding the same again or a conflicting native changes no table, and only the same binding succeeds |
| Admission.AdmissionTables.BindNative | scripts/admission_lib.py:134-164 | a refusal leaves both tables, a binding sets both |
| Admission.AdmissionTables.Expect | scripts/admission_lib.py:218-227 | the table built from the arguments, or a refusal holding only those before the bad one |
| Admission.ExpectedSaysWhatItIsTold | scripts/admission_lib.py:218-227 | accepted arguments name each harness once, and the table is exactly what they say |
| AdmissionMeans.ArgumentIsExact | scripts/admission_lib.py:218-227 | an argument is read exactly when it is a harness, a dotted version and 64 hexadecimal digits with colons between, and it says those three |
| Admission.AdmittedRunShowsItsBuild | scripts/admission_lib.py:238-303 | an admitted run's documents name the bound build on an open path, hold its digest as a control receipt, and hold no digest that no binding explains |
| Resume.NoReplayIsExact | scripts/check-uncertain.py:66-96 | the check passes exactly when the reply is followed by one input, one adapter answer, and no plain answer before the input |
| Resume.AnswerFollowsInput | scripts/check-uncertain.py:316-320 | in a window that passes, the answer comes after the input exactly when no frame up to the input is both answer and request; so both damage shapes are refused |
| Resume.MixedFrameEscapes | scripts/check-uncertain.py:93-96 | any frame that is both answer and request passes ahead of the input |
| Resume.AnsweringStartEscapes | scripts/check-uncertain.py:93-96 | any turn start that carries a result passes as its own answer |
| Resume.SuchFramesExist | scripts/check-uncertain.py:93-96 | logs that pass with the answer ahead of the input, and with a turn start that is its own answer |
| Resume.NoReplayMeans | scripts/check-uncertain.py:66-96 | over the wire itself: one resume, its first reply, then one turn start or steer and one adapter result, which has a method too if it comes first |
| GateHook.Judge | scripts/gate-hook.py:113-135 | legacy exactly for the old command; otherwise a reason is given exactly for each rule broken, and none is left exactly for README's own hook |
| GateHook.CleanHookIsReadmes | scripts/gate-hook.py:113-135 | no reason is left exactly for README's command run as a blocking, bounded, unconditional shell hook |
| GateHook.SetReasons | scripts/gate-hook.py:138-159 | clean exactly when every hook is clean, every matcher is read, every needed tool is selected and hooks are on; otherwise the complaint is a true one: some hook's reasons, a matcher not read, all the needed tools that no matcher selects, or hooks off |
| GateHook.CleanSetIsReadmes | scripts/gate-hook.py:113-159 | no reason is left for a file exactly when hooks are on, every hook but the legacy one is README's blocking command under a matcher that is read, and each needed tool is selected for one of them |
| GateMeans.CleanFileMeans | scripts/gate-hook.py:100-159 | character by character: hooks on, every gate hook but the old one blocking, bounded and unconditional under a matcher that is a list or matches all, and each of the four tools named in such a list |
| GateMeans.MatcherMeans | scripts/gate-hook.py:100-110 | a matcher selects all when absent, empty or a star; otherwise it is read exactly when written with a list's characters, and names exactly what stands between its separators, spaces aside |
| GateHook.SplittingOverManyKeepsCoverage | scripts/gate-hook.py:138-141 | splitting one entry's name list over any number of entries keeps the verdict |
| Suite.RelocatedCase | scripts/check-mixed-fleet.py:109-139 | every location is rewritten and nothing else, or the call is refused |
| Suite.RelocationRoundTrip | scripts/check-mixed-fleet.py:109-139 | moving there and back is the identity exactly when nothing outside the old root already lay under the new one |
| SuiteMeans.MovedMeans | scripts/check-mixed-fleet.py:109-139 | a moved case holds the same fields, each string that is the old root or lies below it moved to the new one, worktrees alike, and nothing else touched |
| Suite.SiblingStays | scripts/check-mixed-fleet.py:126-129 | a string that only shares the root's spelling is left alone |
| Suite.RelocatedCaseBreaksTheRun | scripts/check-mixed-fleet.py:79-100 | a case moved elsewhere falsifies the run; the contract survives exactly when no contract field is a path under the old root |
| Suite.EditedCaseBreaksOnlyTheContract | scripts/check-mixed-fleet.py:79-100 | a case edited anywhere but in its mode and root keeps the run, and falsifies the contract exactly when it differs in a contract field, present or absent, or in a session's native |
| Suite.ContractEditsAreRefused | scripts/check-mixed-fleet.py:165-175 | another value for a contract field, the field taken away, or another native for a session is refused by the contract alone |
| Suite.AnotherRootBreaksOnlyTheRun | scripts/check-mixed-fleet.py:176-181 | a suite naming another root than its cases' falsifies the run and keeps the contract |
| SuiteMeans.SuiteBindingMeans | scripts/check-mixed-fleet.py:79-100 | the run holds exactly when the root leads somewhere and every case names its mode and lives there; the contract exactly when placing the cases did not raise, the first has a contract and a session, and every case agrees with it field by field |
| HtmlText.HtmlToText | internal/buddylist/htmltext.go:13-39 | the byte loop is the recursive strip, and text without an envelope is returned as it is |
| HtmlText.EnvelopedMeans | internal/buddylist/htmltext.go:13-16 | text is an envelope exactly when `<HTML`, in any case, opens it after white space alone; any other message is untouched |
| HtmlText.StrippedByParts | internal/buddylist/htmltext.go:17-39 | text outside tags stays, a tag goes whether or not it closes, and leaves a line break exactly when it begins `BR` |
| HtmlText.TrimMeans | internal/buddylist/htmltext.go:14-39 | trimming takes all outer white space and nothing else |
| HtmlText.EnvelopeRoundTrip | internal/buddylist/htmltext.go:8-12 | wrapping entity-free text in an envelope and flattening it gives the text back exactly when it has no `<` and no outer white space |
| HtmlText.AimRoundTrip | internal/buddylist/htmltext.go:8-10 | so it is for the envelope measured from AIM 5.1 |

## Left out

- HTTP framing, compression, sockets and event streams: a handler is a request step, then one answer row or none.
- `_outputs`, `_fingerprint`, JSON decoding, hashing and file walking: their results are data; the model and stream fields of a request row are not kept.
- Tool names and call identifiers that are not strings, and unhashable candidate fields, whose use raises TypeError.
- `ledger_image`: the images are values, so two open claims of one slug (which it refuses) cannot occur in one.
- Python's `1 == True` and NaN: numbers are reals and never equal a truth value.
- Digits and white space beyond ASCII (`\d`, `int`, `TrimSpace`, upper-casing), and `int` spellings of a version other than plain digits.
- `html.UnescapeString` beyond leaving text without `&` alone.
- `candidate_flags`, `renewal_not_applied`, `edit_shape`, `gate_hooks` and `report`: they would only add easy members.
- The argument checks of `shell`, `patch` and `write`: a step is any value of its kind.
- Path normalisation: a case's root and a copy's destination are taken in the form `Path` gives them, and the copying of files is not modelled.
- The conjunctions of field equalities in the other checkers, the runners' process control, and the self-tests' synthetic evidence.
- CandidateScan.Scan.Walk: the order in which a dictionary's fields are visited is arbitrary here; the sets do not depend on it.
- Admission.AdmitsExactlyTheBound: a run with no binding is admitted when the bytes known to have run are the bound ones, as the code has it; the module comment speaks only of runs that went through the adapter.
