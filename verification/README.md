# Dafny model of the agent and its safeguards

This project models the logic of the agent that runs tools against cloud providers: the
tool-calling loop, the verifier's reading of model output, redaction of credentials, the hints and
lookups of the API reference, the audit log and the agent catalog. Model replies, tool outcomes,
server replies, audit writes and the moments an interrupt arrives are arbitrary, so every theorem
holds for all of them.

| file | component |
|---|---|
| Wrappers, Sequences | the option type, and two facts about sequences |
| Schema, LoopSpec, TranscriptPairing | messages; what a run of the loop may do, over the log of its rounds; the transcripts it sends |
| AuditTrace | the order of audit records, tool runs, model calls and halt checks, as a monitor over a trace of events |
| HaltSources, History, AgentLoop | the interrupt and budget flags, the kept history, and the loop itself as a class whose every method is proved against the above |
| JsonKeys, VerdictGate | the duplicate-key gate over the token stream and the two-pass verdict |
| EncodedEdits, FlowParser, CredentialScrub | the three text rewriters |
| Levenshtein, NearestIds, RouteTemplates | near-miss hints |
| StableSort | the sort of ids, spans and catalog rows |
| AuditLog | the logger's holds and its closer, as interleaved steps and as the class that takes them |
| KubeCache, KubeLookup | the document cache and the lookup recipe |
| AgentCatalog | listing, naming and resolving agents |

How the parts fit. `AgentLoop.Agent.RunLoop` is proved to produce a log of rounds that `Concludes`
allows and to append to a trace the monitor accepts; the theorems of `LoopSpec`,
`TranscriptPairing` and `AuditTrace` are about every such log and trace. In the other modules a
method is proved equal to a function, and lemmas relate the function to a definition made without
it: the least cost of a script, a backtracking matcher, a predicate on the JSON tree, the set of
covered positions.

Three promises hold only under a condition. The code is kept as it is, and the condition is proved:

- The summary request answers every call ID, but it puts the results next to their calls exactly
  when the IDs left pending are new in the whole transcript (`TranscriptPairing.SummaryPaired`); IDs
  unique within their own batch are not enough (`TranscriptPairing.ReusedIdBreaksPairing`).
- The one-pass route matcher agrees with backtracking exactly for templates with at most one greedy
  label (`RouteTemplates.AgreesExactlyForOneGreedy`).
- The listing comment promises rows sorted by name, then precedence. The code sorts by source, so
  this holds exactly when the sources of the roots that hold the name never fall along the roots
  (`AgentCatalog.PrecedenceOrder`, `AgentCatalog.OutOfOrder`); the roots the program registers are in
  that order.

A cache key is unambiguous for document keys and hashes without a NUL, whatever the identity
(`KubeCache.KeyInjective`). The recipe makes only such keys; that a NUL in either would be ambiguous
(`KubeCache.NulCollides`) is the margin, not a fault of a run.

## Model

| member | source | states |
|---|---|---|
| LoopSpec.RefusalBound | internal/agent/loop.go:329-439 | with ceilings e for blank and t for cut-off turns, no run survives e*t refused turns in a row, however the two alternate |
| LoopSpec.RefusalBoundIsTight | internal/agent/loop.go:385-439 | the bound is exact: for all e and t a run of exactly e*t - 1 turns, all refused, is survived |
| LoopSpec.RunRefusalBound | internal/agent/loop.go:59-65 | with the shipped ceilings no run goes on through nine refused turns in a row |
| LoopSpec.PassedSurvives | internal/agent/loop.go:214-282 | the rounds a run went on after never had a counter at its ceiling |
| LoopSpec.StreakIsFailingSuffix | internal/agent/loop.go:446-464 | the failure count is the credit of the longest suffix of dispatches that all failed |
| LoopSpec.ConcludeTurn | internal/agent/loop.go:232-262 | given the verdict `AgentLoop.Agent.AcceptTurn` proves of a turn, a run that stops there stops for a reason its rounds justify, and an answer is never empty |
| LoopSpec.ConcludeDispatch | internal/agent/loop.go:264-282 | a run that stops while dispatching dispatched a prefix of the calls and stopped at the first that reached the ceiling, at a halt or at an audit failure |
| LoopSpec.ContinueDispatch | internal/agent/loop.go:264-282 | a run that goes on dispatched every call, in order, with one result each, below the ceiling throughout |
| TranscriptPairing.RequestsPaired | internal/agent/loop.go:214-282 | in every request each assistant message with calls is followed at once by their results, in call order, whatever the IDs are |
| TranscriptPairing.RequestsExtend | internal/agent/loop.go:214-282 | each request extends all earlier ones |
| TranscriptPairing.AppendsAreUsable | internal/agent/loop.go:329-439 | the rounds a run went on after append no blank turn, and no call of a turn cut at the output limit |
| TranscriptPairing.AddedUsable | internal/agent/loop.go:329-480 | the same of all that any request of a run adds to its seed, the last round's turn and the summary's results and directive included |
| TranscriptPairing.SeedPaired | internal/agent/agent.go:201-215 | what a turn starts from is well paired, whatever the history records |
| TranscriptPairing.SummaryAnswersEveryCall | internal/agent/failure_summary.go:39-57 | the summary request has a result for every call ID in it, wherever the halt fell |
| TranscriptPairing.SummaryPaired | internal/agent/failure_summary.go:39-57 | after a halt inside a batch the summary request is well paired if and only if the pending IDs are new in the whole transcript |
| TranscriptPairing.ReusedIdBreaksPairing | internal/agent/failure_summary.go:39-57 | a concrete reuse across batches that breaks the pairing although each batch has distinct IDs |
| TranscriptPairing.RunTranscripts | internal/agent/loop.go:446-480 | of all requests of any run, however it ends and the summary's included: each extends the seed and every earlier one, adds no blank turn and no call of a cut-off turn, and has every call answered; the loop's are well paired, the summary's exactly when its pending IDs are new |
| TranscriptPairing.StreakBelowCeiling | internal/agent/loop.go:590-608 | the failure count is below a nonzero ceiling after every dispatch the run went on from |
| TranscriptPairing.SummaryAtFirstReach | internal/agent/loop.go:446-480 | the summary comes at the first dispatch that reaches the ceiling, and only there; without it the run stopped at a halt |
| AuditTrace.NothingAfterAuditFailure | internal/agent/loop.go:552-583 | after an audit write fails, no run at any depth does anything more in the turn |
| AuditTrace.NoWorkAfterHalt | internal/agent/loop.go:486-495 | once a check saw a halt, no run of the turn asks the model, attempts a call or runs a tool |
| AuditTrace.AttemptOf | internal/agent/loop.go:552-583 | every open level was opened by one recorded attempt of that call, and has been open since |
| AuditTrace.ResultClosesAttempt | internal/agent/loop.go:552-583 | every result closes one attempt of the same call, tool and depth, open all the way between |
| AuditTrace.AttemptGetsResult | internal/agent/loop.go:552-583 | every attempt is still open, or closed by a later result of the same call, tool and depth, or an audit write failed first |
| AuditTrace.AllPaired | internal/agent/loop.go:552-583 | with nothing left open, each attempt of any turn has its result or an audit write of its turn failed |
| AuditTrace.TurnPaired | internal/agent/loop.go:552-583 | in a turn that ended with nothing open and no audit failure, every attempt has its result |
| AuditTrace.PairsNest | internal/agent/loop.go:552-583 | a call attempted inside another's pair is deeper and has its result inside it too |
| AuditTrace.RunInsideAttempt | internal/agent/loop.go:641-676 | a tool runs only inside its own recorded attempt, after it and while it is open |
| AuditTrace.RunsBetween | internal/agent/loop.go:552-656 | between the attempt of a registered tool and its result the tool runs exactly once, unless a halt was seen in between; an unknown tool never runs |
| AuditTrace.RunsOnce | internal/agent/loop.go:641-676 | a call's tool runs at most once |
| AuditTrace.DepthBound | internal/agent/task.go:119-169 | sub-runs never nest deeper than one level |
| HaltSources.State.BeginTurn | internal/interrupt/state.go:25-30 | a turn starts with the flag down |
| HaltSources.State.EndTurn | internal/interrupt/state.go:33-37 | the flag survives the end of the turn |
| HaltSources.State.Trip | internal/interrupt/state.go:42-54 | the flag is sticky within a turn; the first interrupt of a turn does not kill, every other does |
| HaltSources.Accumulator.AddUsage | internal/metrics/metrics.go:141-167 | a reported total is billed, else the sum of the parts; a spent budget stays spent |
| HaltSources.Accumulator.BudgetExceeded | internal/metrics/metrics.go:295-303 | true exactly when all the model calls so far together reach a positive ceiling, and then also after any further calls |
| HaltSources.TotalGrows | internal/metrics/metrics.go:141-167 | further model calls never bring the billed total down |
| History.WithUnanswered | internal/agent/history.go:32-44 | the question is the pending tasks and the new one, folded in order |
| History.QuestionHolds | internal/agent/history.go:32-44 | every task folded into a question is in it word for word |
| History.HistoryAlternates | internal/agent/history.go:16-23 | whatever was recorded, the history strictly alternates user and assistant, with no tool call |
| History.TaskInHistory | internal/agent/agent.go:232-238 | every task a recorded answer covers is in the history, word for word, in the user message of that answer's exchange |
| History.TasksInOrder | internal/agent/agent.go:232-238 | the tasks stand in the history in the order they were asked |
| AgentLoop.Agent.HaltErr | internal/agent/loop.go:486-495 | the interrupt outranks the budget, and a halt once seen is seen again |
| AgentLoop.Agent.HaltOr | internal/agent/loop.go:290-296 | a pending halt outranks any other stop |
| AgentLoop.Agent.RefuseTruncatedCalls | internal/agent/loop.go:385-409 | the prose of a cut-off turn stays without its calls; the third in a row ends the run |
| AgentLoop.Agent.HandleBlankTurn | internal/agent/loop.go:417-439 | a blank turn is retried or ends the run, as its stop reason and the counter say, leaving the cut-off counter alone |
| AgentLoop.Agent.AcceptTurn | internal/agent/loop.go:329-371 | the transcript, calls, counters and verdict that the kind of the turn prescribes; an answer is accepted only when a check saw no halt, and a turn with calls passes on without an event |
| AgentLoop.Agent.CompletePendingToolResults | internal/agent/failure_summary.go:39-57 | one synthetic result for each call ID not answered, in call order |
| AgentLoop.Agent.JudgeSummary | internal/agent/failure_summary.go:84-138 | interrupted exactly when the flag is up, else the context's end exactly when it is seen, else over budget exactly when it is spent; otherwise the model's text, or the host's notice exactly when there is none |
| AgentLoop.Agent.FailureSummary | internal/agent/failure_summary.go:66-138 | one request, of the completed transcript and the directive, none only after an interrupt; the interrupt first, and never an answer that is empty or over budget |
| AgentLoop.Agent.InvokeIO | internal/agent/loop.go:682-749 | the tool runs if and only if no interrupt is seen, so never when one was up before; then the call is denied. A call that made progress credits no failure, another one all its failures, at least one for a denial or an error |
| AgentLoop.Agent.VerificationPass | internal/agent/verify.go:318-351 | one halt check, then exactly one model call of this depth, or none when the check saw a halt; it dispatches nothing |
| AgentLoop.Agent.RunVerify | internal/agent/verify.go:256-289 | exactly two such passes for a call with findings in the top-level run, else none, and in a sub-run a refusal; an interrupt replaces the report; no open call and no request of the run changes |
| AgentLoop.Agent.RunTask | internal/agent/task.go:119-169 | a sub-run starts exactly for a nonempty description at the top level, and is a run as `Concludes` allows, on a transcript of its own; its answer is the text, its halt or audit failure stops the parent, its other stops become text |
| AgentLoop.Agent.InvokeScoped | internal/agent/loop.go:660-676 | the tool runs, and what it returns credits one failure exactly when its sub-run failed; only an audit failure is fatal, and only a task starts a sub-run |
| AgentLoop.Agent.Invoke | internal/agent/loop.go:641-656 | an unknown tool runs nothing and credits one failure; a registered one runs, or a halt was seen first, and the result and outcome are what it came back with; an I/O tool never runs once the interrupt is up |
| AgentLoop.Agent.Dispatch | internal/agent/loop.go:552-583 | the attempt, the tool and the result with what the tool came back with, in that order, in a trace the monitor accepts; the call is closed again; fatal exactly when an audit write failed; it begins right after a check that saw no halt, and an I/O call under an interrupt comes back denied |
| AgentLoop.Agent.DispatchAndTrack | internal/agent/loop.go:446-480 | the result appended, the failure count moved, and the halt answer nonempty exactly at the ceiling with no halt; a halt it reports is the one that outranks the others; it goes on, or answers, only when a check saw no halt |
| AgentLoop.Agent.DispatchCalls | internal/agent/loop.go:264-280 | the dispatches of one turn and where they stop; with a halt already raised at most one call is dispatched, and the run ends |
| AgentLoop.Agent.TakeTurn | internal/agent/loop.go:232-280 | the rest of an iteration either ends the run as `Concludes` allows or extends its log by one round; no answer while a halt is raised |
| AgentLoop.Agent.RunRound | internal/agent/loop.go:218-280 | one iteration, checkpoints included; with a halt raised before it, it asks the model nothing and ends; no answer while a halt is raised |
| AgentLoop.Agent.RunLoop | internal/agent/loop.go:214-282 | every run: an accepted trace, a log its end is justified by, its requests in order, no work of a parent, and an answer that is the model's unless marked as the host's; every model call and every attempt comes right after a check that saw no halt; no answer while a halt is raised, and no round at all when one was raised before |
| AgentLoop.Agent.RecordWelcome | internal/agent/welcome.go:38-70 | an empty welcome is not recorded; any other is, as one exchange |
| AgentLoop.Agent.Settle | internal/agent/agent.go:232-238 | a host-written notice never enters the history and leaves its task pending; a model answer takes all pending tasks with it |
| AgentLoop.Agent.Run | internal/agent/agent.go:201-241 | after any sequence of turns each task that returned without error is in the history or pending, once and in order, and every recorded answer is one the model gave; every attempt of the turn has its result unless an audit write failed; the requests and calls are those of a run `Concludes` allows, from the history so far; no answer while a halt is raised |
| JsonKeys.WalkAcceptsExactly | internal/agent/verify.go:541-586 | the token walk accepts a stream of values if and only if every object at every depth has distinct keys under case folding |
| JsonKeys.WalkValue | internal/agent/verify.go:541-627 | the tokens of one value leave the stack as one value would, or report a repeat exactly when it holds one |
| JsonKeys.NeverUnderflows | internal/agent/verify.go:604-618 | on any part of a stream from its start the walk never pops an empty stack |
| JsonKeys.PassExactly | internal/agent/verify.go:541-586 | remembering the keys seen rejects exactly the repeated ones |
| JsonKeys.AfterValue | internal/agent/verify.go:623-627 | after a value an object expects a key |
| JsonKeys.StepDelim | internal/agent/verify.go:604-618 | a bracket changes the frames as it changes the specification's scopes |
| JsonKeys.EnsureNoDuplicateKeys | internal/agent/verify.go:541-586 | the loop over tokens returns what the walk returns, and a lexer error only after it |
| VerdictGate.DecimalValue | internal/agent/verify.go:164-171 | the decimal of a number reads back as that number |
| VerdictGate.FindingIDsDiffer | internal/agent/verify.go:164-171 | no two findings share an ID |
| VerdictGate.LastWinsIsFirstWins | internal/agent/verify.go:475-519 | past the duplicate check, last-wins field decoding equals first-wins |
| VerdictGate.FieldFromMember | internal/agent/verify.go:475-519 | a field is what the one member that folds to its name holds |
| VerdictGate.OrderIndependent | internal/agent/verify.go:475-519 | the order of an object's members does not change what is decoded |
| VerdictGate.DecodedMembers | internal/agent/verify.go:475-519 | the decoded map holds exactly the object's keys, each with its own entry |
| VerdictGate.DecodeVerdictObject | internal/agent/verify.go:475-519 | exactly one object, each key once, every value an entry, nothing after it |
| VerdictGate.AcceptedWhen | internal/agent/verify.go:411-464 | what passes both gates and names known findings only is an accepted response |
| VerdictGate.RejectedNot | internal/agent/verify.go:411-464 | what either gate refuses is not |
| VerdictGate.DegradedPass | internal/agent/verify.go:369-376 | a failed pass confirms and refutes nothing |
| VerdictGate.ParsePass | internal/agent/verify.go:411-464 | finding i is confirmed, or refuted, exactly when the accepted response's entry for it says so |
| VerdictGate.RunPass | internal/agent/verify.go:318-351 | the same of a pass whose model call succeeded and stopped normally or without a reason |
| VerdictGate.Aggregate | internal/agent/verify.go:94-109 | refuted if any verdict is; verified if there is one and all are confirmed |
| VerdictGate.Panel | internal/agent/verify.go:297-311 | verified if and only if both passes confirm; refuted if and only if some pass refutes |
| EncodedEdits.CommonPrefix | internal/redact/encoded.go:163-170 | the longest common prefix |
| EncodedEdits.SuffixLongest | internal/redact/encoded.go:174-183 | no longer run of whole characters ends both texts |
| EncodedEdits.SuffixWhole | internal/redact/encoded.go:174-183 | the common suffix is whole characters |
| EncodedEdits.CommonSuffix | internal/redact/encoded.go:174-183 | the loop finds that suffix |
| EncodedEdits.PlaceFinds | internal/redact/encoded.go:148-160 | the text placed is found at its first occurrence, up to the spaces that end it |
| EncodedEdits.TakeTurn | internal/redact/encoded.go:115-140 | one turn of the loop computes the specified turn |
| EncodedEdits.FinishTurn | internal/redact/encoded.go:115-140 | past the common prefix the turn ends at the text placed, or writes the rest up to the common suffix |
| EncodedEdits.TurnRebuilds | internal/redact/encoded.go:115-140 | a turn keeps and writes exactly what the redacted text holds there, whichever branch it takes |
| EncodedEdits.AlignRebuilds | internal/redact/encoded.go:115-140 | from any turn on, the edits are ordered, in bounds and rebuild the rest |
| EncodedEdits.Edits | internal/redact/encoded.go:115-140 | the loop returns the specified edits, for any sorted disjoint runs |
| EncodedEdits.EditsRebuild | internal/redact/encoded.go:115-140 | applying the edits to d yields the redacted text exactly, for every d, redacted text and runs |
| EncodedEdits.MappedOrdered | internal/redact/encoded.go:88-99 | a nondecreasing offset map keeps spans ordered and disjoint |
| EncodedEdits.Rewrite | internal/redact/encoded.go:88-99 | one span an edit, ordered, disjoint and within the map; none when nothing changed |
| EncodedEdits.OpenBody | internal/redact/encoded.go:215-232 | the end is after the first quote that no odd run of backslashes escapes; the body of an open string loses a dangling backslash |
| Levenshtein.ScriptsCostAtLeast | internal/apiref/candidates.go:192-210 | no script from one text to another is cheaper than the distance |
| Levenshtein.CheapestScript | internal/apiref/candidates.go:192-210 | some script costs exactly the distance |
| Levenshtein.Symmetric | internal/apiref/candidates.go:192-210 | the distance is symmetric |
| Levenshtein.LengthGap | internal/apiref/candidates.go:183-189 | the lengths differ by at most the distance |
| Levenshtein.ZeroExactlyWhenEqual | internal/apiref/candidates.go:192-210 | zero exactly on equal texts |
| Levenshtein.Triangle | internal/apiref/candidates.go:192-210 | the triangle inequality, by composing scripts |
| Levenshtein.EditDistance | internal/apiref/candidates.go:192-210 | the two swapped rows compute the distance |
| Levenshtein.WithinEditDistance | internal/apiref/candidates.go:183-189 | true exactly when a script of at most two edits exists: the early reject on lengths changes nothing |
| NearestIds.Nearest | internal/apiref/candidates.go:214-239 | the n closest distinct ids in order of distance, then of bytes; none left out is closer |
| NearestIds.OneAnswer | internal/apiref/candidates.go:212-239 | one set of ids has one answer, whatever their order and repeats |
| RouteTemplates.MatchGreedy | internal/apiref/candidates.go:138-149 | the cut the greedy label makes, and the rest segment by segment |
| RouteTemplates.Matches | internal/apiref/candidates.go:122-132 | the single pass |
| RouteTemplates.CutFits | internal/apiref/candidates.go:138-149 | with nothing greedy after it, the label takes exactly what the suffix leaves |
| RouteTemplates.OneGreedyAgrees | internal/apiref/candidates.go:122-156 | for at most one greedy label the pass agrees with backtracking, for every template and path |
| RouteTemplates.SeveralGreedyDisagree | internal/apiref/candidates.go:122-149 | every template with more misses a path that backtracking matches |
| RouteTemplates.AgreesExactlyForOneGreedy | internal/apiref/candidates.go:122-156 | agreement on all paths if and only if there is at most one greedy label |
| RouteTemplates.NeverOvermatches | internal/apiref/candidates.go:122-156 | with any number of greedy labels, what the pass matches backtracking matches too |
| RouteTemplates.NearMiss | internal/apiref/candidates.go:160-178 | exactly one literal differs, by one or two edits, and the rest of a template without greedy labels matches |
| CredentialScrub.FindAll | internal/auth/egress.go:334-362 | every occurrence of every form, overlapping ones included, and nothing else |
| CredentialScrub.Merge | internal/auth/egress.go:334-362 | the merged spans are separated and cover the same positions |
| CredentialScrub.CredentialSpans | internal/auth/egress.go:334-362 | the maximal runs of positions some occurrence covers |
| CredentialScrub.RunsUnique | internal/auth/egress.go:334-362 | two such lists for the same text and set of forms are equal, so the result depends on nothing else |
| CredentialScrub.Scrub | internal/auth/egress.go:311-327 | every uncovered byte kept in order, each covered run one placeholder |
| CredentialScrub.KeptTextIsClean | internal/auth/egress.go:304-327 | no kept stretch contains a form |
| CredentialScrub.CredentialForms | internal/auth/egress.go:223-263 | exactly the listed spellings of the credential, each once and none empty; none for an empty credential |
| FlowParser.PlaceholderInLine | internal/redact/flow.go:56-73 | a placeholder in the text is one in its line, so a collection a line opens is one for the parser |
| FlowParser.CloseQuote | internal/redact/structure.go:552-567 | the quote found is the first that closes: only whole escapes, doubled quotes and other bytes stand before it; -1 when none closes |
| FlowParser.ScalarEnd | internal/redact/flow.go:222-245 | a quoted scalar ends after the quote that closes it, or with the text; a plain one at the first place that stops it, without the blanks before |
| FlowParser.PlainEnd | internal/redact/flow.go:231-244 | a plain scalar ends at the first place that stops it, without the blanks before |
| FlowParser.Parser.SkipSpace | internal/redact/flow.go:248-266 | it stops past all blanks and comments, and never looks before the text |
| FlowParser.Parser.ReadProperties | internal/redact/flow.go:203-214 | where the node starts past all its properties, and whether they hold a tag |
| FlowParser.Parser.Scalar | internal/redact/flow.go:159-199 | nothing is read where no node starts; else exactly the key, or exactly the value, that stands there |
| FlowParser.Parser.ScalarAt | internal/redact/flow.go:165-199 | a key never takes the place of one that names a credential; a value is recorded with its key, tag and extent, and the entry is over |
| FlowParser.ScalarKeeps | internal/redact/flow.go:159-199 | reading a scalar keeps the frames and moves on |
| FlowParser.Decide | internal/redact/flow.go:180-198 | the branches that decide a value: at once, at the mapping's end, or left alone |
| FlowParser.Parser.Punctuation | internal/redact/flow.go:127-142 | a comma starts an entry, a colon its value, an indicator nothing; anything else is a scalar |
| FlowParser.Parser.Separator | internal/redact/flow.go:127-142 | a comma ends the entry, a colon its key, and nothing else changes |
| FlowParser.Parser.OneTurn | internal/redact/flow.go:105-122 | an opening bracket opens a frame, the right closing one ends the innermost |
| FlowParser.Parser.TakeTurn | internal/redact/flow.go:100-123 | one turn after any space; none at the end of the text or before the wrong bracket |
| FlowParser.TurnKeeps | internal/redact/flow.go:99-124 | every turn moves on, the first one opens a frame, and keys are recorded where they were read |
| FlowParser.Parser.Close | internal/redact/flow.go:269-277 | one frame fewer, its values emitted when it is named, and the entry around it is over |
| FlowParser.Parser.CloseAll | internal/redact/flow.go:280-286 | no frame is left |
| FlowParser.Parser.Parse | internal/redact/flow.go:99-124 | on every text it ends past its start after a run of such turns; the spans are in what was read, disjoint, and exactly those of the values read that are to be replaced |
| FlowParser.OneMoreWinner | internal/redact/flow.go:268-277 | closing a named frame emits exactly its held values |
| FlowParser.AllDecided | internal/redact/flow.go:279-286 | once all is closed, what was emitted is what is to be replaced |
| FlowParser.OrderFree | internal/redact/flow.go:180-198 | two texts whose mappings have the same members in any two orders: a value is replaced in the one exactly when it is in the other, and the same text of it is covered |
| FlowParser.ReplacedInOrder | internal/redact/flow.go:159-199 | the spans to be replaced lie in order within what was read |
| FlowParser.SplitLines | internal/redact/structure.go:168-182 | the lines cover the text: each starts right after the break that ends the one before, the first at the start, and the last ends with the text |
| FlowParser.LinesCover | internal/redact/structure.go:168-182 | every byte is in one of the lines or is the break that ends it, and no line holds a break |
| FlowParser.FlowStart | internal/redact/flow.go:56-68 | the offset right after the line's keys and properties when a collection that is no placeholder opens there, else -1 |
| FlowParser.Flows | internal/redact/flow.go:24-45 | the spans are those of the values to be replaced in every collection that a line opens outside those already read, and nothing else; they are in the text, and those found the same way never overlap |
| FlowParser.ReadLine | internal/redact/flow.go:24-45 | one line gives nothing when no collection opens in it or it starts inside one read before it, else the one that opens, read from that bracket |
| AuditLog.RunKeeps | internal/audit/audit.go:205-348 | every step of every interleaving keeps the invariant |
| AuditLog.EveryRun | internal/audit/audit.go:205-348 | over every interleaving: holds are grants minus releases, each drained channel is closed exactly once, the written records are numbered 1 to n without gaps |
| AuditLog.FailureLatches | internal/audit/audit.go:205-244 | after the first failure nothing is written and no number is spent |
| AuditLog.NoHoldAfterClosing | internal/audit/audit.go:271-294 | no hold is granted once closing is set, and holds only fall |
| AuditLog.PendingIsOutstanding | internal/audit/audit.go:299-324 | the closer stops waiting exactly with nothing held or its time up, and reports the holds outstanding at that instant |
| AuditLog.NilMeansNothingMissing | internal/audit/audit.go:330-348 | a nil result means no failure was latched and every hold ever granted is released, then and ever after |
| AuditLog.Logger.Log | internal/audit/audit.go:205-244 | one step of the protocol; it succeeds exactly when nothing is latched after it |
| AuditLog.Logger.Hold | internal/audit/audit.go:271-294 | one step; refused exactly when closing |
| AuditLog.Logger.Release | internal/audit/audit.go:283-293 | one step; a second release does nothing, and no channel is closed twice |
| AuditLog.Logger.PollPending | internal/audit/audit.go:299-324 | the critical section: stop or wait |
| AuditLog.Logger.PendingAfter | internal/audit/audit.go:299-324 | with any steps of others between its own it ends, and reports what is then held |
| AuditLog.Logger.Close | internal/audit/audit.go:330-348 | the closer's run is a run of the protocol that ends with its result; a failure latched before it is what it returns |
| KubeCache.KeyInjective | internal/auth/kubernetes_reference.go:467-467 | two keys agree only in all their parts |
| KubeCache.NulCollides | internal/auth/kubernetes_reference.go:467-467 | a margin: with a NUL in the document key or in the hash, another identity would share the cache key |
| KubeCache.NewestIsLongest | internal/auth/kubernetes_reference.go:484-504 | what a put keeps is the longest suffix that meets both bounds |
| KubeCache.PutIsKept | internal/auth/kubernetes_reference.go:482-504 | an accepted entry is always kept, last |
| KubeCache.PutKeepsDistinct | internal/auth/kubernetes_reference.go:484-504 | keys stay distinct, and every other entry kept was there before |
| KubeCache.EveryPut | internal/auth/kubernetes_reference.go:461-504 | after any puts: distinct keys, at most 16 entries and 16 MiB, each entry the last accepted put of its key |
| KubeCache.Cache.Get | internal/auth/kubernetes_reference.go:469-480 | a hit is the last accepted put of exactly that key; a miss means no entry has it |
| KubeCache.Cache.Put | internal/auth/kubernetes_reference.go:484-504 | the entries are the specified ones and the byte counter is their sum |
| KubeLookup.Lookup | internal/auth/k8s/openapi_root.go:116-131 | a listed key has a valid hash or the empty one |
| KubeLookup.HashedIsAdmitted | internal/auth/kubernetes_reference.go:154-165 | the document read is admitted with a valid hash or none |
| KubeLookup.PathsDiffer | internal/auth/kubernetes_reference.go:311-315 | different hashes are read at different paths |
| KubeLookup.HitHasHash | internal/auth/kubernetes_reference.go:200-202 | a cached entry found for a hash was put under that hash |
| KubeLookup.Recipe.Read | internal/auth/kubernetes_reference.go:250-263 | one admitted exchange; it goes on only with a whole reply and a live context |
| KubeLookup.Recipe.ReadRoot | internal/auth/kubernetes_reference.go:266-290 | the hash is the one the root just read publishes |
| KubeLookup.Recipe.Document | internal/auth/kubernetes_reference.go:311-341 | a document answered 200 to this hash; nothing and no stop exactly after a redirect of a hashed read; a stop says what the last reply was; a missing document is reported with the latest root's form |
| KubeLookup.Recipe.Version | internal/auth/kubernetes_reference.go:373-389 | one read of the version, and the version that reply holds in usable form, else none |
| KubeLookup.Recipe.Answer | internal/auth/kubernetes_reference.go:392-415 | the reference names the entry's own hash, version and digest, and exactly the operation's limitations, those learned, and the missing version |
| KubeLookup.Recipe.Cached | internal/auth/kubernetes_reference.go:200-202 | the answer the last document cached for this identity, key and hash gives; none only when no entry has them |
| KubeLookup.Recipe.Finish | internal/auth/kubernetes_reference.go:359-370 | only a document read by hash is cached; the answer carries that document's digest, the version just read and every limitation; the answer is what that document says of the operation |
| KubeLookup.Recipe.Fetch | internal/auth/kubernetes_reference.go:240-247 | an unhashed read always has a document or a stop, and caches nothing; its answer is what the document just read says |
| KubeLookup.Recipe.ReadHashed | internal/auth/kubernetes_reference.go:203-230 | the document read by the hash of the root just read, or, once the server redirected it, the rest after one more root |
| KubeLookup.Recipe.Unhashed | internal/auth/kubernetes_reference.go:233-237 | a reference has no server hash and says that the document had changed; a stop says what the last reply was; nothing is cached |
| KubeLookup.Recipe.Reread | internal/auth/kubernetes_reference.go:210-230 | the root is read again at most once, and a redirected hash is not asked for again; its answer too is what a document at hand says |
| KubeLookup.Recipe.Run | internal/auth/kubernetes_reference.go:192-230 | against any server: at most six reads, all admitted; the answer's hash is the latest root's or empty with a reason; a lookup that ends without a document says what its last read came to; at most one entry cached, read by its own hash; a reference, and the answer that there is no such operation, are what a document read here or the last one cached for this identity, key and hash says; a cached document is not read again |
| AgentCatalog.StemExact | internal/agentcatalog/catalog.go:196-207 | a file is a candidate exactly when it is a valid name and the extension |
| AgentCatalog.StemsHold | internal/agentcatalog/catalog.go:169-191 | a root lists a name exactly when it holds its file and the name is valid |
| AgentCatalog.CandidateNames | internal/agentcatalog/catalog.go:169-191 | a missing directory lists nothing, an unreadable one is an error |
| AgentCatalog.FirstCandidate | internal/agentcatalog/catalog.go:82-98 | the first candidate of a name comes from the first root that holds it |
| AgentCatalog.OneWinner | internal/agentcatalog/catalog.go:82-108 | each listed name has exactly one unshadowed row, the first holder's |
| AgentCatalog.HeldIsListed | internal/agentcatalog/catalog.go:82-108 | no agent a root holds is left out |
| AgentCatalog.ListedIsHeld | internal/agentcatalog/catalog.go:82-108 | no row is made up |
| AgentCatalog.SearchEnds | internal/agentcatalog/catalog.go:57-73 | the search ends at the first holder, with its definition or its error |
| AgentCatalog.ResolveAgrees | internal/agentcatalog/catalog.go:57-108 | resolving gives the unshadowed row's definition or error, and not-found exactly for a valid name with no row |
| AgentCatalog.PrecedenceOrder | internal/agentcatalog/catalog.go:75-108 | the rows of a name come in precedence order if and only if the sources of its holders never fall |
| AgentCatalog.OutOfOrder | internal/agentcatalog/catalog.go:98-105 | two roots against that order list the shadowed row first |
| AgentCatalog.List | internal/agentcatalog/catalog.go:82-108 | the sorted rows, or an error exactly when some root cannot be enumerated |
| AgentCatalog.Names | internal/agentcatalog/catalog.go:116-139 | the sorted, duplicate-free set of listed names |
| AgentCatalog.Resolve | internal/agentcatalog/catalog.go:57-73 | the first root that holds a valid name decides |

## Left out

- Text of prompts, directives, notices and reasons: shortened or replaced by names; no property depends on it, except that a directive is not blank.
- Contexts, timers and goroutines: a context is a flag that may rise at any check, a wait is a number that falls between two wakes, and interrupts arrive at the points where the code looks.
- Metrics other than the billed tokens, response callbacks, verbose rendering and the framing of tool output as untrusted.
- Audit records that tools write inside their own call, and the approval decorator: a tool reports an audit failure of its own or it does not.
- The verification panel's report and prompts, code-fence stripping and clamping of evidence: not modelled. Inside the loop a pass is a model call, and what it says is in VerdictGate.
- Parsing the arguments of a task or a panel call: any function of the text.
- JSON lexing: the gate and the decoder read tokens. A truncated input gives the gate the end of input, so it passes there and the decoder refuses it, as in the code.
- Case folding is ASCII; keys outside ASCII are not modelled.
- AgentLoop.Agent.RecordWelcome: does not trim the text, as the code does not, so a blank welcome may enter the history.
- LoopSpec.ConcludeTurn: takes the verdict on the turn, which `AgentLoop.Agent.AcceptTurn` proves, and says nothing of when a halt is allowed; that is in `Told` and over the trace.
- CredentialScrub.CredentialForms: of one proxy; base64 and Go quoting are functions that give nonempty text for nonempty text.
- EncodedEdits: finding the encoded strings in a text, decoding them, nesting and applying the spans are not part of this model; the runs are any sorted disjoint ones.
- Levenshtein.EditDistance: texts are rune sequences, so bytes that are not valid UTF-8 are compared as one replacement rune.
- NearestIds.Nearest: lower-casing is any function.
- The candidate lines of a hint (which routes are tried, and their bound of three) are not part of this model.
- FlowParser.Parser.Parse: open frames are values in the parser's stack, where the code keeps pointers to them; the patterns for credential names, the decoding of YAML scalars and JSON validity are any functions, and the patterns before a collection match at the start of the text.
- FlowParser.Flows: a collection found after properties may overlap one found on a later line inside it, as in the code; applying the spans is not part of this model.
- AuditLog.Logger.Log: the record is its sequence number; stamping, redaction and a partial write are not modelled.
- AuditLog.Logger.PendingAfter: time passes between two wakes, so a wake that finds new holds ends the wait in finitely many rounds.
- KubeCache.Cache.Put: the size of a document is a number; the walk that measures it and stops at the limit is not modelled.
- KubeLookup.Recipe.Run: parsing is part of the reply, so what a body parses to is arbitrary; the words of reasons and the choices of a key that is not listed are left out.
- KubeLookup.Recipe.Reread: with Cached and ReadHashed a part of run in the code, as EncodedEdits.FinishTurn and FlowParser.Parser.Separator are of the methods before them.
- AgentCatalog.Resolve: the file system is fixed during a call; symbolic links, file types, sizes and parsing are one outcome for each file, and paths are joined with a slash.
- Provider clients, subprocesses, configuration, the command line and the rest of the redaction rules are not part of this model.
