# terminal-mcp: the stateful cores, modelled and proved

terminal-mcp lets agents work in terminal sessions, plan work in a shared
backlog, ask a browser-side model through a bridge, and see what all of it
costs. This project models the parts of it that keep state across calls, files
and processes, and proves what they promise for every input and every run.

| Files | What they model |
|---|---|
| `BridgeStore`, `BridgeProtocol`, `BridgeRuns`, `BridgeCapacity`, `BridgeStages`, `BridgeSubmission`, `BridgeCancel` | the `bridge_turns` table, the ask_chatgpt pipeline, and the protocol of callers, cancellers and expiry sweepers over it: a transition system with every SQL statement and transport call as one step |
| `UsageParse`, `UsageIndex`, `UsageRuns`, `UsageClean`, `UsageFaults`, `UsageTotals`, `UsageRewrites` | the incremental usage index: byte offsets, partial lines, the carried prompt, insert-or-ignore, backfill, running totals |
| `PyText`, `Ansi`, `SgrRoundTrip`, `Composer`, `ComposerRows` | the composer reader: escape sequences (control sequences in section 5.4 of ECMA-48, OSC in section 8.3.89, SGR in section 8.3.117), the dim flag, the bottom-up classifier |
| `BacklogDb`, `BacklogConcurrency`, `BacklogRuns`, `SortedKeys`, `Reconcile`, `BacklogFile`, `BacklogRepairs`, `BacklogRoundTrip` | the project backlog: optimistic concurrency with reads in two statements, the idempotent merge of two documents, the file format |
| `AuthThrottle`, `ThrottleBounds` | the bounded table of sources with exponential backoff and reclaim |
| `Reach`, `SelectGraph`, `Lifecycle` | the bounded breadth-first tree and the lifecycle ordering of diagrams |
| `ContextCompiler` | budgeted context packing with one duplicate set over all lanes |
| `AuditClaims` | idempotency claims with stale takeover and pruning |
| `CostFor` | apportioned cost |
| `Options`, `Collections` | shared vocabulary |

How the code is represented: a class of the repository whose methods update its
tables is a class here, each method proved against a function on the table
values; runs of many steps, processes and readers are sequences of states over
the same functions, and the main results are lemmas about all such sequences.
Where a natural promise fails, the model keeps the code's behaviour, a lemma
exhibits the failing case and another says exactly when the promise holds; the
next section names both.

What is a parameter: the meaning of one transcript line (JSON, prompt, cost and
usage extraction) is a function from bytes to a line; str.lower, the prompt's
term score on edges and the rank order of modules are arguments; clocks, new
ids, the answers of the transport and read errors are inputs of the step that
uses them.

## Where promise and code part

- A cancelled bridge turn may still be submitted, even when the cancel won: the
  pipeline ignores the results of its compare-and-swaps. It can happen exactly as
  long as the owning caller has not come past its submission
  (`CancelledTurnMayStillBeSubmitted`, `SubmissionMayFollowIff`). At-most-once and
  absorption hold anyway.
- A cancel that loses the race returns with the turn revoked but running, exactly
  when another swap on the turn won in between and the turn is not over by then
  (`CancelReturnsWhileTurnRuns`, `CancelEndsTheTurnIff`).
- The concurrency limit is exact only when no two callers are between the gate
  and their insert at once (`CapacityBound`, `CapacityBoundIsReached`).
- docs/ask-chatgpt-bridge.md, section 5, draws UNKNOWN from ACTIVATING and
  ACCEPTED, and FAILED from every state up to ACTIVATING. The code goes to UNKNOWN
  from ACTIVATING and RESPONDING and to FAILED from PREPARING, WRITING and
  RESPONDING; the model follows the code.
- A backfill that sees an appended prompt, or a read error, can leave the wrong
  carried prompt, and an append between a refresh and its backfill can attribute
  an event to a later prompt for good (`AppendBeforeBackfillMisattributes`). When
  the carry is right: `BackfillCarryIsRightIff`, `FailedBackfillCarryIsRightIff`,
  `FailedReadCarryIsRightIff`; when a wrong one does harm: `WrongCarryHarmsIff`.
- A backfill that fails part-way can set a session's running total back to an
  earlier one (`FailedBackfillTakesTotalBack`, `FailedBackfillKeepsTotalIff`).
- A transcript rewritten in place under its old inode, and not shorter than the
  stored offset, is not read again (`RewriteInPlaceLosesEvents`,
  `ResumedReadStoresAllIff`).
- Rows above a composer matter when a frame lands on a first-row prompt
  (`FrameAboveFirstRowMatters`, `ScrollbackOnlyShifts`).
- `validate` writes without the project lock and breaks the guarantee of
  expected revisions (`ValidateBreaksTheGuarantee`,
  `WriteRanOnWhatGetReturnedIff`).
- A scalar evidence field is discarded exactly when the historical field is a
  list (`EvidenceSurvivesIff`, `EvidenceAfterDocument`).
- Two throttle checks made in parallel escape the wait between failures
  (`ParallelGuessesSkipTheWait`, `EachFailureWaitsIff`).
- An optional lane that drops an item hides its copy in a later mandatory lane
  (`OptionalLaneHidesMandatory`, `FirstLaneDecides`).
- A claimant stalled between its two clock readings can be overtaken at once
  (`StalledClaimIsTakenOver`, `WinsCommitApartIff`).
- Two cost ranges that meet at a moment pay its events in both
  (`TouchingRangesPayTwice`).
- A transition with an undeclared source is drawn without its source
  (`UndeclaredSourceIsNotDrawn`, `EndIsDrawnIff`).

## Model

| member | source | states |
|---|---|---|
| BridgeStore.BridgeTurnStore.Claim | terminal_mcp/bridge.py:174-211 | one INSERT that loses to an existing idempotency key, then a read by key that always finds a row with that key; `inserted` says whose row it is |
| BridgeStore.BridgeTurnStore.GetByIdempotencyKey | terminal_mcp/bridge.py:220-225 | finds a row exactly when the key is claimed, and that row is the only one with the key |
| BridgeStore.BridgeTurnStore.CasUpdate | terminal_mcp/bridge.py:263-276 | writes the given columns exactly when the row is in the expected state, touches no other row, and reports whether it won |
| BridgeStore.BridgeTurnStore.Revoke | terminal_mcp/bridge.py:278-290 | sets the revocation once; later calls change nothing and say so |
| BridgeStore.CountFollowsTheTable | terminal_mcp/bridge.py:244-251 | what the gate counts: a claim adds one exactly when its key is new, a compare-and-swap takes one away exactly when it wins and ends the turn, a revocation changes nothing |
| BridgeStore.BridgeService.RunPipeline | terminal_mcp/bridge.py:495-577 | alone on the table: leaves its row revoked, terminal, in exactly the state the transport answers call for, with acceptance and activation recorded exactly as far as the pipeline got and the stage that goes with each failing answer; no other row changes |
| BridgeStore.BridgeService.DriveToVerdict | terminal_mcp/bridge.py:500-550 | the state, attempts and acceptance reached before the verdict, for each way the transport can answer |
| BridgeStore.BridgeService.ObserveLoop | terminal_mcp/bridge.py:537-549 | the polling loop reaches the verdict of the polls; only a completion goes without an error stage |
| BridgeStore.FirstDecisivePollDecides | terminal_mcp/bridge.py:537-549 | the verdict is UNKNOWN exactly when every poll up to the deadline still responds, else that of the first decisive poll |
| BridgeStore.BridgeService.SweepExpired | terminal_mcp/bridge.py:597-611 | cancels and revokes exactly the expired non-terminal rows, leaves the others alone, and leaves none expired |
| BridgeStore.BridgeService.CancelTurn | terminal_mcp/bridge.py:613-627 | a terminal turn is untouched, any other ends cancelled and revoked, no other row changes |
| BridgeRuns.StepKeepsInv | terminal_mcp/bridge.py:174-290 | every step of any caller, canceller or sweeper keeps the protocol invariant and moves each row along a declared edge or not at all |
| BridgeRuns.InvariantHolds | terminal_mcp/bridge.py:397-627 | the invariant holds in every reachable state, for any number of processes and any interleaving of their SQL statements and transport calls |
| BridgeRuns.AtMostOneSubmit | terminal_mcp/bridge.py:397-478 | per idempotency key the transport is asked to submit at most once, so by at most one caller |
| BridgeRuns.OnlyDeclaredEdges | terminal_mcp/bridge.py:55-73 | rows are never deleted; their state moves only along the declared edges; revocation and acceptance are never taken back; key, identity, trace and expiry never change |
| BridgeRuns.TerminalIsForever | terminal_mcp/bridge.py:73 | a terminal row keeps its state for the rest of the run |
| BridgeRuns.PipelineStateOrTerminal | terminal_mcp/bridge.py:495-571 | while a pipeline runs, its row carries its key and is in the state that program point expects, or is terminal |
| BridgeRuns.FinishedPipelineIsSettled | terminal_mcp/bridge.py:567-577 | a returned pipeline left its row terminal and revoked, one unwound by an exception left it revoked; the read after a claim never finds nothing |
| BridgeRuns.ProgressMeansSubmitted | terminal_mcp/bridge.py:508-535 | a row past WRITING, completed or unknown was submitted exactly once |
| BridgeStages.CycleIsRefusedIff | terminal_mcp/bridge.py:227-242 | a call with a trace ends at the cycle check exactly when a turn of its trace and identity is open at that moment, and leaves the table as it is |
| BridgeStages.EveryEndNamesItsStage | terminal_mcp/bridge.py:500-593 | in every reachable state a failed or unknown row names its stage, by whether it had been accepted; a cancelled row names one only when it expired; no other row names any |
| BridgeProtocol.CasShape | terminal_mcp/bridge.py:508-555 | each compare-and-swap of the pipeline starts where the pipeline believes the row to be and ends where the next point expects it |
| BridgeProtocol.AdvanceOwnRow | terminal_mcp/bridge.py:495-577 | a pipeline step touches its own row alone, keeps the table well-formed and leaves the caller fitting its next point, whoever cancelled meanwhile |
| BridgeProtocol.OtherCallerKept | terminal_mcp/bridge.py:263-276 | a step on one row leaves every caller owning another row fitting its program point |
| BridgeProtocol.CancelStepKeepsInv | terminal_mcp/bridge.py:613-627 | each of the canceller's three statements keeps the invariant |
| BridgeProtocol.SweepStepKeepsInv | terminal_mcp/bridge.py:597-611 | each of the sweeper's statements keeps the invariant |
| BridgeCapacity.CapacityBound | terminal_mcp/bridge.py:447-474 | turns in flight plus callers between the gate and their insert never exceed limit - 1 + w, w being the most callers ever in that window |
| BridgeCapacity.CapacityBoundIsReached | terminal_mcp/bridge.py:447-474 | for every limit and every w some run has exactly limit - 1 + w turns in flight |
| BridgeRuns.CancelEndsTheTurnIff | terminal_mcp/bridge.py:613-627 | over runs: a cancel that read a turn still open leaves it over exactly when nobody's swap on that turn won between its read and its own swap, or the turn was over by then, whoever ended it |
| BridgeCancel.CancelReturnsWhileTurnRuns | terminal_mcp/bridge.py:613-627 | a run in which a cancel loses its swap and returns while the turn, revoked, goes on |
| BridgeCancel.CancelledTurnMayStillBeSubmitted | terminal_mcp/bridge.py:508-519 | a run in which the cancel wins and returns, the row is CANCELLED and revoked, and the prompt is submitted afterwards while the row stays so |
| BridgeSubmission.SubmissionMayFollowIff | terminal_mcp/bridge.py:495-577 | from any reachable state, whatever the state of the row and CANCELLED included, some continuation submits the prompt of a turn exactly when the caller owning it has not yet come past its submission |
| BridgeSubmission.SpentForGood | terminal_mcp/bridge.py:397-478 | once no owner of a turn may still submit, no later step submits its key or brings such an owner back |
| UsageParse.LineLenIsFirst | terminal_mcp/ai_usage_local.py:627-630 | the line taken ends at the first newline |
| UsageParse.LinesInTwo | terminal_mcp/ai_usage_local.py:627-630 | the lines of x then y are the lines of both, when x ends at a line start |
| UsageParse.LinesFill | terminal_mcp/ai_usage_local.py:627-630 | the complete lines end at a line start and leave no newline behind |
| UsageParse.ParseInTwo | terminal_mcp/ai_usage_local.py:610-662 | parsing two pieces in turn, carrying the prompt over, is parsing them together: same entries, prompts, costs, counts and last prompt |
| UsageParse.ParseStopsAtLineStart | terminal_mcp/ai_usage_local.py:628-630 | the end offset sits just after a newline and no complete line is left |
| UsageParse.ParseOfCompletePart | terminal_mcp/ai_usage_local.py:628-630 | a partial last line contributes nothing |
| UsageParse.ParseOfGrownFile | terminal_mcp/ai_usage_local.py:610-662 | what was parsed is a prefix of what the grown file parses to |
| UsageParse.LostCarryOnlyLoses | terminal_mcp/ai_usage_local.py:659-661 | without the carried prompt the same events come out, each with its right prompt or none |
| UsageParse.ParseCounts | terminal_mcp/ai_usage_local.py:625-661 | the lines read are those that are not blank, the unparsed ones those that could not be parsed, and there is one entry, prompt or cost for each line that is one |
| UsageParse.EntryOfTurn | terminal_mcp/ai_usage_local.py:613-661 | a turn is attributed to the last prompt typed before it in what was read, or else to the carried one |
| UsageParse.AddLine | terminal_mcp/ai_usage_local.py:631-658 | one line, by kind: what it adds to entries, prompts, costs, counters and the current prompt |
| UsageParse.ReadLines | terminal_mcp/ai_usage_local.py:627-658 | the loop reads exactly the complete lines, in order |
| UsageParse.ParseTranscript | terminal_mcp/ai_usage_local.py:610-662 | outcome and end offset for any content, offset, carry and read error; on an error everything read so far is kept and the last prompt is not reported |
| UsageIndex.AiUsageIndex.StoreEvents | terminal_mcp/ai_usage_index.py:255-275 | insert-or-ignore: new ids are added as they came, known ids are untouched, and the count is the number really inserted |
| UsageIndex.AiUsageIndex.UpdateMissing | terminal_mcp/ai_usage_index.py:422-434 | fills missing prompts by event id, in order, and nothing else |
| UsageIndex.AiUsageIndex.StorePromptsAndCosts | terminal_mcp/ai_usage_index.py:277-307 | prompts are insert-or-ignore; a later cost of a session replaces the earlier one |
| UsageIndex.AiUsageIndex.RefreshOne | terminal_mcp/ai_usage_index.py:347-386 | one file: resume or rescan, carry, parse, store, new cursor; the count is the growth of the table |
| UsageIndex.AiUsageIndex.RunBackfill | terminal_mcp/ai_usage_index.py:393-437 | nothing at all unless some event lacks a prompt; else every file is re-read and its carry overwritten |
| UsageIndex.AiUsageIndex.Refresh | terminal_mcp/ai_usage_index.py:328-391 | all files, then the backfill; `eventsNew` is the growth of the event table |
| UsageIndex.InsertKeepsAndAdds | terminal_mcp/ai_usage_index.py:264-275 | stored rows stay as they are, every given id is stored, every new row comes from a given entry |
| UsageIndex.FillOnlyFills | terminal_mcp/ai_usage_index.py:422-434 | a fill changes only missing prompts, to one read for that event, and fills every one it has a prompt for |
| UsageIndex.BackfillKeepsKeys | terminal_mcp/ai_usage_index.py:393-437 | a backfill adds and removes no event and changes no attribution that is there |
| UsageClean.IndexNeverMisattributes | terminal_mcp/ai_usage_index.py:328-437 | over every run of appends cut anywhere, refreshes, failing reads and backfills that leave the right carry or fail: cursors sit at line starts, every event before a cursor is stored with its own data and its right prompt or none, nothing else is stored |
| UsageClean.CleanRefreshIsExact | terminal_mcp/ai_usage_index.py:328-391 | after any such run, one refresh without errors makes the stored rows equal to one pass over all complete lines of all files, attributions included |
| UsageRuns.AppendKeepsInv | terminal_mcp/ai_usage_local.py:402-412 | an append, even inside a line, disturbs nothing stored |
| UsageRuns.ReadFileKeepsInv | terminal_mcp/ai_usage_index.py:347-386 | a refresh iteration keeps the invariant, moves only its own cursor, forwards, and leaves no complete line unread if it meets no error |
| UsageRuns.FillFileKeepsInv | terminal_mcp/ai_usage_index.py:417-435 | so does a backfill iteration, which moves no offset |
| UsageClean.OnePassHolds | terminal_mcp/ai_usage_index.py:264-275 | the single pass stores exactly the entries of the files |
| UsageClean.HoldsIsUnique | terminal_mcp/ai_usage_index.py:264-275 | only one table holds exactly the entries of all files |
| UsageFaults.IndexOnlyGrows | terminal_mcp/ai_usage_index.py:255-437 | over any run, with truncated, replaced and unreadable files: stored events never disappear or change, a non-null prompt never changes, and the reported new events add up to the growth of the table |
| UsageFaults.StepOnlyGrows | terminal_mcp/ai_usage_index.py:328-437 | the same for one step; and every event a refresh reads is stored |
| UsageFaults.BackfillCarryIsRightIff | terminal_mcp/ai_usage_index.py:417-435 | a backfill leaves the right carry exactly when the complete lines behind the cursor hold no other prompt |
| UsageFaults.FailedReadCarryIsRightIff | terminal_mcp/ai_usage_local.py:659-661 | a failed read leaves the right carry exactly when no prompt was typed before the old offset and none is among the complete lines delivered before the error |
| UsageFaults.FailedBackfillCarryIsRightIff | terminal_mcp/ai_usage_index.py:417-435 | a failed backfill leaves the right carry exactly when no prompt was typed before the cursor |
| UsageFaults.WrongCarryHarmsIff | terminal_mcp/ai_usage_index.py:359-386 | a refresh stores the new events of a file with exactly the attributions of a full re-read if and only if the carry is the prompt in force at the offset, or no turn comes before the first prompt among the lines read |
| UsageFaults.AppendBeforeBackfillMisattributes | terminal_mcp/ai_usage_index.py:417-435 | a concrete append between refresh and backfill stores an event under a prompt typed after it, and no later run corrects it |
| UsageTotals.CleanRefreshHasEveryPrompt | terminal_mcp/ai_usage_index.py:277-288 | after any such run, one refresh without errors makes the stored prompts exactly those typed in the files, each with what some file says of it |
| UsageTotals.CleanRefreshHasLastTotal | terminal_mcp/ai_usage_index.py:290-307 | if no backfill read failed before, it makes the running total of a session that one file reports the last total in that file |
| UsageTotals.FailedBackfillKeepsTotalIff | terminal_mcp/ai_usage_index.py:417-420 | a backfill keeps a stored total exactly when the part it read reports the same total for that session, or none |
| UsageTotals.FailedBackfillTakesTotalBack | terminal_mcp/ai_usage_index.py:417-420 | a backfill that fails after the first of two totals sets the stored one back to the first |
| UsageTotals.StoreCostsIs | terminal_mcp/ai_usage_index.py:290-307 | the last total of a session in a list is the one stored |
| UsageRewrites.RescanReadsEverything | terminal_mcp/ai_usage_local.py:402-412 | a path not seen before, with another inode or shorter than the offset is read from its first byte: every event of its complete lines is stored, the cursor ends behind the last of them with the new inode and the last prompt |
| UsageRewrites.CleanRefreshStoresEverything | terminal_mcp/ai_usage_index.py:347-386 | over every run of replacements, truncations, appends and failing reads in which each change can be told from the cursor, one clean refresh stores every event of the files as they stand |
| UsageRewrites.MoveKeepsHonest | terminal_mcp/ai_usage_index.py:347-386 | each step keeps: where a file would be resumed, all before the cursor is stored |
| UsageRewrites.ResumedReadStoresAllIff | terminal_mcp/ai_usage_local.py:402-412 | a resumed read stores every event of the file as it stands exactly when each event before the offset is stored already or occurs again behind it |
| UsageRewrites.RewriteInPlaceLosesEvents | terminal_mcp/ai_usage_local.py:402-412 | a file rewritten under its old inode and not shorter than the offset: its first event is never stored |
| PyText.CollapseIsEmptyIffBlank | terminal_mcp/composer.py:308-312 | the collapsed text is empty exactly when every character is blank |
| PyText.CollapseTwice | terminal_mcp/context_compiler.py:35-39 | collapsing is idempotent |
| PyText.SplitOfJoin | terminal_mcp/composer.py:255 | splitting what was joined gives the parts back |
| Ansi.ApplyLoop | terminal_mcp/composer.py:252-268 | the parameter loop computes the dim flag of a parameter list, extended colours skipping their operands |
| Ansi.FaintMap | terminal_mcp/composer.py:222-276 | terminates on every string; one flag per character; text, flags and the SGR mark are those of the scanner specification |
| Ansi.PlainHasNoEscape | terminal_mcp/composer.py:268-273 | no escape character survives, whatever the row |
| Ansi.WholeSequenceIsToken | terminal_mcp/composer.py:199-201 | a complete CSI or OSC sequence is matched as a whole, whatever follows |
| Ansi.ScanOfRender | terminal_mcp/composer.py:222-276 | on text with complete sequences the scanner returns the text |
| Ansi.RemoveIsFilter | terminal_mcp/composer.py:216-219 | one pass of strip_ansi removes exactly the sequences of its kind |
| Ansi.ScannerAgreesWithStrip | terminal_mcp/composer.py:216-276 | on every string of ESC-free text and complete sequences, the one-pass scanner and the three-pass strip_ansi return the same text |
| Ansi.ScannerAndStripDifferOnBrokenSequences | terminal_mcp/composer.py:216-276 | three broken inputs on which the two differ: an escape at the end, an escape before a line feed, and a sequence completed only once the one inside it is cut out |
| SgrRoundTrip.SgrReadsBack | terminal_mcp/composer.py:244-266 | a printed SGR sequence with any attributes is one SGR token with their meaning |
| SgrRoundTrip.ApplyAttr | terminal_mcp/composer.py:252-266 | each attribute, including 38/48/58 colours whose channels or palette index are 2, has its own effect on the dim flag and no other |
| SgrRoundTrip.DocumentReadsBack | terminal_mcp/composer.py:222-276 | any document of characters and styles is read back as what it shows |
| SgrRoundTrip.PrintedTextReadsBack | terminal_mcp/composer.py:222-276 | any ESC-free text with any per-character dim flags, printed plainly or with any colours and other attributes in between and any way of switching dim off at each switch, is read back as exactly that text and those flags |
| Composer.ReadComposerRows | terminal_mcp/composer.py:336-442 | the loops compute the bottom-up classification, for every capture |
| Composer.ScanUpwards | terminal_mcp/composer.py:382-442 | the upward scan stops at the bottom-most marker row and classifies it |
| Composer.FoldRows | terminal_mcp/composer.py:407-416 | folds wrapped rows up to a frame, a marker or a blank row, each after one dim blank |
| Composer.DraftIff | terminal_mcp/composer.py:382-440 | DRAFT exactly when the capture carries attributes, the bottom-most marker row is live and its region shows a visible character that is not dim |
| Composer.EmptyIff | terminal_mcp/composer.py:422-438 | EMPTY exactly when that region shows nothing, or only dim characters in a capture with attributes |
| Composer.TextMatchesState | terminal_mcp/composer.py:279-305 | draft text exists exactly for DRAFT; ghost text only for EMPTY; draft text is collapsed |
| Composer.AnswerIs | terminal_mcp/composer.py:407-440 | the draft or ghost text is the collapsed region of the bottom-most marker, whose row is named whatever the answer |
| Composer.FoldedIs | terminal_mcp/composer.py:407-416 | a boxed draft takes exactly the rows up to the next frame, prompt or blank row, each after one dim blank |
| ComposerRows.PromptRowIff | terminal_mcp/composer.py:315-334 | a prompt row is one on which one of the four markers comes first after blanks and separators; its content starts behind the marker and one blank, if there is one |
| ComposerRows.FrameRowIff | terminal_mcp/composer.py:210-214 | a frame row shows one line of at least eight box-drawing characters, dashes, underscores or equals signs and nothing else |
| ComposerRows.ParsedRowIs | terminal_mcp/composer.py:382-395 | what the classifier sees of any captured row, told from its visible text and dim flags |
| Composer.ClassifyShifts | terminal_mcp/composer.py:382-442 | rows above change only the row number, unless the marker is on the first row and a frame is put right above it |
| Composer.ClassifyShiftsIff | terminal_mcp/composer.py:382-442 | the exact condition, for every marker row, every block of rows above, with and without attributes |
| Composer.ScrollbackOnlyShifts | terminal_mcp/composer.py:336-442 | for whole captures, the capability being given: rows put above change nothing but the row number exactly when the marker is not on the first row, or the row above it is no frame, or nothing lies below it, or the capture has no attributes and the boxed text shows something |
| Composer.FrameAboveFirstRowMatters | terminal_mcp/composer.py:394 | with attributes and something below, a frame put above a first-row marker turns UNKNOWN into an answer |
| Composer.RuleAboveMakesADraft | terminal_mcp/composer.py:382-440 | on captured strings: a rule put above two rows turns "cannot tell" into a draft |
| BacklogDb.BacklogStore.ReplaceItems | terminal_mcp/backlog_db.py:183-202 | rows become exactly the given items and the revision grows by one, or, when ids repeat, nothing changes |
| BacklogDb.BacklogStore.Mutate | terminal_mcp/backlog_service.py:260-298 | succeeds only on the expected revision, from the rows it read, to the next revision; every refusal changes neither rows nor revision |
| BacklogDb.TableOfHolds | terminal_mcp/backlog_db.py:191-197 | each item is found under its id |
| BacklogConcurrency.StepKeepsInv | terminal_mcp/backlog_service.py:157-298 | every step of readers, locked writers and `validate` keeps: rows are the content of the current revision, a read or checked revision is not in the future, every `get` returned the content of its revision or a later one |
| BacklogRuns.WriteRanOnWhatGetReturnedIff | terminal_mcp/backlog_service.py:260-298 | once `get` has returned (r, I) from its two reads, a locked write expecting r makes revision r + 1 exactly when `validate` wrote nothing since the write's revision check, and then it was computed from exactly I |
| BacklogRuns.OnlyRepairsGetIn | terminal_mcp/backlog_service.py:280-294 | between a writer's check and its write only repairs by `validate` change the revision |
| BacklogRuns.EveryRevisionBuildsOnTheLast | terminal_mcp/backlog_service.py:280-294 | without `validate` no update is lost: revision k + 1 was computed from revision k by a writer expecting k or nothing |
| BacklogRuns.HolderSeesOneContent | terminal_mcp/backlog_service.py:280-294 | without `validate`, rows and revision stand still from taking the lock to writing, so a refused mutation changed nothing |
| BacklogRuns.ValidateBreaksTheGuarantee | terminal_mcp/backlog_service.py:247-254 | a run in which `validate` writes between a writer's two reads: the write succeeds, ran on other items, and makes revision r + 2 |
| SortedKeys.SortKeysSorts | terminal_mcp/backlog_db.py:62 | strictly increasing, with exactly the given elements |
| SortedKeys.SortedIsUnique | terminal_mcp/backlog_db.py:62 | a set has one sorted listing |
| SortedKeys.LessIff | terminal_mcp/backlog_db.py:62 | b comes after a exactly when it goes on where a ends or has the greater character where they first differ |
| Reconcile.UnionIs | terminal_mcp/backlog_db.py:56-62 | every element of both lists, none other, in canonical order |
| Reconcile.MergeAbsorbs | terminal_mcp/backlog_db.py:65-83 | a merge absorbs what it merged in and keeps whatever was absorbed before |
| Reconcile.UnchangedIff | terminal_mcp/backlog_db.py:65-83 | merging leaves an item alone exactly when it absorbs the other: lists sorted and containing, evidence likewise |
| Reconcile.SecondRunChangesNothing | terminal_mcp/backlog_db.py:243-300 | a second reconciliation of the same document, even with other scalar values, changes nothing and reports nothing added or updated |
| Reconcile.CanonicalItemIsKept | terminal_mcp/backlog_db.py:259-280 | a stored item keeps every scalar field; each list ends with exactly its own elements and those brought for its id |
| Reconcile.EvidenceSurvivesIff | terminal_mcp/backlog_db.py:71-82 | evidence lists are united; a scalar evidence field survives exactly when the historical one is not a list |
| Reconcile.EvidenceAfterDocument | terminal_mcp/backlog_db.py:259-280 | over a whole document: an evidence field of a stored item is a list afterwards exactly when it was one or an item of its id brings one, holds exactly its own elements and those brought, and as a scalar survives exactly when no item brings a list for it |
| Reconcile.AddedItemHolds | terminal_mcp/backlog_db.py:259-280 | an added item has the scalars of the first incoming item of its id, and all list and evidence elements brought for that id |
| Reconcile.DifferingIs | terminal_mcp/backlog_db.py:65-69 | the conflicting fields reported are exactly the scalar fields that differ |
| Reconcile.AddedIff | terminal_mcp/backlog_db.py:259-280 | ids afterwards are the old and the incoming ones; an id is reported added once, exactly when it was missing |
| Reconcile.ReconcileDocument | terminal_mcp/backlog_db.py:243-300 | a dry run gives the same report as a real one and writes nothing; a real run leaves every incoming item absorbed in the stored rows, and bumps the revision once exactly when the rows come out different |
| Reconcile.UpdatedIff | terminal_mcp/backlog_db.py:261-279 | a stored item is reported updated exactly when its row comes out different |
| Reconcile.ChangedIff | terminal_mcp/backlog_db.py:282-286 | a run counts as changing something exactly when the rows come out different |
| Reconcile.EveryItemIsReportedOnce | terminal_mcp/backlog_db.py:261-279 | every incoming item is reported once, as added, updated or unchanged; one that comes in once is unchanged exactly when it was stored and its row stays as it was |
| Reconcile.ConflictsIff | terminal_mcp/backlog_db.py:272-276 | a stored id is reported in conflict with a set of fields exactly when some item that comes in for it differs from the stored row in just those scalar fields |
| BacklogFile.NormaliseItem | terminal_mcp/backlog_store.py:163-209 | fills, repairs and reports field by field |
| BacklogFile.NormalisedIsNormal | terminal_mcp/backlog_store.py:163-209 | every field is present with its shape, and unknown keys are kept |
| BacklogFile.NormalIff | terminal_mcp/backlog_store.py:163-209 | a normal item is left alone without repairs, whatever new id and time are at hand, and only a normal item is |
| BacklogFile.RightFieldsAreKept | terminal_mcp/backlog_store.py:163-209 | a field that is present in its shape comes out unchanged, however broken the rest of the item is |
| BacklogFile.NormalisingIsIdempotent | terminal_mcp/backlog_store.py:163-209 | a second pass changes nothing and repairs nothing |
| BacklogRepairs.AbsentFieldsBecome | terminal_mcp/backlog_store.py:163-209 | what each absent or null field becomes |
| BacklogRepairs.PresentFieldsBecome | terminal_mcp/backlog_store.py:163-209 | a field out of shape becomes what an absent one would, one in shape is kept, and evidence only gains the lists it lacks |
| BacklogRepairs.ReportedIff | terminal_mcp/backlog_store.py:163-209 | a repair is reported exactly when the fields as read call for it: absent fields are filled silently, except that a missing id or title is named |
| BacklogRoundTrip.LoadFile | terminal_mcp/backlog_store.py:233-273 | the loop: entries that are not objects are dropped, repeated ids reassigned, an unhashable id fails, newer versions are refused |
| BacklogRoundTrip.LoadAfterSerialise | terminal_mcp/backlog_store.py:219-273 | for normal items with different ids, loading what was serialised gives the same document and no repair |
| BacklogRoundTrip.LoadRepairsEverything | terminal_mcp/backlog_store.py:250-265 | whatever the file holds, a load that succeeds gives normal items with pairwise different ids, the handed-out ids being new |
| BacklogRoundTrip.LoadKeepsEntries | terminal_mcp/backlog_store.py:233-273 | refused exactly for a newer version or one that is no integer; fails exactly for an id that cannot be looked up; else one item for each object entry, in order, with its own fields, and its own id too unless an item before it has it |
| BacklogRoundTrip.ExportThenLoad | terminal_mcp/backlog_service.py:564-586 | an exported file carries the stored revision and the stored items |
| BacklogRoundTrip.ImportItems | terminal_mcp/backlog_db.py:218-241 | normalises every incoming item again, then merges or replaces, with its counts |
| BacklogRoundTrip.ImportDeletesNothing | terminal_mcp/backlog_db.py:228-239 | every stored id stays, and an item whose id does not come in is untouched |
| BacklogRoundTrip.MergeHolds | terminal_mcp/backlog_db.py:231-238 | every incoming item is stored under its id |
| BacklogRoundTrip.ReimportingAnExportChangesNothing | terminal_mcp/backlog_service.py:588-613 | export and import again, with the second normalising pass: no repair, nothing added, every row as it was |
| BacklogRoundTrip.WrittenOrderIsCanonical | terminal_mcp/backlog_store.py:212-216 | the written order of keys depends on the keys alone |
| BacklogRoundTrip.WrittenKeysAreTheKeys | terminal_mcp/backlog_store.py:212-216 | no key is lost or made up when an item is written |
| AuthThrottle.Throttle.Check | terminal_mcp/auth_throttle.py:163-184 | refused exactly when locked out or unknown with a full table; a known source is marked as seen |
| AuthThrottle.Throttle.RecordFailure | terminal_mcp/auth_throttle.py:186-206 | counts the failure, locks from the threshold on for the doubled, capped wait, or refuses an unknown source when the table is full |
| ThrottleBounds.OnlyFailuresSinceSuccessLock | terminal_mcp/auth_throttle.py:208-216 | a success gives the whole allowance back: in every run only a source with at least threshold failures since its last success is told it is locked out |
| ThrottleBounds.CheckIsAllowedIff | terminal_mcp/auth_throttle.py:163-184 | over runs without success or reclaim: a source is allowed exactly when it failed less than threshold times or the wait after its last failure is over, and else is told exactly what is missing |
| ThrottleBounds.UnknownIsDeniedIff | terminal_mcp/auth_throttle.py:163-206 | a source without an entry is turned away exactly when the table is full and stays full without its stale entries; its failure is then not recorded |
| ThrottleBounds.FailureAnswers | terminal_mcp/auth_throttle.py:186-206 | a recorded failure is counted, and answered with nothing below the threshold and with the doubled, capped wait from there on |
| AuthThrottle.Throttle.Reclaim | terminal_mcp/auth_throttle.py:230-241 | below the bound nothing goes; at the bound exactly the stale entries go |
| AuthThrottle.TableIsBounded | terminal_mcp/auth_throttle.py:163-241 | in every run, whatever the clock readings, the table stays within its bound |
| AuthThrottle.DroppedIff | terminal_mcp/auth_throttle.py:230-241 | any timed call reclaims an entry exactly when the table was full and the entry is unlocked and idle beyond the TTL; another source's call then drops it, its own failure starts it afresh; a locked entry is never dropped and never loses failures |
| AuthThrottle.ReclaimCostsIdleness | terminal_mcp/auth_throttle.py:230-241 | with a monotone clock, a source whose entry is reclaimed, be it by its own call, made no call for longer than the TTL |
| ThrottleBounds.EachFailureWaitsIff | terminal_mcp/auth_throttle.py:163-206 | without success or reclaim, whatever the order and clock readings of the calls: from number threshold + 1 on each failure waits for its predecessor's lockout exactly when each was recorded at or after the lockout of the entry it met, the guard check tests |
| ThrottleBounds.CheckingFirstWaits | terminal_mcp/auth_throttle.py:163-184 | a source that uses one allowed check per recorded failure keeps to that guard |
| ThrottleBounds.AttemptBound | terminal_mcp/auth_throttle.py:186-206 | one attempt per allowed check, no success, no reclaim: failure number threshold + j comes at least the sum of the first j waits after failure number threshold, whatever other sources do |
| ThrottleBounds.DefaultSchedule | terminal_mcp/auth_throttle.py:186-206 | with the shipped settings: 1275 seconds for eight more failures, 900 for each one after |
| ThrottleBounds.ParallelGuessesSkipTheWait | terminal_mcp/auth_throttle.py:163-206 | for any settings that lock at all, a run without success or reclaim in which every failure has an allowed check of its own and the waits do not hold |
| SelectGraph.SelectTree | terminal_mcp/archify_source.py:355-402 | empty exactly without a permitted module that has an edge; else a duplicate-free tree of the pool rooted at the first such module, of at most eight nodes, each edge itself joining an earlier node to the new one, the right way round in a directed pool; nodes come by their distance from the root; no edge to a neighbour left out beats one that was taken from the same node; with fewer than eight nodes, exactly what the root reaches |
| SelectGraph.FindStart | terminal_mcp/archify_source.py:368-377 | the first permitted module with an edge, in rank order |
| SelectGraph.Expand | terminal_mcp/archify_source.py:386-401 | one node's neighbours in order, stopping when the diagram is full |
| SelectGraph.NeighborsAreSteps | terminal_mcp/archify_source.py:378-392 | the sorted neighbour edges of a node are exactly the pool's edges that may be walked out of it, each to its other end |
| SelectGraph.TreeIsReachable | terminal_mcp/archify_source.py:386-401 | every selected node is reachable from the start |
| SelectGraph.NextLevel | terminal_mcp/archify_source.py:386-401 | once the nodes within d steps have all their neighbours, the nodes within d + 1 steps are there |
| SelectGraph.TakenAreBest | terminal_mcp/archify_source.py:388-401 | the edges taken from a node score at least as high as those to its neighbours left out |
| SelectGraph.SortKeepsAll | terminal_mcp/archify_source.py:388-391 | sorting permutes |
| SelectGraph.SortOrders | terminal_mcp/archify_source.py:388-391 | neighbours come by falling score, then source, then target |
| Reach.ClosedHoldsReachable | terminal_mcp/archify_source.py:386-401 | a set closed under steps holds everything reachable from it |
| Lifecycle.WalkFrom | terminal_mcp/archify_source.py:474-483 | terminates on every transition graph, duplicate-free, with exactly the states the entries lead to, in the order of their distance from the entries |
| Lifecycle.Build | terminal_mcp/archify_source.py:464-494 | both refusals exactly when they apply; else the ordering is duplicate-free and holds first what the entries lead to, breadth first, and then the other connected declared states in declared order; every transition is emitted |
| Lifecycle.EndIsDrawnIff | terminal_mcp/archify_source.py:484-494 | an emitted transition's end is in the ordering exactly when it is declared or some entry leads to it |
| Lifecycle.UndeclaredSourceIsNotDrawn | terminal_mcp/archify_source.py:484-494 | an undeclared source is emitted as an end that is not in the ordering |
| ContextCompiler.CompileContext | terminal_mcp/context_compiler.py:41-93 | the whole loop nest: budgets, lane names, gathering, overflow, packing, statistics |
| ContextCompiler.GatherLane | terminal_mcp/context_compiler.py:60-69 | one lane: blanks skipped, known keys counted as duplicates, the rest are candidates |
| ContextCompiler.PackLane | terminal_mcp/context_compiler.py:77-82 | greedy packing, whole items only |
| ContextCompiler.PackFacts | terminal_mcp/context_compiler.py:77-82 | a subsequence within the budget; no dropped item would still fit |
| ContextCompiler.LaneAccounts | terminal_mcp/context_compiler.py:54-88 | per lane: non-blank inputs = candidates + duplicates, candidates = used + dropped, used within budget, nothing dropped that fits, nothing dropped from a mandatory lane, candidates are one per key not met before |
| ContextCompiler.EveryLaneOnce | terminal_mcp/context_compiler.py:51 | the packet has one lane per name of the order and of the input, in that order |
| ContextCompiler.NoKeyTwice | terminal_mcp/context_compiler.py:64-69 | no key occurs twice in a packet: no two of its items agree up to trailing stops |
| ContextCompiler.KeyIs | terminal_mcp/context_compiler.py:38-39 | the key of an item is its folded text without its trailing stops |
| ContextCompiler.SameKeyIff | terminal_mcp/context_compiler.py:38-39 | two items share a key exactly when their folded texts agree up to trailing stops |
| ContextCompiler.LaneItems | terminal_mcp/context_compiler.py:60-69 | the candidates of a lane are its own items, collapsed, in their order, the first of each key no earlier lane has; the characters counted are those of all its items |
| ContextCompiler.FirstLaneDecides | terminal_mcp/context_compiler.py:60-82 | a key is in the packet exactly when the first lane that has it is mandatory, or the one item standing for the key still fits behind what was packed of the items before it |
| ContextCompiler.PackedIff | terminal_mcp/context_compiler.py:77-82 | a given item is packed exactly when it fits behind what was packed of the items before it |
| ContextCompiler.MandatoryFirstIsKept | terminal_mcp/context_compiler.py:70-76 | with mandatory lanes first, the call raises or for every non-blank mandatory item the packet has one whose folded text is the same up to trailing stops |
| ContextCompiler.OptionalLaneHidesMandatory | terminal_mcp/context_compiler.py:67 | an optional lane that drops an item keeps its copy in a later mandatory lane out, without an error |
| ContextCompiler.NoNegative | terminal_mcp/context_compiler.py:47-50 | the call is refused for a budget exactly when one is negative |
| ContextCompiler.FailsIff | terminal_mcp/context_compiler.py:47-76 | the call fails exactly for a negative budget, or when the new items of some mandatory lane exceed its budget, told from the request alone |
| ContextCompiler.BudgetIs | terminal_mcp/context_compiler.py:47-50 | what the caller said last of a lane is its budget |
| AuditClaims.IdempotentSends.Claim | terminal_mcp/audit.py:347-380 | wins by insert, or by taking over a claim without result older than the cutoff; otherwise changes nothing |
| AuditClaims.StoredResultIsReplayed | terminal_mcp/audit.py:382-387 | a stored result is what every later request under its key gets back, and none of them wins the claim, whatever other requests and younger prunes come between |
| AuditClaims.IdempotentSends.Prune | terminal_mcp/audit.py:333-345 | the returned number is what the table shrank by; nothing older than the cutoff remains, nothing younger goes, and no row changes |
| AuditClaims.WinsAreApart | terminal_mcp/audit.py:364-380 | a winner's second clock reading comes more than the stale time after the previous winner's first |
| AuditClaims.NoWinAfterAResult | terminal_mcp/audit.py:373-379 | once a result is stored nobody wins again |
| AuditClaims.ActsAtMostOnce | terminal_mcp/audit.py:347-387 | if every owner stores its result within the stale time of its first reading or never acts, at most one owner acts |
| AuditClaims.StalledClaimIsTakenOver | terminal_mcp/audit.py:364-379 | a run in which a claimant stalled between its reading and its insert is overtaken in the moment of that insert |
| AuditClaims.WinsCommitApartIff | terminal_mcp/audit.py:364-380 | from a win on, no result being stored, every later win in every continuation commits more than the stale time after it exactly when that winner committed in the moment of its first reading |
| AuditClaims.PruneReopens | terminal_mcp/audit.py:333-345 | after pruning, a finished key can be won again exactly when its row was old enough to go |
| CostFor.ComputeCost | terminal_mcp/ai_usage_index.py:738-750 | the loop over the groups |
| CostFor.GroupedIsPerEvent | terminal_mcp/ai_usage_index.py:726-750 | the grouped loop equals the sum over the single events |
| CostFor.PricedIs | terminal_mcp/ai_usage_index.py:738-750 | the priced sessions are those with a selected event, a cost and positive tokens over all events |
| CostFor.SingleFilters | terminal_mcp/ai_usage_index.py:668-693 | what each filter of the dashboard selects on its own, both ends of a range included |
| CostFor.FiltersCombine | terminal_mcp/ai_usage_index.py:668-693 | filters given together all have to hold |
| CostFor.FullRangeIsReported | terminal_mcp/ai_usage_index.py:716-722 | the full range sums back to exactly the reported cost of the sessions with a cost and positive tokens |
| CostFor.PartitionConserves | terminal_mcp/ai_usage_index.py:668-761 | over any split of the events into disjoint selections, by time, model, project or anything else of a row, the costs add up to what was reported and the unpriced tokens to those of the full range |
| CostFor.EveryHitIsPaidOnce | terminal_mcp/ai_usage_index.py:701-761 | for any selections, overlapping or not, the costs add up to every event's share as often as it is selected |
| CostFor.TouchingRangesPayTwice | terminal_mcp/ai_usage_index.py:683-686 | two time ranges that meet at t pay the events of t twice, both ends of a range belonging to it |

## Left out

- SQLite, WAL, file locks, fsync, permissions and migrations: each transaction is one atomic step on map values; iteration and listing order of rows is not modelled.
- JSON text: a file is the value it parses to; an element of a reconciled list or a scalar field is named by its canonical text, so values Python holds equal under different texts (1 and 1.0) count as different there.
- What single transcript lines mean, redaction, previews and prompt hashes; the Codex log reader, which is the same loop without prompts and costs; quota windows and the dashboard aggregates other than apportioned cost.
- Several processes writing one usage index at once: the index is modelled with a single writer.
- The browser gateway and transports behind the bridge, delivery into a terminal, receipts, the tool allowlist and input validation before the idempotency lookup.
- The older plain-text composer reader, chrome patterns, and comparing two drafts.
- The bodies of the backlog mutators (add, update, claim, block, complete, dispatch) and the filters of `get`: a mutator is any function of the rows; `get` is its two reads.
- Floating point: times and costs are real numbers; doubling past the exponent range of a float, and the final rounding of a cost, are not modelled.
- Address normalisation in the throttle: sources are opaque keys; the thread lock makes each call one step.
- Source inspection by parsing, identifiers and layout of diagrams; only the edge, state and transition sets enter.
- The joined text and the fingerprint of a context packet.
- Other claims of the audit store (input records, labels, search); the claims of different keys are independent, so the protocol lemmas follow one key.
- BacklogDb.BacklogStore.Mutate: states the read-modify-write with the lock held throughout and no unlocked writer about; the interleavings are in BacklogConcurrency and BacklogRuns.
- BridgeStore.BridgeService.RunPipeline: leaves out unexpected exceptions of the transport and the database, which BridgeProtocol covers.
- UsageIndex.AiUsageIndex.Refresh: runs the transcripts only; the Codex logs in the same loop and the quota windows are left out.
- BacklogRoundTrip.ImportItems: states the rows and counts; writing them and the revision bump are BacklogDb.BacklogStore.ReplaceItems.
- BacklogFile.NormaliseItem: does not capture that the evidence object of the input is completed in place.
