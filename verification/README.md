# Verified core of Autocontribute

Autocontribute prepares a small fix for a public issue: an agent edits a workspace through
V4A diffs, its patch is split into tests and sources and checked, a money ledger and a bounded
retry loop guard every model call, and publication runs under a fenced lease. This project
models the parts of it that compute something intricate and proves what they promise, for every
input, every run or every interleaving.

`dafny verify dfyconfig.toml` checks the whole project.

## How the model is laid out

| file | models |
|---|---|
| `ApplyDiff`, `ApplyDiffLoops`, `Chunks`, `ApplyDiffTheorems`, `ApplyDiffRoundTrip`, `ApplyText` | the V4A patch engine: parser, fuzzy search, applier, newline styles, and its theorems |
| `Patches`, `PatchSplit`, `PatchLines`, `HunkBodies`, `PatchFiles`, `PatchSides`, `TestPaths`, `HeaderPath` | Git patches: hunk headers and bodies, splitting one file's hunks, where changed lines stand, a patch's files and their split, test paths, quoted paths |
| `RustCode`, `RustLexing`, `RustTests`, `TestHunks` | the Rust blanker, a reading of Rust's strings and comments that it agrees with, the test items of a Rust file, and what the hunks on the test side change |
| `Pricing`, `Budget`, `ModelRequest`, `AgentLoop`, `FailureStreaks`, `TurnCounts` | model prices, the run's budget, the request loop, the agent's turns, submits and critic rounds, and when repeated failures or turns without a valid call end it |
| `SuiteRuns`, `FixChecks` | what test runs show, and the verdicts of a fix's check |
| `Leases`, `LeaseGuards`, `LeaseRenewal`, `Throttle`, `Requests` | fenced leases and their heartbeat guards, the search limiter, the GitHub request loop |
| `Markdown`, `VisibleLines`, `BodyText`, `Pushes`, `Ordering`, `Lifecycle`, `LifecycleSignals` | the visible part of a pull request body and its closer, who pushed, and the lifecycle signals with what each is reported for |
| `PyText`, `Seqs`, `Results` | Python's `str` operations, facts about sequences, `None` and raised errors |

Code of the source that is made of loops and updated fields is written as methods and classes
(`ParserState`, `RunBudget`, `Solver`, `GitHubClient`, `FixChecks`, the blanker's array), each
proved equal to a function of its inputs or of the old state; the theorems are about those
functions. Threads are modelled as atomic steps on one state, because they interleave.

What comes from outside is a parameter that may be anything: the provider's answers, the clock,
test runs, GitHub's replies, what the tools do to the workspace, `str.isalnum`, `str.casefold`,
UTF-8 decoding, hashes, and the natural-language patterns. Saving to the store succeeds. Money is
exact; the built-in price table meets what the money theorems ask of prices
(`Pricing.TableIsPriced`).

## Where the code and its words differ

- `_changes_within` (src/autocontribute/patches.py:184-200) says that a removed line is placed at
  the new-side line that now follows it. It is, exactly when its hunk leaves a line; in a hunk that
  leaves none the number is one less (`PatchLines.RemovedLinesArePlaced`), and in a patch that
  empties its file it is 0, which no line has (`PatchLines.EmptiedFileHasNoPlace`).
- `_unquote` (src/autocontribute/patches.py:332-359) raises Python's `ValueError`, not a
  `RepositoryError`, exactly when well-formed pieces are followed by an octal escape above 377,
  which Git never prints (`HeaderPath.TooLargeExactly`); `diff --git "\400"` is such a header
  (`HeaderPath.ByteAbove377Fails`). The model has it as an error of its own.
- `RegressionEvidence` (src/autocontribute/fix_checks.py:137-145) says `not_run` is never a pass,
  yet a check passes with it, since `_result` only asks that the status is not `failed`
  (src/autocontribute/fix_checks.py:451-457). `FixChecks.PassesWithoutRegressionExactly` says when,
  and `FixChecks.UnfinishedBaselinePasses` gives a family of such checks.
- `_pushed_by_others`, `_closed` and the lease guard keep their words; the guard does so exactly
  when no two guards share an owner name (`LeaseGuards.ExclusiveExactly`), and it picks a name of
  its own when none is given.
- `apply_diff` restores a file's newline style, but a file that mixes styles comes back with CRLF
  throughout; `ApplyText.EmptyDiffKeepsUniformText` says exactly which files an empty diff keeps,
  and `ApplyText.CreatableExactly` which texts a create-file diff can make.

## Model

| member | source | states |
|---|---|---|
| ApplyDiffLoops.ParserState.ReadAnchors | src/autocontribute/apply_diff.py:199-229 | the parser object reads stacked `@@` headers and moves its index, as `ReadAnchorsFrom` says |
| ApplyDiffTheorems.HeadersAreMaximal | src/autocontribute/apply_diff.py:199-229 | the headers of a hunk are all the header lines that stand together; each counts, and those that are not blank narrow the search, in their order |
| ApplyDiffLoops.ParserState.AdvanceToAnchor | src/autocontribute/apply_diff.py:232-272 | the loops of one header's search move the cursor and the fuzz as `FindAnchor` says, or report the header that must match |
| ApplyDiffTheorems.AnchorLands | src/autocontribute/apply_diff.py:232-272 | a header's search ends where it should and nowhere else: at the cursor when the header stands above it and may, else past the least exact line, else past the least line equal up to white space for fuzz 1; nothing exactly when no line is left |
| ApplyDiffLoops.ReadSectionLoop | src/autocontribute/apply_diff.py:275-350 | the section loop builds the context, the chunks and the end of one hunk |
| ApplyDiffLoops.FindContextMethod | src/autocontribute/apply_diff.py:359-378 | the end-of-file search and its fallback, with the extra fuzz |
| ApplyDiffTheorems.EofContextLands | src/autocontribute/apply_diff.py:359-378 | with an end-of-file marker a context is found exactly where it should be: the empty one at the end of the file less its final empty line; any other at the end in its strictest tier when it stands there, else at the best match from the cursor, clamped to the end, with 10000 more fuzz |
| ApplyDiffLoops.ParseUpdateDiff | src/autocontribute/apply_diff.py:151-196 | the parser's loop over hunks ends on every diff, with chunks and fuzz or the error of the first bad hunk |
| ApplyDiffLoops.ApplyChunks | src/autocontribute/apply_diff.py:409-433 | the applier's loop makes the image of the file under the chunks, or stops with the past-end or overlap error |
| ApplyDiffTheorems.ContextSearchIsBest | src/autocontribute/apply_diff.py:381-395 | a result is the search's exactly when it is the least index of the strictest tier that matches at or after the cursor |
| ApplyDiffTheorems.TiersCut | src/autocontribute/apply_diff.py:381-395 | the tiers compare lines as they are, without their final white space, and without the white space at both ends |
| ApplyDiffTheorems.RoundLands | src/autocontribute/apply_diff.py:157-194 | every hunk of a parsed diff lands, from where its headers lead in turn, at the best match of its context at or after the cursor, or, before an end-of-file marker, where the end-of-file search has it |
| ApplyDiffTheorems.SectionChunks | src/autocontribute/apply_diff.py:275-350 | a section's chunks are disjoint, ordered, in bounds of its context, and delete exactly the context's lines |
| ApplyDiffTheorems.DeletedLinesAreTheFiles | src/autocontribute/apply_diff.py:165-194 | every deleted line is the file's line at its place up to surrounding blanks, and exactly it when the total fuzz is 0 |
| ApplyDiffTheorems.WithoutMarkerApplies | src/autocontribute/apply_diff.py:157-196 | without end-of-file marker the chunks are in bounds, sorted and disjoint, so the applier cannot fail |
| ApplyDiffTheorems.OnlyOverlapStopsTheApplier | src/autocontribute/apply_diff.py:414-433 | with the marker, only the overlap error can stop the applier |
| ApplyDiffTheorems.UpdateConserves | src/autocontribute/apply_diff.py:409-433 | the output is the undeleted lines of the file and the inserted lines of the diff, each once and in order; lengths add up |
| ApplyDiffRoundTrip.PrintedEditApplies | src/autocontribute/apply_diff.py:151-196 | printing any multi-hunk edit, each hunk under any stacked headers and with or without an end-of-file marker, and applying it makes exactly that edit whenever each old side first stands, from where its headers lead, at its place, or stands at the end of the file before a marker; the fuzz is that of the headers |
| ApplyDiffRoundTrip.FullContextEditApplies | src/autocontribute/apply_diff.py:79-92 | every edit of every file can be printed as one full-context hunk that makes it, without condition |
| ApplyText.PrintedTextApplies | src/autocontribute/apply_diff.py:79-116 | the same round trip on whole texts, for either newline style of the file and of the diff |
| ApplyText.EmptyDiffKeepsUniformText | src/autocontribute/apply_diff.py:79-116 | an empty diff gives back the text exactly when its newlines are of one style |
| ApplyText.ParseCreateDiff | src/autocontribute/apply_diff.py:135-148 | the create-file loop collects the added lines or rejects the first other line |
| ApplyText.PrintedFileIsCreated | src/autocontribute/apply_diff.py:135-148 | every text whose newlines are of one style and whose lines do not end in a carriage return is made by its create-file diff |
| ApplyText.CreatableExactly | src/autocontribute/apply_diff.py:135-148 | a create-file diff can make a text exactly when its newlines are of one style and no line ends in a carriage return of its own |
| Patches.HeaderRoundTrip | src/autocontribute/patches.py:291-309 | reading a printed hunk header gives back its four numbers, whatever follows |
| HunkBodies.PrintedHunkIsRead | src/autocontribute/patches.py:61-65 | a printed hunk is read as it is: its numbers, the texts of both sides with or without a final newline, and how many lines it changes |
| PatchSplit.KeepHunks | src/autocontribute/patches.py:162-181 | the loop that keeps hunks shifts each kept header by what the dropped ones before it added, or reports a malformed one |
| PatchSplit.KeptIsWellFormed | src/autocontribute/patches.py:169-181 | dropping hunks of a well-formed patch leaves a well-formed patch against the same base |
| PatchSplit.KeepTextsReads | src/autocontribute/patches.py:162-181 | the rewritten texts read as the kept hunks with only their new-side starts moved |
| PatchSplit.DroppedRegionsStay | src/autocontribute/patches.py:133-159 | applying the kept chunks gives the post-image in kept regions and the base in dropped ones |
| PatchSplit.HunksLand | src/autocontribute/patches.py:169-181 | in a well-formed patch every hunk's new side stands at the line its new-side start names |
| PatchSplit.SplitPartitions | src/autocontribute/patches.py:162-181 | every hunk goes to exactly one of the two patches with only its new-side start changed, and so does every changed line |
| PatchSplit.SplitSide | src/autocontribute/patches.py:133-181 | each side of a split is well formed against the base, edits only its own regions, and its hunks land where their rewritten headers say; files without a final newline included |
| PatchLines.ChangesWithin | src/autocontribute/patches.py:184-200 | true exactly when some changed line is not blank and all such lines are at numbers in the set |
| PatchLines.AddedLinesArePlaced | src/autocontribute/patches.py:184-200 | the number looked up for an added line is its line number in the file after the patch |
| PatchLines.RemovedLinesArePlaced | src/autocontribute/patches.py:184-200 | in the file after the patch the lines below a removed line start at its number when the hunk leaves a line, else at the next; they are the next line of the new side or, after it, the base line below the hunk or the end of the file |
| PatchLines.EmptiedFileHasNoPlace | src/autocontribute/patches.py:184-200 | in a patch that empties its file every removed line is looked up at line 0 |
| PatchFiles.ParseIsLossless | src/autocontribute/patches.py:110-121 | a parsed patch is its files put together, each one `diff --git` section cut at every hunk start and nowhere else |
| PatchSides.Classify | src/autocontribute/patches.py:143-154 | a file is classified by its path, its header and its hunks' changed lines in the file after the patch, or the error is the source's |
| TestPaths.ClassesExactly | src/autocontribute/patches.py:143-154 | which files go whole to the tests or the sources, which are looked at hunk by hunk, and which stop the split, each exactly |
| TestPaths.TestNameExactly | src/autocontribute/patches.py:29 | a file name is a test's exactly when it matches one of the five glob patterns |
| TestPaths.TestPathExactly | src/autocontribute/patches.py:124-130 | a path is a test's exactly when a piece of it before the last names a test directory or the last is named like a test |
| PatchSides.SplitPatch | src/autocontribute/patches.py:133-159 | the loop over files builds the two sides in order, or reports the first error |
| PatchSides.SplitConserves | src/autocontribute/patches.py:133-181 | over the whole patch every hunk, with its path and its body, every file without hunks and every changed line is on exactly one side |
| PatchSides.FilesGoWhereTheyBelong | src/autocontribute/patches.py:143-159 | a file of one kind goes whole to its side, a mixed one leaves its kept hunks on each |
| PatchSides.OnlyIndexLinesGo | src/autocontribute/patches.py:162-181 | the header of a file cut in two loses its `index` lines and nothing else |
| HeaderPath.DecodeQuoted | src/autocontribute/patches.py:332-359 | the byte loop of the unquoter decodes, or fails as malformed or unterminated |
| HeaderPath.UnquoteInvertsQuoting | src/autocontribute/patches.py:332-359 | whichever bytes are escaped and however, the quoted form decodes to its bytes with the remainder untouched |
| HeaderPath.Utf8IsStandard | src/autocontribute/patches.py:332-359 | a character that stands for itself is decoded to its UTF-8 form, as section 3 of RFC 3629 has it |
| HeaderPath.QuotedPathRecovered | src/autocontribute/patches.py:312-329 | a header in Git's quotes gives back the path |
| HeaderPath.NonUtf8IsReported | src/autocontribute/patches.py:346-350 | a quoted name that is not UTF-8 is a typed error when reading strictly |
| HeaderPath.TooLargeExactly | src/autocontribute/patches.py:351-358 | reading fails with `ValueError` exactly when well-formed pieces are followed by an octal escape above 377 |
| HeaderPath.UnquotedPath | src/autocontribute/patches.py:319-329 | an unquoted header is read exactly when it names one path twice around one white-space character |
| HeaderPath.UnquotedPathRecovered | src/autocontribute/patches.py:312-329 | every path, spaces and quotes included, is recovered from `diff --git a/p b/p` |
| RustCode.BlankNonCode | src/autocontribute/patches.py:240-288 | the scanner blanks a copy of the text in place, ends on every text, and gives the code-only text |
| RustLexing.RegionIsToken | src/autocontribute/patches.py:258-288 | a token ends where Rust has it: a string just past its first quote behind an even run of backslashes, a block comment where its openers and closers first balance or never, a raw string at its first quote with as many hashes, a line comment at its newline, a character literal at its quote |
| RustLexing.BlankedExactly | src/autocontribute/patches.py:240-288 | a character is blanked exactly when it lies in a string, comment or literal of the text's one reading, newlines apart |
| RustCode.OnlyBlanks | src/autocontribute/patches.py:240-255 | length and newlines stay; a character changes only into a space, and never one the scan keeps as code |
| RustCode.NoTokenLeft | src/autocontribute/patches.py:258-288 | no quote, comment, raw string or character literal is left |
| RustCode.CodeOnlyIdempotent | src/autocontribute/patches.py:240-288 | blanking twice is blanking once |
| RustCode.ItemEnd | src/autocontribute/patches.py:215-237 | an item ends at its first `;` outside parentheses, or at the brace that matches the first one opened there, else at the end |
| RustCode.ItemEndsOnce | src/autocontribute/patches.py:215-237 | an item ends in one place only |
| RustTests.AttributesAreApart | src/autocontribute/patches.py:208 | no attribute starts inside another, so the search finds them all |
| RustTests.AttributeExactly | src/autocontribute/patches.py:203-208 | an attribute is `#[cfg(test)]` with any white space between its parts, and nothing else is |
| RustTests.RustTestLines | src/autocontribute/patches.py:203-212 | the loop collects exactly the numbers of the lines of all `#[cfg(test)]` items, attributes included |
| TestHunks.TestHunksAreWithin | src/autocontribute/patches.py:149-150 | a hunk of a Rust file is flagged as a test exactly when it changes a line that is not blank and all such lines are looked up within test items |
| TestHunks.TestHunksStayInside | src/autocontribute/patches.py:136-141 | whatever comments and strings hold, every line that is not blank and that a flagged hunk adds has, in the file after the patch, a part in a `#[cfg(test)]` item |
| Pricing.ReservationCovers | src/autocontribute/pricing.py:246-270 | no usage within a reservation costs more than it, whatever the cache did and across price tiers |
| Pricing.EveryTokenIsPaid | src/autocontribute/pricing.py:246-258 | an impossible usage has no price, an empty one costs nothing, and within a tier each further token costs exactly what its kind costs |
| Pricing.BoundIsReached | src/autocontribute/pricing.py:246-270 | the bound is tight: some usage of exactly the reserved tokens costs it |
| Pricing.AffordableIsExact | src/autocontribute/budget.py:196-203 | the output limit is exactly the largest one the money left pays for |
| Budget.RunBudget.Reserve | src/autocontribute/budget.py:163-246 | a reservation is refused for the reasons given, in their order, else saved as pending with its worst-case cost |
| Budget.RunBudget.Settle | src/autocontribute/budget.py:248-297 | the actual usage is charged and the reservation cleared; overruns are saved and then fail |
| Budget.RunBudget.ChargeForRetry | src/autocontribute/budget.py:332-355 | a failed request is charged in full before its retry |
| Budget.RunBudget.ChargeFailedRequest | src/autocontribute/budget.py:357-388 | a pending reservation of a failed phase is charged in full |
| Budget.ReservationsExactly | src/autocontribute/budget.py:163-246 | a refused reservation names the first thing that stands against it and changes nothing; a granted one has the next number, its worst-case cost and the time it may take |
| Budget.SettlementsExactly | src/autocontribute/budget.py:248-297 | exactly when settling is refused without effect, and for which overrun or open breaker it fails after its charge |
| Budget.FullChargesExactly | src/autocontribute/budget.py:299-388 | a failed request is recorded and charged in full exactly when its reservation is pending and the lease held; a failed phase charges whatever is pending |
| Budget.OverrunMeansExceeded | src/autocontribute/budget.py:266-271 | settling fails for the budget exactly when the usage exceeds its reservation; the run's cap alone never fails it |
| Budget.ReservedIsExact | src/autocontribute/budget.py:196-210 | a request is refused for money exactly when its smallest useful size does not fit, else it gets the largest limit that does |
| Budget.ReserveKeeps | src/autocontribute/budget.py:188-222 | a new reservation fits the run's cap and its scope's share |
| Budget.PlayKeeps | src/autocontribute/budget.py:151-161 | every sequence of budget calls keeps each call charged at most once and the totals equal to the charges |
| Budget.EveryRunIsSound | src/autocontribute/budget.py:70-77 | over every run without overrun: cost plus pending stays within the cap, each capped scope within its share, the spends sum to the total, and the critic keeps its floor |
| ModelRequest.RetryWaitsAreBounded | src/autocontribute/model_retry.py:64-110 | exactly which failures are retried, and between which bounds the wait lies |
| ModelRequest.Request | src/autocontribute/agent_loop.py:269-332 | the request loop on the budget object does what its function says, pass by pass |
| ModelRequest.RequestKeepsBooks | src/autocontribute/agent_loop.py:269-332 | one turn sends at most four requests, each reserved once; a reservation stays pending only when the turn failed; the caps hold unless the provider billed too much |
| ModelRequest.CutOffTurnsGetMoreRoom | src/autocontribute/agent_loop.py:320-332 | every request after a cut-off turn has a strictly larger output limit |
| ModelRequest.TurnEndsWell | src/autocontribute/agent_loop.py:269-332 | a turn is ready exactly when its last request got a whole answer and nothing was raised; every earlier reply was a failure worth repeating or the one cut-off answer, after which no request asks for more than twice as much, or all the model can put out |
| ModelRequest.FailuresExactly | src/autocontribute/agent_loop.py:296-318 | a failed request is sent again exactly when it may pass, fewer than three have failed, and the wait is asked for and ends in time |
| ModelRequest.WholeTurn | src/autocontribute/agent_loop.py:269-332 | a whole turn, from its start: never an output limit below the smaller of the cap and 4000, refused for money only when that much does not fit, and given up only after three failures, for a final one, for want of time to wait, or after a second cut-off answer or one with all the room there is |
| ModelRequest.CutOffExactly | src/autocontribute/agent_loop.py:320-332 | an answer cut off below the limit asked for did not finish; one cut off at it is asked for again with more room, once, if there is any |
| ModelRequest.NeverBadArguments | src/autocontribute/agent_loop.py:274-295 | the loop never asks the budget for something it refuses as a programming error |
| AgentLoop.Solver.OnSubmitted | src/autocontribute/agent_loop.py:636-685 | one submit is confirmed, checked, continued or stopped as the handler says |
| AgentLoop.Solver.AnswerTurn | src/autocontribute/agent_loop.py:334-390 | a turn's calls are answered in order, nothing runs after the round ended, and invalid turns are counted |
| AgentLoop.Solver.Run | src/autocontribute/agent_loop.py:239-267 | the turns of a round run until an outcome or a limit |
| AgentLoop.Solver.AddressBlockers | src/autocontribute/agent_loop.py:611-622 | a new round starts with its own submits and no remembered check |
| FailureStreaks.RepeatedFailureExactly | src/autocontribute/agent_loop.py:418-440 | a transcript ends for repeated failures exactly when, over all its turns and rounds, one command failed three times in a row with nothing in between |
| TurnCounts.TurnsAreCounted | src/autocontribute/agent_loop.py:334-390 | over all turns and rounds a transcript ends for a missing tool call exactly with the third turn that has none, and as malformed exactly after three turns, one after the other, whose calls were all invalid |
| AgentLoop.SubmitKeeps | src/autocontribute/agent_loop.py:636-685 | while a round goes on nothing is accepted and enough submits are left; an accepted fix is the checked workspace |
| AgentLoop.RepliesExactly | src/autocontribute/agent_loop.py:636-685 | which submits are checked, accepted, continued or stopped, exactly, from the round so far: a diff is confirmed when the round's last check passed it |
| AgentLoop.RoundEnds | src/autocontribute/agent_loop.py:239-267 | a round ends at its hundredth turn, for want of room, time, money or a provider before a turn, each by its name, or in the answer to its last turn |
| AgentLoop.EveryRoundIsSound | src/autocontribute/agent_loop.py:352-411 | a submitted fix passed its check in this round, names the workspace as it is, and nothing ran since; the missing-check error cannot happen; at most four fixes are submitted |
| AgentLoop.AcceptableExactly | src/autocontribute/agent_loop.py:636-685 | a round can still be accepted exactly when two submits are left, or one for the diff that passed |
| AgentLoop.ContinueLeavesEnough | src/autocontribute/agent_loop.py:641-685 | every "continue" reply leaves enough submits to still be accepted |
| AgentLoop.FailedChecksGoBackTwice | docs/how-it-works.md:165-168 | a failed check goes back to the agent at most twice in a round |
| SuiteRuns.NoFailureMeansAllGreen | src/autocontribute/suite_runs.py:381-410 | the green step reports nothing exactly when there was a run and every one passed every target and collected every scope |
| SuiteRuns.FailureIsTheFirst | src/autocontribute/suite_runs.py:381-410 | the run that a failed green step names is the first that is not green |
| SuiteRuns.WithinExactly | src/autocontribute/suite_runs.py:477-480 | a test lies in a scope when its name is the scope's and goes on behind two colons or a dot |
| SuiteRuns.ReproductionExactly | src/autocontribute/suite_runs.py:340-378 | which tests must pass, which scopes must collect and which tests reproduce the fault, each exactly, from the baseline and the red run |
| FixChecks.RunRegressionLoop | src/autocontribute/fix_checks.py:386-406 | the re-run loop makes the runs and keeps the failures its function says |
| FixChecks.ReportedExactly | src/autocontribute/fix_checks.py:386-406 | a test is reported exactly when it fails in the first run and in every re-run made; running out of time keeps it |
| FixChecks.RegressionPassesMeans | src/autocontribute/fix_checks.py:342-384 | regression passes only on a usable full-suite run, or, the full suite being skipped, on a usable related run, that left no new failure |
| FixChecks.NotRunExactly | src/autocontribute/fix_checks.py:342-384 | regression is not run exactly when no related test is run and the full suite is skipped |
| FixChecks.RegressionPassesExactly | src/autocontribute/fix_checks.py:342-406 | regression passes exactly when the run that decides it is usable and no test fails in it and in each of its re-runs that passed on the base |
| FixChecks.ReportedFailuresAreReal | src/autocontribute/fix_checks.py:342-384 | reported failures passed on the base and failed in the run that found them and in all its re-runs |
| FixChecks.RedGreenPassesMeans | src/autocontribute/fix_checks.py:300-340 | red/green passes only with three green runs in each of which every test passed that the patch adds or breaks by editing, and every scope collected that did not; with source changes only when such a test failed by an assertion before |
| FixChecks.RedGreenPassesExactly | src/autocontribute/fix_checks.py:300-340 | red/green passes exactly when the first run exists, three green runs pass all of that, and with source changes some test reproduces the fault |
| FixChecks.GreenStepFindsTests | src/autocontribute/fix_checks.py:325-326 | the error for a green step without tests cannot happen |
| FixChecks.EveryRunIsRecorded | src/autocontribute/fix_checks.py:268-406 | the evidence of a check is every run that was made, each once and in order, and regression says that the full suite ran exactly when it did |
| FixChecks.CheckPassesMeans | src/autocontribute/fix_checks.py:441-457 | what a passing check implies for the gates, red/green and regression |
| FixChecks.CheckPassesExactly | src/autocontribute/fix_checks.py:441-457 | a check passes exactly when its gates pass, the patch and its test part apply, red/green passes if there are tests, and regression passes or nothing can be run for it |
| FixChecks.PassesWithoutRegressionExactly | src/autocontribute/fix_checks.py:441-457 | a check passes although its regression never ran exactly when nothing else fails it and no regression run was possible |
| FixChecks.UnfinishedBaselinePasses | src/autocontribute/fix_checks.py:441-457 | such checks: no tests in the patch, no related tests, and a base suite that did not finish |
| FixChecks.FixChecks.Run | src/autocontribute/fix_checks.py:219-266 | a check records its result under the diff and as the latest |
| LeaseGuards.RunKeeps | src/autocontribute/coordination.py:49-153 | every interleaving keeps the invariant: the row has the newest generation, and each guard only holds what its entry acquired |
| LeaseGuards.AcceptedInTurn | src/autocontribute/coordination.py:81-102 | acceptances follow the generations, and another owner's earlier lease has expired or was released by then |
| LeaseGuards.AssertOwnedRuns | src/autocontribute/coordination.py:81-102 | `assert_owned` run without interruption accepts and keeps the row's lease exactly when the store confirms it, else records the loss |
| LeaseGuards.SupersededStaysOut | src/autocontribute/store.py:2991-3012 | a superseded generation is never accepted again |
| LeaseGuards.LossSticks | src/autocontribute/coordination.py:84-90 | after a recorded loss nothing is accepted from that guard until it enters again |
| LeaseGuards.CloseReleasesOwn | src/autocontribute/coordination.py:104-125 | `close` deletes only the generation its entry acquired, never a successor's |
| LeaseGuards.ExclusiveExactly | src/autocontribute/coordination.py:81-102 | some interleaving has two guards accepted at once exactly when two of them share an owner name |
| LeaseGuards.SharedOwnerSharesTheLease | src/autocontribute/store.py:2676-2820 | from every start any two guards of one owner name can both be accepted, and closing one then takes the lease from the other |
| Leases.AcquiredExactly | src/autocontribute/store.py:2676-2820 | a lease is granted under the next generation when no row stands, and under the same one to the standing row's owner, who keeps at least the time it had; everyone else is refused and nothing changes |
| Leases.RenewedExactly | src/autocontribute/store.py:2822-2897 | a heartbeat is granted exactly to the holder of a standing row whose last heartbeat is not in the future; the row then stands at least the time asked from now and never shorter than before |
| LeaseRenewal.TimelyGuardKeepsItsLease | src/autocontribute/coordination.py:49-153 | a guard with an owner name of its own whose heartbeats do not fail and come in time is accepted in every state until it closes, is never refuted, and no other owner can acquire the lease meanwhile |
| Throttle.SearchKeepsHolds | src/autocontribute/github.py:529-540 | recording a search keeps the deque sorted, at most 25 long, the end of the history, and each search a minute after the 25th before it |
| Throttle.SearchTimeIsEarliest | src/autocontribute/github.py:532-537 | the wait is no longer than needed: earlier, 25 searches already fall in the last minute |
| Throttle.EveryRunIsSpaced | src/autocontribute/github.py:529-540 | over every run of searches on a monotone clock: each search a minute after the 25th before it, a sorted deque of at most 25, at most 25 in any 60 seconds |
| Throttle.WindowBound | src/autocontribute/github.py:529-540 | any 60 seconds hold at most 25 searches |
| Requests.GitHubClient.ThrottleSearch | src/autocontribute/github.py:529-540 | the deque loop waits and records as the limiter says |
| Requests.GitHubClient.Request | src/autocontribute/github.py:397-527 | the retry loop does what its function says, charges the client's wait and records every search |
| Requests.AttemptsAreBounded | src/autocontribute/github.py:406-527 | at most 4 sends, 180 seconds of ordinary waits and 600 of secondary waits; the code after the loop is unreachable |
| Requests.ResendsAreSafe | src/autocontribute/github.py:415-425 | only reads and refused requests are sent again, and a wait honours Retry-After |
| Requests.ResultIsOfLastReply | src/autocontribute/github.py:513-526 | a result is that of the last reply, a success or an allowed 404 |
| Requests.DecidesExactly | src/autocontribute/github.py:406-527 | a request is sent again exactly when its reply is worth it, fewer than four were sent and the wait fits its budget; the wait is the one GitHub asked for, or doubles; else the outcome is what the reply means |
| Requests.RefusedExactly | src/autocontribute/github.py:415-500 | what counts as a refusal: a secondary limit, status 429, or a 403 whose headers name a time or an empty allowance |
| Requests.OutcomeIsTheLastReplys | src/autocontribute/github.py:397-527 | over all attempts every reply but the last was worth repeating, and the outcome is what the last one means |
| Requests.ClientWaitsAreBounded | src/autocontribute/github.py:452-467 | over any history of one client its secondary-limit waits sum to at most 600 seconds |
| Markdown.VisibleMarkdown | src/autocontribute/pr_template.py:54-82 | the scanner's loop renders what its function says |
| VisibleLines.VisibleExactly | src/autocontribute/pr_template.py:54-82 | what is shown is the lines of the text without its comments that stand in no fence and are no fence lines; of any other line only its break is left |
| VisibleLines.CommentsAreUnique | src/autocontribute/pr_template.py:57 | the comments of a text, each up to its first closer or to the end, can be read in one way only |
| VisibleLines.LinesMakeTheText | src/autocontribute/pr_template.py:61 | the lines put together are the text; all but the last end at Python's line breaks, with carriage return and newline kept together |
| VisibleLines.BreaksStayWhole | src/autocontribute/pr_template.py:61 | a carriage return that ends a line is not followed by a newline |
| VisibleLines.MarkerExactly | src/autocontribute/pr_template.py:62 | a fence line is at most three blanks, at least three backquotes or tildes, and a tail |
| Markdown.WithoutCommentsConcat | src/autocontribute/pr_template.py:57 | comments of two texts are removed piece by piece when the first leaves none open |
| Markdown.RenderConcat | src/autocontribute/pr_template.py:61-81 | rendering goes line by line, carrying only the open fence |
| BodyText.CloseBody | src/autocontribute/pr_text.py:166-182 | the closer's loop closes what its function says |
| BodyText.ClosedKeepsTheBody | src/autocontribute/pr_text.py:166-182 | the body stays, followed by a comment's end exactly when some opener has no closer behind it, and by the fence's own marker exactly when a fence is open |
| BodyText.ClosedLeavesNothingOpen | src/autocontribute/pr_text.py:166-182 | for every body, closing leaves neither a comment nor a fence open for the scanner |
| BodyText.TextAfterClosedShows | src/autocontribute/pr_text.py:166-182 | text after a closed body that opens nothing itself is shown as it is |
| BodyText.DisclosureShows | src/autocontribute/pr_text.py:86-94 | the hidden-disclosure error cannot come from the agent's body |
| BodyText.AssembledHoldsTheBody | src/autocontribute/pr_text.py:64-94 | the published body is the issue link unless it has one, the whole closed body, the note and the disclosure |
| Pushes.PushedByOthers | src/autocontribute/lifecycle.py:910-941 | true exactly when the newest updates lead from the head to the prepared commit through plain pushes by known other accounts |
| Pushes.ShortWalkArrives | src/autocontribute/lifecycle.py:929-941 | a walk that arrives at all arrives within the number of updates, with cycles and restored commits too |
| Ordering.LatestIgnoresOrder | src/autocontribute/lifecycle.py:944-1005 | with distinct ranks the newest item per key does not depend on the order of the list |
| Ordering.SortIgnoresOrder | src/autocontribute/lifecycle.py:822-829 | sorting by distinct keys does not depend on the order of the input |
| Lifecycle.ClassifyLifecycle | src/autocontribute/lifecycle.py:687-819 | the classifier's loops give the ordered signals its function says |
| LifecycleSignals.SignalsExactly | src/autocontribute/lifecycle.py:687-819 | a signal is in the result exactly when the snapshot shows what it names: kind by kind, a changed head and who pushed it, a maintainer's latest vote, a maintainer's stop in one of three places, a latest check or status that failed, a close without merge, a landed revert |
| LifecycleSignals.SignalsAreSorted | src/autocontribute/lifecycle.py:822-829 | the result is strictly sorted by kind, key and source, so nothing is reported twice |
| LifecycleSignals.KindsAreInOrder | src/autocontribute/lifecycle.py:822-829 | signals come in the order of the names of their kinds |
| Lifecycle.LatestIgnoreOrder | src/autocontribute/lifecycle.py:944-1005 | the latest reviews, checks and statuses do not depend on GitHub's order |
| Lifecycle.SortKeysAreDistinct | src/autocontribute/lifecycle.py:822-829 | two signals that sort alike are the same signal |
| Lifecycle.ClassifyIgnoresOrder | src/autocontribute/lifecycle.py:687-829 | every permutation of reviews, comments, checks, statuses and references with unique identifiers gives the same tuple |

## Left out

- Patches.HunkRange: reads ASCII digits only; the source's pattern also takes other Unicode digits, which Git does not print.
- PatchSides.SplitPatch: reading the file after the patch is a parameter that may fail; what makes it fail is not modelled.
- TestHunks.TestHunksStayInside: says where lines stand after the whole patch, not in the test side applied alone, whose line numbers nothing reads.
- AgentLoop.Solver.AnswerTurn: does not model the reminders, nested guidance and transcript text that a turn appends, nor redaction.
- AgentLoop.Solver.OnSubmitted: a check always reports; in the source it can also raise, which ends the loop as a failure.
- Budget.RunBudget.Settle: does not model the seconds a call took or the text of the saved events.
- ModelRequest.Request: the sleep between attempts shows only in the clock's next reading.
- Requests.GitHubClient.Request: redirects, the text of errors and the safety-stop record are not modelled; their branches are.
- LeaseGuards.RunKeeps: is on values, not on objects shared by threads: each step is one lock block or one store transaction; errors of SQLite inside a step and `release_all_leases` are not modelled.
- LeaseRenewal.TimelyGuardKeepsItsLease: the guard's interval is not a clock of the model, so that its thread beats in time is the premise; that no other guard has its owner name is what exclusion needs anyway.
- LifecycleSignals.SignalsExactly: which texts ask to stop or revert is a parameter, and identifiers are unique within each list, as GitHub's are.
- Lifecycle.ClassifyLifecycle: signals carry the pull request's URL only, not its repository and number, which are the same for all.
- FixChecks.FixChecks.Run: gates, command selection, timeouts and evidence text are inputs or left out; a found host secret stops the source before any result.
- BodyText.DisclosureShows: the length, credential and mention checks after assembly are single tests and are left out.
- Networking, containers, the store's tables other than leases, configuration, discovery, policy reading, approval and the command line.
