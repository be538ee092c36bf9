# Verified model of github-update-go-watcher

The watcher polls the repositories of one GitHub owner, files one update task per repository whose
`go.mod` is behind the current stable Go release, and completes a task once its update pull request
has merged. What it may do next depends on a cursor file that survives many cycles: the pair (HEAD,
target version) last filed, the HEAD last completed, and the emission claim. This project models one
cycle, runs of cycles with crashes, the cursor file, the gate between the ticker and the trigger
endpoint, and the parsing the keys depend on, and proves what they promise.

## How it is built

- `Cycle` gives each step of a poll as a function from a cursor value and an observation to a cursor
  value and a list of events. Events are the log lines, metric increments and sends in order; a
  counter's growth is the number of its events.
- `Watchers` has the same steps as methods on the mutable cursor of `Cursors`: a map from keys to
  entry objects, some of them nil. Clearing a claim and completing a task change an entry in place,
  recording a task replaces it, and the SHA filter reads the cursor as it is at that moment. Every
  method is proved against its function.
- `VisitFacts`, `PassFacts`, `Conservation` and `Fixpoint` state what a visit, a pass and a poll do
  without following their control flow.
- `Runs` is a step machine over (memory, disk, events) with a failed save, a lost file or a restart
  possible at every step; `PollIsARun` makes every poll, whole or cut off, one of its runs. `Safety`
  holds the theorems over all runs. `Gate` interleaves the steps of the ticker and any number of
  triggers, each with its own copy of the cursor, and `Service` carries the theorems over to it.
- The environment enters as data: for each listed repository a `Visit` and a `Closing` say what the
  context, the upstream reads, the clock and the sends answer. They are arbitrary, differ from one
  position of the list to the next, and the clock may run backwards.

The hypotheses the run theorems use come from the lower layers: `ListRepos` returns repositories of
the configured owner only, and `LatestStable` returns a version within the machine range.

## Where the code and its documentation differ

The model follows the code.

- The repository README (line 80) says a repo is `sha_unchanged` when HEAD and target are unchanged
  "since the last successful cycle". The code compares with the pair of the last recorded create:
  `UnchangedCondition` says exactly when the label is given. After a cycle whose one send failed, which
  is saved and labelled a success, the same answers file the task again (`SuccessfulCycleIsNotEnough`).
- The comment on `inFlightExpired` says that a repo whose claim expired is emitted again. An unforced
  visit that still finds the pair recorded is not (`ExpiredClaimStillFiltered`), and over whole runs
  nothing but a create for another pair or a lost cursor lets one through (`UnforcedCreateIsNew`).
- The comment on `completeMergedUpdates` promises that a merged update PR completes the task filed at
  that HEAD. The marker is HEAD-only: for a task filed at a completed HEAD for a newer Go version the
  completion check is silent (`SecondVersionAtSameHead`), and stays so over every run until a task is
  filed at another HEAD or the file is lost (`ClosedHeadStaysClosed`); after a task at another HEAD was
  completed, the first HEAD can be completed again (`AnotherHeadReopens`). A task filed back at the HEAD
  completed last, after others at other HEADs, gets no completion either (`MarkerOutlivesTasks`).
  `CompletionCondition` says exactly when a check completes.
- The repository README disagrees with itself about decision tasks. Two passages (lines 22 and 79) say
  that one is filed once per repo; its decision task contract (line 116) says it is emitted in every
  cycle the repo stays undecided. The code does the latter (`DecisionCondition`), always under the same
  identifier (`DecisionIdInjective`).
- The comment on the claim fields says that a claim is cleared by convergence, an open PR or its age.
  A create for another target also ends it, and a claim for an older target is never cleared
  (`ClaimLifetime`).

One behaviour no document mentions: a cancelled cycle is saved and counted as a success
(`CancelledPollCountsAsSuccess`).

## Model

| member | source | states |
|---|---|---|
| `Safety.OneEmissionPerClaim` | pkg/watcher.go:380-414 | over every run from any file, between a successful create and the next attempt for the same repo and target lies an observed open update PR, a not-behind go.mod, an expired claim, a create for another target, or the loss of the recording cursor |
| `Safety.ClaimOnFileIsRespected` | pkg/watcher.go:380-414 | the same for a claim already in memory and on disk when a run starts: no attempt for its target before one of those releases or the loss of the file |
| `Safety.UnforcedCreateIsNew` | pkg/filter/sha_unchanged_filter.go:28-37 | over every run, between a successful create and an unforced attempt for the same repo, HEAD and version a create for another pair was recorded or the cursor was lost; no expiry is enough |
| `Safety.CompletionIsNotRepeated` | pkg/watcher.go:494-523 | over every run, between two completions of a repo a task was filed at another HEAD or the cursor was lost; tasks at the same HEAD for newer versions do not reopen it |
| `Safety.ClosedHeadStaysClosed` | pkg/watcher.go:494-523 | from any world whose entry is closed at a HEAD in memory and on disk, over every run, no completion is sent for the repo before a task is filed at another HEAD or the file is lost |
| `Safety.MarkerOutlivesTasks` | pkg/watcher.go:236-245 | over every run, between two completions of a repo at the same HEAD a task was completed at another HEAD or the cursor was lost, whatever was filed in between: recording a task keeps the marker |
| `Safety.CompletionClosesACreate` | pkg/watcher.go:533-566 | from a cold start, over every run, each completion carries the identifier of an earlier successful create |
| `Safety.ConsentSafety` | pkg/watcher.go:171-217 | every create of every run was made by a visit that itself observed the repo as allowlisted, parsable, strictly behind, granted and without an open update PR; every decision task by one neither granted nor refused |
| `Safety.RunKeepsTruth` | pkg/watcher.go:232-314 | the invariant behind the run theorems, from any world and any true latch: what the events say is remembered is in memory and on disk, and nothing it forbids happens |
| `Runs.PollIsARun` | pkg/watcher.go:82-151 | every poll is a run of single steps with the same memory, file and events |
| `Service.OneEmissionUnderConcurrency` | pkg/cyclegate.go:9-20 | the emission theorem for every interleaving of the ticker and the triggers |
| `Service.CompletionNotRepeatedUnderConcurrency` | pkg/cyclegate.go:9-20 | the completion theorem for every interleaving |
| `Service.CompletionClosesUnderConcurrency` | pkg/cyclegate.go:9-20 | from a cold start with polls that list one owner's repos, every completion of every interleaving carries the identifier of an earlier successful create |
| `Service.ConsentUnderConcurrency` | pkg/cyclegate.go:9-20 | every create and decision task of every interleaving rests on the observation of a job listed by a poll that was begun |
| `Service.UnforcedCreateIsNewUnderConcurrency` | pkg/cyclegate.go:9-20 | with no forced poll, the pair theorem for every interleaving |
| `Service.FileIsRespectedUnderConcurrency` | pkg/cyclegate.go:9-20 | a claim or a completed HEAD in the file at the start is respected by every interleaving until a release or the loss of the file |
| `Gate.NoLostUpdate` | pkg/cursor.go:21-27 | under every interleaving the slot is full iff exactly one actor holds it, and the file and the events are those of the turns one after the other; without panics and crashes those are whole polls |
| `Gate.EveryCycleGivesBack` | pkg/handler/trigger_handler.go:104-121 | from any reachable state with a free slot, for ticker and triggers: a cycle carried to its end, one stopped by a panic after any step, one with an unreadable file and a failed start all end with a free slot and nobody in a phase, with exactly their turn, answer, file and events |
| `Gate.SlotCanComeBack` | main.go:143-152 | from every reachable state the holder can finish and give the slot back without panic or crash |
| `Gate.FullSlotIsRefused` | main.go:144-147 | with the slot taken a tick is skipped without a trace and a trigger is answered with a conflict; nothing else changes |
| `Gate.OnlyAcceptedTriggersRun` | pkg/handler/trigger_handler.go:104-128 | a trigger gets past its start only after its caller was answered as accepted |
| `Gate.CrashAndLoss` | pkg/cursor.go:75-81 | a crash in any reachable state leaves the file, the events, a free slot and nobody in a phase; a file lost between polls leaves the empty cursor |
| `Gate.ConflictMeansBusy` | pkg/handler/trigger_handler.go:92-100 | a trigger is turned away exactly while another actor is between taking and returning the slot |
| `Gate.RunnerAssumptionIsNeeded` | pkg/handler/trigger_handler.go:106-121 | if the slot is given back while a trigger is about to save, as after a runner that fails having started, the ticker runs a whole cycle beside it and its saved cursor is lost to the trigger's save, while its events stand |
| `Gate.CycleGate.TryAcquire` | pkg/cyclegate.go:30-37 | succeeds iff the slot was free, and leaves it full |
| `Gate.CycleGate.Release` | pkg/cyclegate.go:39-44 | leaves the slot free, held or not |
| `Drivers.Tick` | main.go:143-152 | skipped iff the slot is taken; otherwise a whole poll, and the slot is free again |
| `Drivers.ServeHTTP` | pkg/handler/trigger_handler.go:83-129 | conflict iff the slot was taken, slot given back when the cycle cannot start, the force flag as parsed |
| `Watchers.Watcher.Poll` | pkg/watcher.go:82-151 | the method on files and objects has the events, file states and final file of the cycle function; it fails iff a file exists and cannot be read, and on a missing or corrupt one runs the cycle on the empty cursor |
| `Watchers.Watcher.ProcessRepos` | pkg/watcher.go:153-220 | the loop over the mutable cursor computes the pass function, allocating only fresh entries |
| `Watchers.Watcher.CompleteMergedUpdates` | pkg/watcher.go:478-526 | the second loop computes its pass function and keeps every pointer |
| `Watchers.Watcher.MarkPublished` | pkg/watcher.go:232-248 | replaces one pointer by a fresh entry, carries the completion marker, touches no other pointer |
| `Watchers.Watcher.ClearInFlight` | pkg/watcher.go:307-314 | clears the claim in place iff it targets the version; the pointer map is unchanged |
| `Watchers.Watcher.EmissionInFlight` | pkg/watcher.go:390-414 | the claim check on the mutable cursor, with its clearing |
| `Watchers.Watcher.GateRepo` | pkg/watcher.go:276-356 | only an observed open update PR clears the claim; a failed check drops the repo, a rate limit aborts |
| `Watchers.Watcher.GatherCandidate` | pkg/watcher.go:416-466 | the observation, the drop step or the abort, in the order of the reads |
| `Watchers.Watcher.CompleteTask` | pkg/watcher.go:533-566 | sends the recorded task's completion and advances the marker in place only on success |
| `Watchers.Watcher.PublishCreate` | pkg/taskpublisher.go:43-68 | one send and one count by its outcome |
| `Watchers.Watcher.PublishDecision` | pkg/taskpublisher.go:70-93 | the same for a decision task, which counts as published too |
| `VisitFacts.EmissionCondition` | pkg/watcher.go:171-217 | a create is attempted iff the observation is complete, the PR check is clear, no claim for the target is live, the static filters pass, and (force, or no HEAD, or an unrecorded pair); what it sends and records |
| `VisitFacts.DecisionCondition` | pkg/watcher.go:191-213 | a decision task is sent iff in scope, behind, without live claim, and neither granted nor refused; nothing is recorded |
| `VisitFacts.UnchangedCondition` | pkg/filter/sha_unchanged_filter.go:28-37 | a visit is labelled `sha_unchanged` iff the repo is in scope, behind and granted, no claim for the target is live, the cycle is not forced and the pair is recorded |
| `VisitFacts.NeverBoth` | pkg/watcher.go:191-217 | one observation never files both kinds of task |
| `VisitFacts.LabelsOfVisit` | pkg/watcher.go:171-217 | exactly when a visit is skipped under each of the nine labels, dropped at each of the four reads, and when it marks a claim as converged or expired, by the answers and the entry |
| `VisitFacts.EntryOfVisit` | pkg/watcher.go:232-248 | the entry a visit leaves, field by field: recorded with the kept completion marker, freed of its claim and nothing else, or unchanged; every other entry is untouched |
| `VisitFacts.UnreadableStampDoesNotSuppress` | pkg/watcher.go:316-332 | a claim whose recorded time does not parse never holds back a create |
| `VisitFacts.ClaimLifetime` | pkg/watcher.go:339-414 | exactly when a visit that records nothing clears a claim; claims for other targets are never touched |
| `VisitFacts.ClaimWindow` | pkg/watcher.go:250-258 | a recorded claim lives fourteen days, to within the dropped fraction of a second |
| `VisitFacts.ExpiredClaimStillFiltered` | pkg/filter/sha_unchanged_filter.go:28-37 | expiry clears the claim, but an unforced visit is still stopped by the recorded pair |
| `VisitFacts.CompletionCondition` | pkg/watcher.go:494-523 | a completion is sent iff the entry has a HEAD that is not the completed one and its update PR was seen merged; it names the recorded task, and its success moves the marker alone |
| `VisitFacts.SecondVersionAtSameHead` | pkg/watcher.go:498-500 | when a task for a newer version is recorded at a completed HEAD, the completion check that follows is silent for every answer |
| `VisitFacts.AnotherHeadReopens` | pkg/watcher.go:498-500 | after a task at another HEAD was completed, a task filed back at the first HEAD is completed once merged |
| `PassFacts.VisitIsLocal` | pkg/watcher.go:160-218 | a visit reads and writes its own entry only |
| `PassFacts.ProcessIsPointwise` | pkg/watcher.go:153-220 | over distinct repos the uninterrupted loop is a map over entries, others untouched, events concatenated |
| `PassFacts.OrderDoesNotMatter` | pkg/watcher.go:153-220 | permuting the list gives the same cursor and the same multiset of events |
| `Fixpoint.SecondPollIsQuiet` | pkg/watcher.go:82-151 | repeating a saved poll with the same answers files nothing, completes nothing and keeps the cursor, repeated repos included |
| `Fixpoint.SuccessfulCycleIsNotEnough` | pkg/watcher.go:193-217 | a poll whose one send fails is saved and labelled a success, and an unforced poll with the same answers files the task again and does not report `sha_unchanged` |
| `Fixpoint.CompletionIsIdempotent` | pkg/watcher.go:478-526 | the merge-detection pass repeated on its own result sends nothing |
| `Conservation.PollConservation` | pkg/metrics.go:39-59 | drops, skips over the closed label set and creates sum to the repos finished, all of them iff nothing interrupts; decisions equal undecided skips; creates and decisions together, and completions, equal their counts, successes too; one cycle label |
| `Conservation.LabelCondition` | pkg/watcher.go:88-150 | the label of the one cycle result by the answers: a failed lookup, a throttled read that ends the first pass, or a throttled merge question about an entry still open, otherwise success |
| `Conservation.AbortPoint` | pkg/watcher.go:161-218 | the first pass aborts iff the job it stops at is throttled and not cancelled |
| `Conservation.CloseAbortPoint` | pkg/watcher.go:483-523 | the second pass aborts iff, before any cancellation, a listed repo is throttled whose entry is open and not completed by an earlier listing of it |
| `Conservation.SaveCondition` | pkg/watcher.go:124-150 | when a poll writes: never after an abort in the first pass, always after one in the second |
| `Conservation.CancelledPollCountsAsSuccess` | pkg/watcher.go:161-169 | wherever the first pass is cancelled, with no throttled read before and none in the second pass, the poll is that over the jobs before it, is saved, and counts as a success |
| `Cursors.PollIsAtomicOnDisk` | pkg/cursor.go:75-123 | over all file states of a poll there is one commit point: before it the old cursor, after it the new one, and it is passed iff the poll saves and the rename succeeds |
| `Cursors.CorruptFileIsKeptAndReplaced` | pkg/cursor.go:85-99 | a corrupt file starts cold, is kept aside when possible, and the next save replaces it |
| `Cursors.LoadMeans` | pkg/cursor.go:75-104 | a missing file is a cold start, so is a corrupt readable one whatever the rename does; only a file that exists and cannot be read is an error |
| `Cursors.SaveLeavesBeside` | pkg/cursor.go:109-123 | the committing rename starts from a complete temporary file, which a failed rename removes exactly when removing works; the file set aside is never touched |
| `Cursors.Store.LoadCursor` | pkg/cursor.go:75-104 | an error iff a file exists and cannot be read; empty for a missing or corrupt one; otherwise fresh, unshared entries that decode the file |
| `Cursors.Store.SaveCursor` | pkg/cursor.go:109-123 | the file states of a save in order, with partial writes and failures at each step |
| `Cursors.CursorReader.Read` | pkg/cursorreader.go:18-38 | the live, nil-safe view of the recorded pair |
| `Filters.FirstHit` | pkg/filter/filter.go:77-84 | the composite answers with the first objection and passes iff there is none |
| `Filters.ChainVerdict` | pkg/factory/factory.go:75-83 | the wired chain in one formula for each of its eight answers; any consent but the two known answers fails closed |
| `Filters.ParseRepoAllowlist` | pkg/filter/repo_allowlist_filter.go:17-30 | the trimmed non-empty entries of the split text, in order |
| `Filters.AllowlistRoundTrip` | pkg/filter/repo_allowlist_filter.go:17-30 | every list of clean entries is the parse of its comma-joined text |
| `Filters.AllowlistMeans` | pkg/filter/repo_allowlist_filter.go:17-30 | cut at the commas and freed of the white space around each part, the non-empty parts in order are the list |
| `Filters.EveryTextIsAllowlist` | pkg/filter/repo_allowlist_filter.go:17-30 | every text has that form |
| `Filters.AllowlistIsClean` | pkg/filter/repo_allowlist_filter.go:17-30 | any text yields clean entries only |
| `GitHub.ListRepos` | pkg/githubclient.go:187-238 | at most 100 requests, from page 1 along the next links; iff the chain ends by then without error or cancellation the result picks, in order, the objects sent that are not archived, foreign or nameless, otherwise no partial list |
| `GitHub.MapGitHubRepos` | pkg/githubclient.go:165-184 | the result is what the objects at increasing positions say, field by field, and every object elsewhere is archived, foreign or nameless |
| `GitHub.HasOpenUpdatePR` | pkg/githubclient.go:420-432 | true iff some listed head has the update prefix before any cancellation |
| `GitHub.GetMergedUpdatePR` | pkg/githubclient.go:381-393 | true iff some listed PR is merged before any cancellation |
| `GitHub.GateSeesEveryUpdateBranch` | pkg/githubclient.go:435-445 | the open-PR gate recognises the branch of every task; tasks share a branch iff their SHAs agree in the first seven characters |
| `GitHub.KeyInjective` | pkg/repo.go:18-22 | for one owner the key names the repo |
| `GitHub.KeyNamesRepo` | pkg/repo.go:18-22 | for owners without a slash the key is host, owner and name in their places and names owner and repo |
| `TaskIds.TaskIdNamesVersion` | pkg/taskid.go:26-29 | for one owner, update identifiers are equal iff repo, version and SHA are, dashes in repo names included |
| `TaskIds.SeedsAreDashed` | pkg/taskid.go:26-47 | both seeds are their parts joined by dashes, in a namespace each |
| `TaskIds.DecisionIdInjective` | pkg/taskid.go:44-47 | one decision identifier per repo, never an update identifier |
| `TaskIds.OwnersCanCollide` | pkg/taskid.go:26-29 | without the fixed owner two repos can share an identifier |
| `Versions.ParseMeansPattern` | pkg/version.go:65-97 | a release parses to a version iff the pattern with `go` spells it, a directive iff the pattern without it does, digit by digit and with every number below 2^63 |
| `Versions.PrintParse` | pkg/version.go:117-129 | both printed forms parse back to the same triple |
| `Versions.NumberHasThreeNumerals` | pkg/version.go:122-129 | the printed form always has three numerals without leading zeros, worth major, minor and patch |
| `Versions.NumberInjective` | pkg/version.go:122-129 | comparing printed targets is comparing versions |
| `Versions.CompareIsLexicographic` | pkg/version.go:99-110 | on parsed versions no 64-bit subtraction overflows and the sign is the lexicographic order |
| `Versions.CompareOverflowsOutsideRange` | pkg/version.go:99-110 | outside the parsed range the same subtraction wraps and the order breaks |
| `Versions.WrapIsCongruent` | pkg/version.go:99-110 | the modelled subtraction yields the value of the 64-bit range that is congruent to the exact one |
| `Versions.LessIsStrictWeakOrder` | pkg/version.go:112-115 | a strict weak order whose ties are equal triples |
| `GoDev.LatestStable` | pkg/godevclient.go:82-99 | the first release, among those marked stable whose name spells a version, that no other exceeds; fails iff there is none |
| `GoDev.FirstGreatestIsUnique` | pkg/godevclient.go:82-99 | that describes one version |
| `GoMod.ParseGoModVersion` | pkg/gomod.go:28-49 | the scanner loop computes the scan function |
| `GoMod.DirectiveMeans` | pkg/gomod.go:32-43 | a line is a directive for a word iff it is white space, `go`, more white space, the word, and nothing or white space and anything |
| `GoMod.ScanMeans` | pkg/gomod.go:28-49 | for every file, by its lines: a version is returned iff the first line of that shape spells it and no line up to it has 1 MiB; the last line may be unterminated |
| `GoMod.SeekTakesFirstDirective` | pkg/gomod.go:32-48 | the same in terms of the scan: the parse of the first directive line, with no overlong line up to it |
| `GoMod.DirectiveIsFound` | pkg/gomod.go:28-49 | a file whose first line of directive shape carries a printed version yields that version, whatever the white space in it and the lines around it |
| `Non2xx.LogNon2xxResponse` | pkg/non2xx_log.go:66-84 | the replaced body yields exactly the bytes and the error of the original, from a peek of at most 4096 bytes |

## Left out

- HTTP, Kafka, Prometheus, logging, Sentry, routing, authentication and flags: sends are outcomes, metrics are counted events.
- The hash of name-based UUIDs (section 5.5 of RFC 9562): a task is its namespace and seed text, so hash collisions are outside.
- YAML resolution in `ParseConsent` and GitHub content decoding: the consent and the file text are observations.
- `repoallowlist.IsAllowed`: the matcher is an arbitrary predicate on the repo key.
- JSON text and file-system primitives: marshalling is an abstract round trip, a partial write leaves arbitrary content, rename is atomic; loss of unsynced data in a power failure is outside.
- RFC 3339 text: formatting drops the fraction of a second and other text does not parse.
- Text is ASCII: one character is one byte and white space is the six ASCII characters, in `go.mod` and in the allowlist.
- Task titles, bodies and frontmatter, the `Default` parse wrappers, `mathutil.Clamp` and the log line of a non-2xx response: no property stated here depends on them.
- The endless loop of the ticker: `Gate` lets actor 0 act any number of times, `Drivers.Tick` is one tick.
- Go maps that are nil: a nil map reads as an empty one, and the loader never hands one on.
- Data races inside a poll: one actor takes one step at a time; a file lost while a poll runs is covered in `Runs`, not in `Gate`.
- Runner failures after the start of the function: assumed away in `Gate`, with `RunnerAssumptionIsNeeded` showing why.
