# Veritix, modelled and proved in Dafny

Veritix audits datasets with SQL. Its source makes promises that hold only over
every run, every interleaving or every table. This project models the code those
promises rest on and proves them. `dafny verify dfyconfig.toml` checks
everything.

One module per component:

- **Schedule**, **Clock**: when an audit is next due, and the scheduler that fires
  it. Instants and offsets are integers (nanoseconds); a zone is an offset function
  with a `date` function standing for Go's `time.Date`, of which only the documented
  contract is used. Tick times are arbitrary. The answers of the store and of
  starting a run are arguments of each sweep.
- **SqlLogic**, **Profile**, **Rules**, **Evaluate**, **Materialize**: rules compiled
  to SQL predicates. Predicates are a syntax tree evaluated in three-valued logic
  over tables of optional strings; `IN` follows section 8.4 of ISO/IEC 9075-2.
  `lower`, `trim`, `TRY_CAST`, regular expressions, a raw clause, and Go's
  `ToLower`, `TrimSpace` and `len` are uninterpreted functions (`SqlLogic.Engine`).
- **Glob**: the matcher of table and column names.
- **EventFeed**, **RunLifetime**, **EventStream**: the live events of a run: the
  bounded-channel fan-out, the order in which a run ends, and the frames between the
  server and the browser (sections 9.2.5 and 9.2.6 of the WHATWG HTML standard).
  Every operation on a run holds its lock, so an interleaving is a sequence of steps.
- **Findings**, **MissingValues**, **Compare**: the finding set and its verification,
  a check whose claim is its own evidence, and the difference of two reports.
- **Retention**: which ingested databases are discarded, over every interleaving.
- **AgentLoop**, **Redact**, **Scoring**, **ChecksAgreement**: the conversation with a
  model and its budgets, what an engine error may tell the model, the scoring of audits
  and what it means that two of them agree.
- **Strings**, **Positions**, **Reals**, **Wrappers**: string operations, the places a
  selection is taken from, comparing shares, Option/Result.

Classes and loops stand where the source updates state in place; each such method
is proved equal to a specification function, or to a complete predicate, about which
the promises are then proved.

## What came out different from the comments

- `schedule.go:75-78` says an interval is counted from the previous window;
  `scheduler.go:129` counts it from the instant of the sweep. The model follows the
  code.
- `schedule.go:123-128` says `time.Date` resolves a skipped reading to the next
  instant that exists. Its documentation promises only one of the two offsets around
  the transition, unspecified which. `Schedule.OneTransitionExact` is the exact
  condition under which `Next` is right whichever is taken, for daily and weekly
  schedules in a zone with one transition of up to a whole day; `Schedule.NextIsLeastIffSeparated` is exact for any zone whose windows
  come in order. `Schedule.MidnightSpringForwardRepeats` and
  `Schedule.RepeatedMidnightGoesBack` are concrete failures: a backward move is
  harmful too, if it takes the local date back across midnight
  (`Schedule.ForwardBoundSeparates` needs that it does not, and nothing else of
  backward moves).
- A `references` rule selects nothing at all once its referenced column holds a NULL,
  because its subquery is unfiltered (`evaluate.go:301`). `Rules.CompiledMeansDeclared`
  states this as part of its equivalence; the orphan predicate of `relate.go:328-330`
  does not depend on it (`Rules.OrphanMeansUnmatched`).
- A rule that cannot be executed must not pass quietly (`evaluate.go:147-149`). One that
  refers to a column the referenced table lacks passes all the same when its own table has
  a column of that name: in the subquery of `evaluate.go:301` the name is then the outer
  row's. `Evaluate.MissingReferenceIsReportedIff` is exact. With the rule's own column
  (`references: customers.customer_id` on `orders.customer_id`, customers having no
  `customer_id`, is `Evaluate.DanglingReferencePasses`) nothing is selected if the
  referenced table has rows, and every row with content if it has none
  (`Evaluate.OwnColumnCaptured`).
- A value in an engine error is not shaped as a whole (`redact.go:321-326`) when an
  apostrophe comes in or before it: what follows an odd number of them leaves as it
  stands. `Redact.WithheldExactly` is the exact condition, wherever in a message the value
  stands, `Redact.ApostropheShowsTheRest` and `Redact.ApostropheBeforeShowsAll` are values
  that show, and `Redact.SurnameAndMessage` has two of them written out.
- Two deterministic passes are said to agree unless there is a bug
  (`score.go:412-413`); only the sizes of three lists are compared, so different results
  can pass for the same (`ChecksAgreement.DifferentChecksPassForSame`).
  `ChecksAgreement.SizesSettleExactly` says when the sizes do decide the lists: when all or
  none of the planted defects were found, and all or none of the clean places flagged.
- A start that fails after its run was created but before its database was recorded
  leaves the run pending, and `ActiveRun` then keeps every later window of the dataset
  from starting until something finishes that run (`Clock.LeftPendingBlocks`). It is the
  only failed start that does (`Clock.FailedStartLeaves`).
- A cancel request that looked at a run before it finished can write "failed" over
  "succeeded" (`RunLifetime.LateCancelOverwrites`); an outcome stands for good if and only
  if it is "failed" or no request is between its look and its answer when it is recorded
  (`RunLifetime.OutcomeStandsExactly`). The status stays terminal, which is what
  `RunLifetime.TerminalForGood` claims.
- A dataset's most recent readable database is said to be kept (`store/runs.go:466-475`);
  what is kept is the most recent recorded path. A run that fails before it writes
  anything has one (`api/runs.go:252-264`) and takes the place of the only database there
  is (`Retention.EmptyRunTakesItsPlace`). `Retention.NewestWrittenIsListedIff` is exact.
- A finding whose severity moves from "" to a name with its count unchanged is not
  listed among the deltas (`compare.go:265-272`). `Compare.DeltasPatchBaseline` is
  exact about it. Severities the program writes always have names.
- `agent.go:72-73` calls `maxRetries` the number of times a call is retried; it is the
  number of attempts.
- `shape.go:9-10` says runs of whitespace become one space; the code writes one space
  for each character, which is what makes shapes keep their length.

## Model

| member | source | states |
|---|---|---|
| Schedule.FirstDayFires | internal/schedule/schedule.go:105-112 | the first day tried is the first on or after today that the schedule fires on, and the fallback is the next one after it |
| Schedule.NextIsLeastWhenSeparated | internal/schedule/schedule.go:94-134 | where every window keeps to its local day, Next answers with the least window strictly after its argument |
| Schedule.NextIsLeastIffSeparated | internal/schedule/schedule.go:88-134 | exact: with windows in the order of their days, Next is right at every instant if and only if each window keeps to its day |
| Schedule.PlainReadingSeparates | internal/schedule/schedule.go:112-134 | a reading neither skipped nor repeated keeps to its day, whatever the zone does elsewhere |
| Schedule.SteadyZoneSeparates | internal/schedule/schedule.go:112-134 | so does one around which the offset moves, either way, by no more than the distance to the nearer midnight |
| Schedule.ForwardBoundSeparates | internal/schedule/schedule.go:112-134 | so does one with forward moves so bounded and no bound on backward moves, if local dates do not go back past its midnights |
| Schedule.NextIsLeastWindow | internal/schedule/schedule.go:88-134 | the main promise: where each firing day meets one of these conditions, Next is the least window strictly after every instant |
| Schedule.IntervalMovesOn | internal/schedule/schedule.go:96-97 | an accepted interval's next window is exactly Every later than the instant asked from, at least a minute |
| Schedule.WeekdaysGoRound | internal/schedule/schedule.go:105-112 | weekdays go round from a known day |
| Schedule.WindowIsPeriod | internal/schedule/schedule.go:135-156 | Window is the distance between the readings of consecutive firing days |
| Schedule.OneDateMeetsContract | internal/schedule/schedule.go:123-130 | both ways of reading doubtful hours in a one-transition zone meet time.Date's documented contract |
| Schedule.SafeTransitionSuffices | internal/schedule/schedule.go:88-134 | across one transition that is safe for every day the schedule fires on, Next is the least window, for daily and weekly schedules and any time.Date meeting the contract |
| Schedule.UnsafeTransitionFails | internal/schedule/schedule.go:88-134 | for a firing day that is not safe there is a permitted time.Date and an instant at which Next is wrong |
| Schedule.OneTransitionExact | internal/schedule/schedule.go:88-134 | exact, for daily and weekly schedules and one transition of up to a whole day: right for all instants and both readings if and only if every firing day is safe, an arithmetic condition |
| Schedule.MidnightSpringForwardRepeats | internal/schedule/schedule.go:123-134 | a clock skipping midnight, AtMinute 0: Next can answer with its own argument |
| Schedule.RepeatedMidnightGoesBack | internal/schedule/schedule.go:123-134 | a clock repeating midnight, AtMinute 0: Next can answer with an instant in the past |
| Clock.ActiveRun | internal/store/runs.go:449-463 | finds the most recent active run of the dataset, exactly when there is one |
| Clock.Scheduler.ScheduleFired | internal/store/schedules.go:159-173 | window, run and reason of one schedule move together and nothing else moves |
| Clock.Scheduler.StartRun | internal/api/runs.go:188-279 | one that succeeds adds exactly one active run of that dataset; one that fails leaves no run, a stopped one or a pending one |
| Clock.Scheduler.SweepOnce | internal/api/scheduler.go:111-163 | the loop over the stored schedules computes the specification sweep, of which Clock.SweepDecidesEach says all that it decides |
| Clock.VisitAllDoes | internal/api/scheduler.go:120-163 | a sweep decides each schedule at most once, logs exactly the window it was due at, and leaves every other schedule as it was |
| Clock.SweepDecidesEach | internal/api/scheduler.go:111-163 | from what a sweep found: a listed schedule that is due and blocked is entered in the log with no run and the reason, whatever was started before it; one that is free waits if an audit was started before its turn, is entered with the error if starting fails, and otherwise starts; one not due is left alone |
| Clock.StillDueMeansAnotherStarted | internal/api/scheduler.go:131-138 | a due schedule is left due if and only if it was free to go and another was started before its turn |
| Clock.SweepStartsAtMostOne | internal/api/scheduler.go:106-163 | a sweep starts at most one run, and only of a dataset with no active run when it began |
| Clock.BlockedMeans | internal/api/scheduler.go:166-184 | a window is missed exactly when a whole period has gone by, for an interval when its next window has gone by too; otherwise a failed lookup is the reason, and otherwise the most recent active run of that dataset; nothing is in the way exactly when there is none of these |
| Clock.MissedMeansNextPassed | internal/api/scheduler.go:166-175 | for a wall clock schedule too, across days on which its clock is not moved, a window is missed exactly when the one after it has gone by |
| Clock.SweepStartsOne | internal/api/scheduler.go:106-163 | a sweep that finds any schedule due and free to go starts exactly one run, as long as starting works |
| Clock.LeftPendingBlocks | internal/api/runs.go:252-264 | over any steps, a run left pending keeps every later window of its dataset from starting, for as long as nobody finishes it |
| Clock.FailedStartLeaves | internal/api/runs.go:232-264 | a failed start makes its dataset active exactly when it leaves its run pending, and no other dataset |
| Clock.ValidRowsMoveOn | internal/schedule/schedule.go:88-103 | an accepted schedule whose windows keep to their days always moves its window past now |
| Clock.DecisionsAreOrderly | internal/api/scheduler.go:111-200 | over any run of sweeps, manual starts, endings and edits of other schedules, the decisions for a schedule are of windows reached, each later than the decision before |
| Clock.StartsAreOfDistinctWindows | internal/api/scheduler.go:111-200 | never double-fires: two starts for one unedited schedule are of different windows; an interval's are at least Every apart |
| Clock.LeftBehindSomeone | internal/api/scheduler.go:120-163 | a due schedule is left undecided only if one listed before it was moved on |
| Clock.UndecidedSweepShrinksAhead | internal/api/scheduler.go:107-163 | each sweep that passes a due schedule over takes one of those due no later than it out of its way, and adds none |
| Clock.DueNeverReturns | internal/store/schedules.go:159-173 | over any fair run a schedule's due instant never moves back |
| Clock.WaitingIsBounded | internal/api/scheduler.go:107-163 | bounded waiting: a schedule still waiting has been passed over by no more sweeps than there were schedules ahead of it |
| Clock.EveryDueWindowIsDecided | internal/api/scheduler.go:107-200 | after one more sweep than that, its window is in the log: started, or recorded as blocked or failed |
| SqlLogic.InMeans | internal/rules/evaluate.go:263-265 | IN is true exactly on a listed value, and false exactly when nothing matches and no NULL takes part |
| SqlLogic.PickMeans | internal/rules/evaluate.go:239-242 | a selection holds exactly the values of the rows whose condition is true |
| SqlLogic.RepeatedMeans | internal/rules/evaluate.go:239-242 | HAVING count(*) > 1 keeps a value exactly when a second row yields it |
| SqlLogic.CountIsCardinality | internal/rules/evaluate.go:141-144 | count(*) is the number of rows whose condition is true |
| Profile.NonBlankMeansContent | internal/profile/column.go:69-79 | the non-blank predicate is two-valued and true exactly of cells with content |
| Profile.FoldedInMeans | internal/profile/column.go:113-121 | the placeholder predicate is unknown of NULL and otherwise decides membership of the folded text |
| Rules.FlawlessIsWellFormed | internal/rules/rules.go:191-273 | the ordered checks find no flaw exactly in a well-formed rule, and always one in a duplicate |
| Rules.FirstFlawIsNamed | internal/rules/rules.go:191-273 | exact: the flaw named is the first, in the order of the checks, of those the rule has |
| Rules.Validate | internal/rules/rules.go:188-273 | accepts exactly the files of well-formed rules with distinct ids, and otherwise names the first offender and its flaw |
| Rules.ComparableList | internal/rules/evaluate.go:319-334 | both sides of the list are folded together or not at all |
| Rules.AcceptedRulesCompile | internal/rules/evaluate.go:233-315 | every accepted rule with its values filled in compiles |
| Rules.OneOfMeans | internal/rules/evaluate.go:254-265 | membership in the compiled list is two-valued on a present cell and is equality up to folding |
| Rules.UniqueMeans | internal/rules/evaluate.go:239-242 | the compiled condition holds exactly when another row holds the same cell |
| Rules.ReferencesMeans | internal/rules/evaluate.go:288-303 | the compiled condition is true exactly when nothing matches and the referenced column holds no NULL |
| Rules.ValueExpectationMeans | internal/rules/evaluate.go:244-286 | the conditions on one value (positive, non-negative, matching, range, not future) mean what they declare, uncastable text included |
| Rules.CompiledMeansDeclared | internal/rules/evaluate.go:118-315 | main theorem: for every accepted rule but raw sql and every row of every table, the guarded predicate is TRUE exactly when the row breaks the declaration and is not exempt |
| Rules.GuardedMeans | internal/rules/evaluate.go:131-139 | allow_missing removes exactly the null, blank and placeholder rows |
| Rules.OrphanMeansUnmatched | internal/checks/relate.go:328-330 | the orphan predicate is TRUE exactly of a present value that matches no present parent value, NULLs or not |
| Evaluate.SqlColumn | internal/rules/evaluate.go:102-115 | the whole table when no column is named; otherwise the first column the rule reaches, and none exactly when it reaches none |
| Evaluate.SqlSitesAre | internal/rules/evaluate.go:36-63 | a raw sql rule is applied once at each table it reaches whose column it names, when it names one, is there, in the order of the tables and nowhere else |
| Evaluate.SqlCountsRows | internal/rules/evaluate.go:118-204 | what it reports at a table is how many rows its clause is TRUE of, on a column without the exempt ones |
| Evaluate.SqlRuleReports | internal/rules/evaluate.go:30-92 | the whole of what a raw sql rule reports: never applied exactly when it applies to no table, and otherwise those counts where there are any |
| Evaluate.ColumnRuleReports | internal/rules/evaluate.go:30-92 | the whole of what any other rule reports: never applied, or what applying it at each column it reaches reports |
| Evaluate.ReachedByEitherName | internal/rules/evaluate.go:35-69 | tables and columns are reached by either of their names, without stars by exactly those up to case |
| Evaluate.EvaluateOneCountsBreakingRows | internal/rules/evaluate.go:118-204 | a column rule is invalid exactly when the table it refers to is missing, or the column is both there and in its own table; with the column in its own table only, it counts the rows that differ from that one; it reports nothing over a NULL reference; and otherwise it counts exactly the rows breaking the declaration |
| Evaluate.MissingReferenceIsReportedIff | internal/rules/evaluate.go:146-158 | a reference to what is not there is reported as invalid if and only if the rule's own table has no column of that name |
| Evaluate.OwnColumnCaptured | internal/rules/evaluate.go:288-303 | where that column is the rule's own, nothing is reported if the referenced table has rows, and every row with content if not |
| Evaluate.DanglingReferencePasses | internal/rules/evaluate.go:288-303 | two tables and a rule with a dangling reference that passes |
| Evaluate.OwnColumnOnly | internal/rules/evaluate.go:233-315 | only a references rule can be invalid for a table or column it names elsewhere |
| Evaluate.SitesMeans | internal/rules/evaluate.go:36-75 | a column rule is applied at exactly the columns its globs reach |
| Evaluate.ColumnSitesAt | internal/rules/evaluate.go:65-75 | at one table a rule is applied once at each column it reaches, in their order |
| Evaluate.NeverAppliedIff | internal/rules/evaluate.go:77-92 | a rule is reported as never applied exactly when no column of any table is one it reaches |
| Evaluate.RunColumns | internal/rules/evaluate.go:65-75 | the columns loop applies the rule at the sites in order and stops at the first error |
| Evaluate.RunOneRule | internal/rules/evaluate.go:32-93 | the tables loop for one rule computes its specification, `applied` included |
| Evaluate.EvaluateAll | internal/rules/evaluate.go:19-95 | all rules in order, up to the first error |
| Materialize.CurrentValues | internal/rules/materialize.go:66-140 | reads the values a rule's globs reach, refusing in the order of the code; Materialize.ResolvedExactly says when and why |
| Materialize.ResolvedExactly | internal/rules/materialize.go:42-140 | exact: each refusal by its own condition on the cells reached, so that a rule is resolved if and only if its globs reach a column, the query does not fail, and what they hold has from 1 to 50 keys, no least spelling longer than 120 |
| Materialize.ResolvedListIs | internal/rules/materialize.go:95-103 | the list is the least spelling of every key held, in strictly increasing order, and nothing else of the rule has changed but its source |
| Materialize.ContentReachedMeans | internal/rules/materialize.go:73-94 | what is held is every cell with content of a column the globs reach |
| Materialize.Materialize | internal/rules/materialize.go:42-63 | resolves the rules in place; a refusal leaves the earlier ones resolved and the others untouched |
| Materialize.QueryMeans | internal/rules/materialize.go:88-103 | the grouped query returns one value per key, each from the source, and no key is missing |
| Materialize.ResolvedRuleIsReadable | internal/rules/materialize.go:66-140 | a resolved rule is a well-formed rule of 1 to 50 short values, no two alike, each held where it reaches |
| Materialize.ResolvedRuleHolds | internal/rules/materialize.go:35-63 | a resolved rule has no violation on any column it reaches, with or without ignore_case |
| Materialize.ResolvingAgainIsNoOp | internal/rules/materialize.go:39-47 | a second materialization changes nothing, whatever the data has become |
| Materialize.EveryPermittedValueIsNeeded | internal/rules/materialize.go:78-103 | the list is minimal: without any one value some row it was read from breaks the rule |
| Glob.MatchGlob | internal/rules/rules.go:279-314 | the greedy loop decides exactly the declarative reading of `*` on lower-cased text |
| Glob.PlaceParts | internal/rules/rules.go:289-313 | placing the parts leftmost-first decides the pattern |
| Glob.LeftmostSuffices | internal/rules/rules.go:304-310 | the exchange argument: if the parts can be placed at all, they can with the first at its leftmost occurrence |
| Glob.MatchesByParts | internal/rules/rules.go:289-290 | a pattern matches exactly when its parts between stars can be placed in order |
| EventFeed.ActiveRun.Subscribe | internal/api/runner.go:53-72 | backlog and channel come from one moment; after the end there is a backlog and no channel |
| EventFeed.ActiveRun.Unsubscribe | internal/api/runner.go:74-81 | closes a channel only if it is still subscribed |
| EventFeed.ActiveRun.Publish | internal/api/runner.go:83-102 | numbers the event by its place in history and offers it to every open channel without blocking; nothing after the end |
| EventFeed.ActiveRun.Close | internal/api/runner.go:106-117 | closes every subscribed channel once and drops nothing buffered |
| EventFeed.Perform | internal/api/runner.go:53-117 | every operation of the class, and every receive, takes the abstract feed where its transition says |
| EventFeed.AlwaysSound | internal/api/runner.go:53-117 | in every interleaving what reaches a subscriber is increasing, from history at its own position, after the backlog, never repeated |
| EventFeed.BacklogThenUpdatesIncrease | internal/api/runner.go:53-72 | backlog followed by updates has strictly increasing Seq |
| EventFeed.ReachedGrows | internal/api/runner.go:53-117 | what has reached a subscriber is never taken back, and later arrivals are later in history |
| EventFeed.MissedOnlyWhenFull | internal/api/runner.go:61-66 | a subscriber misses an event for good exactly when 64 were unread as it was published |
| EventFeed.ClosedIsFinal | internal/api/runner.go:86-117 | after the end nothing is published and no channel is left to close |
| EventFeed.BacklogIsTheHistoryThen | internal/api/runner.go:53-72 | backlog and updates leave no gap: the backlog is the history at the moment of subscribing, whatever follows |
| EventFeed.UnsubscribeEnds | internal/api/runner.go:74-81 | what is unsubscribed gets nothing more |
| EventStream.TakeFrames | web/src/api.ts:722-739 | the inner loop hands over every complete frame and keeps the rest |
| EventStream.StreamRun | web/src/api.ts:711-741 | however the response is cut, events and buffer are those of the concatenation |
| EventStream.DrainOn | web/src/api.ts:717-741 | reading on from the buffer equals having read everything at once |
| EventStream.BodyIsFrameData | internal/api/events.go:116-118 | the parser recovers a printed payload exactly |
| EventStream.DataLinesAre | web/src/api.ts:726-730 | a frame's data is every line marked as data, trimmed, in order |
| EventStream.TrimMeans | web/src/api.ts:729 | trimming takes all white space off both ends and nothing else |
| EventStream.PrintedIsDelivered | internal/api/events.go:109-121 | everything printed is delivered, in order, with an empty buffer at the end |
| EventStream.PartialFrameWaits | web/src/api.ts:719-720 | a frame still arriving delivers nothing and stays in the buffer |
| EventStream.DeliveredSoFar | web/src/api.ts:711-741 | at every point of the stream the first k payloads are delivered and the buffer is exactly the printed text after them |
| RunLifetime.Store.Execute | internal/runs/runs.go:74-171 | on each exit path the order of store writes, the final status and the error |
| RunLifetime.TrailEndsOnce | internal/runs/runs.go:74-171 | a started run gets exactly one further status, a terminal one, and success only after the engine is closed |
| RunLifetime.OutcomeMeans | internal/runs/runs.go:96-155 | which way out ends with which status |
| RunLifetime.TrailHolds | internal/runs/runs.go:112-171 | the engine is closed exactly when the audit returned, canceled or not, and before the status; proposals and the trace are saved exactly by a run that succeeded and has them, after the status and in that order |
| RunLifetime.ExecuteIsAPath | internal/runs/runs.go:74-171 | each execution is a run of the interleaving model, ending in the same status |
| RunLifetime.AlwaysSound | internal/api/runner.go:164-213 | in every interleaving with cancellations and other processes a recorded outcome is terminal, the active map is right and the stream closes last |
| RunLifetime.ClosedMeansOver | internal/api/runner.go:198-204 | a closed stream means the run is out of the active map with a terminal status, and every outcome read after it was terminal |
| RunLifetime.TerminalForGood | internal/store/runs.go:239-363 | once recorded, the status is never non-terminal again |
| RunLifetime.OutcomeStandsExactly | internal/api/runs.go:284-301 | exact: a recorded outcome is never replaced if and only if it is failed or no cancel request is between its look and its answer |
| RunLifetime.LateCancelOverwrites | internal/api/runs.go:284-301 | a run on which a late cancellation replaces "succeeded" by "failed" |
| RunLifetime.EveryPathCloses | internal/api/runner.go:182-204 | until the stream is closed the run's own goroutine can always take a step, each brings the end nearer, and nobody sets it back |
| Findings.FindingSet.Add | internal/finding/finding.go:203-216 | keeps index and items in agreement and the list as the specification says |
| Findings.FindingSet.AddAll | internal/finding/finding.go:219-223 | adds in order |
| Findings.FindingSet.Verify | internal/finding/finding.go:279-311 | keeps and drops as specified, in order, and rebuilds the index |
| Findings.FindingSet.Reindex | internal/finding/finding.go:313-318 | rebuilds the index from distinct items |
| Findings.BestMeans | internal/finding/finding.go:203-216 | the reference choice is the first of the most severe findings about a key |
| Findings.AddingKeepsBest | internal/finding/finding.go:194-216 | adding any findings one by one keeps exactly that choice for every key |
| Findings.SetHoldsBestSinceVerify | internal/finding/finding.go:194-318 | under any sequence of Add and Verify keys are unique and each holds the first most severe finding since the last Verify |
| Findings.NoPlaceTwice | internal/finding/finding.go:172-176 | no two findings in the set share rule, table, column and line |
| Findings.BestOfPlaceHeld | internal/finding/finding.go:172-217 | of each such place the set holds the first of the most severe findings since the last Verify |
| Findings.KeptMeans | internal/finding/finding.go:279-311 | what is kept is in order, with the engine's count, and nothing that stands is missing |
| Findings.DroppedMeans | internal/finding/finding.go:279-311 | what is dropped is in order, as checked, and nothing that falls is missing |
| Findings.VerifyPartitions | internal/finding/finding.go:279-311 | kept and dropped are the findings that stand and those that do not, each in order and as checked; a kept finding with a query carries the engine's count and is verified; only an engine error, or a zero against a claim, drops one |
| Findings.VerifyTwiceIsOnce | internal/finding/finding.go:279-311 | verifying again against the same answers keeps everything as it is |
| Compare.CompareFindings | internal/report/compare.go:220-295 | what is returned: the deltas and the leftovers in any order of the map, sorted; with distinct ids exactly the deltas, each once, and a patch if and only if no finding was silently given a severity; with all findings on one line number the order does not depend on the map |
| Compare.ForwardPass | internal/report/compare.go:226-277 | the loop over the new report lists and counts, and leaves the unmatched baseline |
| Compare.TakeLeftovers | internal/report/compare.go:279-291 | one resolved delta for each unmatched baseline finding, in any order |
| Compare.SortOrders | internal/report/compare.go:297-319 | the sorted list is ordered and a permutation |
| Compare.OrderedReads | internal/report/compare.go:297-330 | an ordered list has the new first, then worsened, resolved, improved, unchanged; within each errors, then warnings; within a severity by rule, table and column |
| Compare.OrderIsUnique | internal/report/compare.go:297-319 | without ties there is only one order |
| Compare.ListedInAnyOrder | internal/report/compare.go:279-294 | with distinct ids the returned list is exactly the deltas, each once, in whatever order the map gives up its leftovers |
| Compare.LeftoversInAnyOrder | internal/report/compare.go:279-319 | with all findings on one line number the sorted list does not depend on map order |
| Compare.DeltasExactly | internal/report/compare.go:220-295 | a delta is listed exactly when it is what the two reports say about its id |
| Compare.DeltaSays | internal/report/compare.go:226-291 | a listed delta describes the new finding, or the baseline's if that is gone, with both counts and the severity it moved from, and its status is what they make it |
| Compare.DeltasPatchBaseline | internal/report/compare.go:220-295 | exact: the deltas, in any order, patch the baseline into the new report if and only if no finding was silently given a severity |
| Compare.SortedDeltasPatchBaseline | internal/report/compare.go:220-319 | on readable reports the sorted list is such a patch |
| Compare.EmptySeverityIsMissed | internal/report/compare.go:265-274 | a pair of reports the deltas do not patch |
| Compare.SwapMirrors | internal/report/compare.go:244-260 | swapping the reports swaps new with resolved and worsened with improved, exact up to the same exception |
| Compare.SummaryPartitions | internal/report/compare.go:220-295 | the counts partition both reports, and swapping the reports swaps them |
| Compare.TallyCounts | internal/report/compare.go:244-260 | each count is the number of ids in its group |
| Compare.NewSeveritiesCounted | internal/report/compare.go:245-253 | new errors and new warnings are those the baseline does not have |
| MissingValues.StandsOut | internal/checks/column.go:150-163 | true exactly when no value that is not itself a magic number is as frequent |
| MissingValues.CountsMeans | internal/checks/column.go:104-163 | a placeholder counts if it is text, or as frequent as no ordinary value, or negative in a column of numbers none of which is negative unless a magic number itself |
| MissingValues.WrongSideOfZeroMeans | internal/checks/column.go:104-137 | the last of these, from the column's own cells |
| MissingValues.CheckMissingValues | internal/checks/column.go:208-300 | claims and stays silent exactly as the counts and thresholds say, and its evidence lists exactly the counted placeholders |
| MissingValues.EvidenceMeans | internal/checks/column.go:264-271 | the evidence is TRUE exactly of a null, blank or counted placeholder cell |
| MissingValues.EvidenceCountsMissing | internal/checks/column.go:264-297 | nulls, blanks and listed placeholder groups are disjoint and sum to the evidence query's count |
| MissingValues.ClaimIsEvidenceCount | internal/checks/column.go:208-300 | on every profiled column the claimed count is what the evidence query returns |
| MissingValues.VerifyKeepsClaim | internal/finding/finding.go:279-311 | so Verify keeps the finding and its number |
| Retention.RunStore.List | internal/store/runs.go:479-506 | lists exactly the discardable runs, each once |
| Retention.RunStore.Discard | internal/api/scheduler.go:214-253 | the loop handles each listed run as specified whichever deletions and writes fail: files are gone exactly of the listed runs the server wrote whose deletion went through, paths are cleared exactly where removal and recording both did, and nothing else changes |
| Retention.DiscardIsARun | internal/api/scheduler.go:214-253 | left undisturbed, it is one run of the interleaving model, so what is proved of every run holds of it |
| Retention.DiscardableMeans | internal/store/runs.go:479-506 | exactly what may go: a run with a database, finished before the cutoff, with a later run of its dataset that has one too |
| Retention.NewestHolding | internal/store/runs.go:486-487 | the most recently created run of the dataset that holds a database |
| Retention.NewestIsNotListed | internal/store/runs.go:479-506 | a listed run has a later run of its dataset with a database |
| Retention.AlwaysSound | internal/api/scheduler.go:214-253 | every interleaving of creating, finishing, deleting datasets and discarding keeps the invariant: who still has path and files, who lost them, and why |
| Retention.NewestDatabaseIsKept | internal/api/scheduler.go:214-253 | each run given a path keeps it, and the files it wrote, unless a later run of its dataset was given one; a run that lost its path had been recorded as finished before the cutoff of one of the sweeps, and the files the server wrote are gone |
| Retention.NewestWrittenIsKept | internal/store/runs.go:466-506 | in every interleaving the newest database written is still there unless a later run was given a path and has written nothing |
| Retention.NewestWrittenIsListedIff | internal/store/runs.go:479-506 | exact: a sweep lists the newest database written if and only if it is old enough and a later run holds a path where it wrote nothing |
| Retention.EmptyRunTakesItsPlace | internal/store/runs.go:466-506 | two runs, a sweep, and the only readable database gone |
| Retention.FailedDiscardIsListedAgain | internal/api/scheduler.go:231-249 | what could not be deleted or recorded is listed again by any later sweep |
| AgentLoop.InvokeAll | internal/agent/agent.go:283-320 | one result for each call, same id, same place, the bytes the trace records |
| AgentLoop.ToolCallsAre | internal/agent/llm/llm.go:104-113 | an answer's calls are every tool use in it, each as often as it occurs, in order |
| AgentLoop.TextIsJoined | internal/agent/llm/llm.go:90-102 | its text is its prose on lines of their own |
| AgentLoop.LastThoughtMeans | internal/agent/agent.go:241-245 | and its thinking the last thought that says anything |
| AgentLoop.WhatCounts | internal/agent/llm/llm.go:169-179 | which tokens count towards a budget: each billed one once, reasoning not at all |
| AgentLoop.Run | internal/agent/agent.go:164-327 | the loop's trace and conversation are a complete run: every turn permitted, answered and recorded, and stopped for a reason that holds |
| AgentLoop.WithinStepBudget | internal/agent/agent.go:186-195 | at most MaxSteps recorded steps, numbered from one |
| AgentLoop.CorrectedAtMostOnce | internal/agent/agent.go:182-270 | at most one step carries a correction |
| AgentLoop.Alternates | internal/agent/agent.go:164-327 | user and assistant alternate, the user first |
| AgentLoop.ToolTurnsAreAnswered | internal/agent/agent.go:249-326 | an answer that uses tools is followed by exactly their results: for its i-th use the i-th result carries its id, and the step records the call and the same bytes |
| AgentLoop.OtherTurnsEnd | internal/agent/agent.go:252-281 | an answer that uses none is the last word unless it is corrected |
| AgentLoop.WithinTokenBudget | internal/agent/agent.go:196-201 | usage is the sum over recorded steps, and passes the budget by less than the last answer cost, plus one |
| AgentLoop.TokenBudgetIsSpent | internal/agent/agent.go:196-201 | a run stopped for its token budget has one and has spent it |
| AgentLoop.RunIsDetermined | internal/agent/agent.go:186-327 | the same surroundings give the same trace and conversation |
| AgentLoop.Complete | internal/agent/agent.go:359-413 | at most three attempts, all before the last failed for the moment only, never again after an expired deadline, and what each way of ending says of the last attempt |
| Redact.ShapeText | internal/agent/redact/shape.go:16-32 | the character loop computes the shape |
| Redact.ShapeMeans | internal/agent/redact/shape.go:16-32 | a shape is as long as its text, its own shape, and keeps no digit but 9, letter but X or space but the blank |
| Redact.UnmarkMark | internal/agent/redact/redact.go:207-213 | unmarking a marked shape gives it back, whatever it is |
| Redact.KnownMeans | internal/agent/redact/redact.go:329-340 | known means written in the statement between quotes; a value it holds without them is withheld |
| Redact.WithheldMeans | internal/agent/redact/redact.go:166-205 | what stands for a withheld value: its shape in marks, or the first characters of it and an ellipsis |
| Redact.Guard.Shape | internal/agent/redact/redact.go:166-181 | shapes, cuts and marks, and counts what it did |
| Redact.Guard.ScrubQuoted | internal/agent/redact/redact.go:348-372 | ends, and computes the scrubbed message and the counters |
| Redact.PartsAssemble | internal/agent/redact/redact.go:348-372 | taking a message apart at its quoted literals loses nothing |
| Redact.PartsOfAssembled | internal/agent/redact/redact.go:348-372 | putting parts together and taking them apart gives them back |
| Redact.OutsideIsKept | internal/agent/redact/redact.go:330-340 | the scrubbed message has the same text outside its quotes and only rendered literals inside them |
| Redact.ScrubTellsExactly | internal/agent/redact/redact.go:341-372 | two messages scrub to the same text if and only if their outside text and their rendered literals are the same |
| Redact.NothingElseEscapes | internal/agent/redact/redact.go:322-372 | noninterference: messages with the same outside text that differ only inside unknown literals of equal shapes scrub to the same text |
| Redact.ShownIsAllThatShows | internal/agent/redact/redact.go:348-372 | of two unknown values of one shape in one place, after any text, the messages scrub to the same text exactly when the values show the same pieces between their apostrophes |
| Redact.WithheldExactly | internal/agent/redact/redact.go:318-372 | exact, after any text: an unknown value is withheld, its message telling its shape only, if and only if nothing but punctuation follows an odd number of apostrophes, those before it counted |
| Redact.ApostropheShowsTheRest | internal/agent/redact/redact.go:348-372 | what follows an apostrophe in a value is shown |
| Redact.ApostropheBeforeShowsAll | internal/agent/redact/redact.go:348-372 | after one apostrophe in the text before it, a value without any is shown whole |
| Redact.SurnameAndMessage | internal/agent/redact/redact.go:348-372 | two messages, written out, that tell more than the shape of a value |
| Redact.EchoIsUnchanged | internal/agent/redact/redact.go:329-340 | the statement echoed back is returned as it was written |
| Scoring.ScoreRun | internal/eval/score.go:150-195 | detected, missed and unclassified are those of the specification crediting, and the deterministic half that of the specification checks |
| Scoring.ScoreChecks | internal/eval/score.go:43-75 | the loops compute the fate of each defect and the clean places that were flagged |
| Scoring.FatesPartition | internal/eval/score.go:43-75 | each defect is in exactly one of found, missed, converted and uncovered |
| Scoring.FatesMean | internal/eval/score.go:43-75 | which fate a defect has, in terms of the findings |
| Scoring.FirstFit | internal/eval/score.go:157-169 | the first unclaimed agent finding that measures the target, or none exactly when there is none |
| Scoring.CreditingIsMaximal | internal/eval/score.go:150-178 | crediting is one to one, every credit measures its target, and no missed target has an unclaimed fitting finding |
| Scoring.CreditIsEarned | internal/eval/score.go:157-169 | a credit is for an agent's finding at the target's place or of its whole table, with its count or an equivalent one |
| Scoring.CoversMeans | internal/eval/score.go:497-516 | one way only: a finding that names a column covers that column alone, one that names none every column of its table |
| Scoring.UnclaimedAre | internal/eval/score.go:172-176 | what is left unclassified: the unclaimed agent findings, all, in order |
| Scoring.CoveringRuleMeans | internal/eval/score.go:177-182 | a claim names the rule of the first deterministic defect that lies where it does |
| Scoring.KnownNoiseMeans | internal/eval/score.go:183-188 | and the reason of the first noise entry of its place and count |
| Scoring.CreditsAccountForAll | internal/eval/score.go:150-195 | credited plus unclassified agent findings are all of them, detected plus missed targets are all of them |
| Scoring.ScoresAreAgainstTargets | internal/eval/score.go:150-195 | a score names targets only, each detected one once |
| Scoring.Aggregate | internal/eval/score.go:358-399 | how many scorable runs found each target; the checks of the first completed run, called unstable exactly when a later one has other sizes |
| ChecksAgreement.AllOrNoneSettles | internal/eval/score.go:412-418 | if all or none were found and all or none flagged, equal sizes are equal lists |
| ChecksAgreement.StableRunsAgree | internal/eval/score.go:358-418 | so a scorecard with such lists that calls the checks stable is right about every completed run |
| ChecksAgreement.SizesSettleExactly | internal/eval/score.go:412-418 | exact: in a manifest that names no rule and place twice, the sizes decide the lists if and only if all or none were found and all or none flagged |
| ChecksAgreement.DifferentChecksPassForSame | internal/eval/score.go:412-418 | two planted defects and two passes that differ and are called stable |
| Scoring.HitsAreDetections | internal/eval/score.go:380-397 | hits counted target by target equal detections counted run by run |
| Scoring.MeanRecall | internal/eval/score.go:237-251 | the mean over scorable runs |
| Scoring.CoverageOf | internal/eval/score.go:298-309 | the share of targets with a hit |
| Scoring.CoveredAre | internal/eval/score.go:298-309 | coverage counts exactly the targets some run that counts detected |
| Scoring.MeanRecallOf | internal/eval/score.go:318-355 | the mean over the wanted targets, runs without any left out |
| Scoring.OneRunsMean | internal/eval/score.go:318-355 | over one run: the share of the wanted targets that was detected |
| Scoring.MeansCombine | internal/eval/score.go:318-355 | over more: the mean of the parts' means, weighed by the runs that count in each |
| Scoring.LeftOutOfMeans | internal/eval/score.go:109-135 | a run that failed or was stopped by its provider or a cancellation changes no mean, wherever it stands |
| Scoring.SubsetMeansDiffer | internal/eval/score.go:311-355 | a run whose mean over a strict subset of targets is not its mean over all |
| Scoring.MeanOverAllTargets | internal/eval/score.go:311-355 | over all the targets it is the overall mean recall |
| Scoring.MeanRecallWithinCoverage | internal/eval/score.go:216-309 | mean recall is at most coverage |

## Left out

- DuckDB, SQLite, JSON, YAML, Excel and MCP internals: tables are sequences, the stores are maps and sequences, encodings are assumed to be readable back.
- HTTP routing, authentication, screens, flags, configuration, telemetry and notifications.
- Redact.Guard.Shape: its limit is counted in characters where the program counts bytes and can cut a rune in two; text is a sequence of characters throughout.
- Floating point: shares, recalls, bounds and casts are real numbers; rounding, NaN and infinities are not modelled.
- Calendar dates: days are numbered, weekdays are taken modulo 7.
- Concurrent edits of a schedule during a sweep: a sweep is one step. Writes of ScheduleFired are assumed to succeed, and in the lifetime of a run those of StartRun and StopRun.
- Order by the stored text of instants: due and creation instants are compared as numbers.
- Rules.CompiledMeansDeclared: says nothing of raw sql clauses, whose meaning is the engine's; ignore_case assumes that Go's and the engine's lower and trim agree.
- Evaluate.EvaluateOneCountsBreakingRows: of the statements an engine rejects only those naming a missing table or column are modelled; a malformed regular expression or clause is not. Names are compared as written, and a table's name is not read as a column.
- Findings.SetHoldsBestSinceVerify: of a finding's prose only a title is kept; the separators of its key are assumed not to occur in the parts.
- EventFeed.Perform: a receive is a step of its own; goroutine scheduling and memory are not modelled.
- RunLifetime.ClosedMeansOver: covers the closed-channel path; on the path without an active run the event carries a run read before the lookup, which can be stale.
- Redact.NothingElseEscapes: literals are what lies between paired single quotes, as in the code; Redact.WithheldExactly says what that means for a value.
- AgentLoop.Run: the egress guard, the tools and the test for a written call are functions; findings and proposals a tool records are not followed.
- Scoring.ScoreRun: the trace of a run is kept only as how it stopped; what it cost is not followed.
- Table and column differences of two reports, thresholds of regression, type inference, statistical checks, joins proposed between tables: they would add easier members of the kinds already here, or are heuristics.
