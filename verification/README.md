# Verified models of the SoundCloud backend

Dafny models of the parts of the backend whose correctness rests on reasoning over several steps:
the migration rewriter of the replication tooling, the delivery contract of the worker lanes, the
gateway, the jobs process and the string normalisations they share. `dafny verify dfyconfig.toml`
checks everything.

| file | what it models |
|---|---|
| `TriggerInstall.dfy` | recognising trigger units in an install text and replacing unchanged ones by guarded calls |
| `TriggerDatabase.dfy` | running install texts against a table of triggers; histories of installs and manual changes |
| `MessageId.dfy` | the id of a worker result, built by four successive replacements |
| `WorkerDelivery.dfy` | backoff, retry windows, and the deduplicating result stream |
| `Fingerprint.dfy` | the normalised text an error fingerprint is taken of |
| `SetColumns.dfy` | the scanner that reads the columns of a SET list |
| `GatewayRoutes.dfy`, `GatewayHeaders.dfy` | the route table and the header pipeline of the gateway |
| `SchedulerHealth.dfy` | scheduler retries and the readiness they feed |
| `Supervisor.dfy` | shutdown and draining of supervised tasks |
| `VectorStore.dfy` | versioned vector collections behind an alias |
| `MetricsLabel.dfy` | escaping of metric label values |
| `CatalogIds.dfy` | catalog identifiers, deduplication keys, failure codes |
| `Text.dfy`, `Numbers.dfy` | library operations the above use |

## Main results

- **Install histories.** Along every sequence of installs and manual drops and mode changes, from
  every table, the shipped (rewritten) installs leave the same triggers, statements and modes as the
  installs they were rewritten from (`ShippedHistoryIsPlain`). For one install whose other statements
  spare its own triggers, as `drop_stale` at its end does, the exact condition is proved both ways
  (`RewriteKeepsTableIff`), the table it leaves is given trigger by trigger, stale ones gone
  (`InstallConverges`), and so is what the rewrite is for: the units of a shipped install lock a
  table exactly when a trigger there is new, changed, missing or in another mode
  (`OnlyChangedTablesAreLocked`). Recognising and rewriting are tied to the printed text line by line
  (`PrintedInstallIsRecognised`, `ShippedInstallIs`), and what is changed by hand is repaired by the
  next install (`DriftIsRepaired`).
- **Every result stored once.** However the runs of all worker tasks interleave, each published
  result is stored exactly once: the duplicate window covers every legal run, and ids are injective
  (`EveryResultStoredOnce`). Any narrower window stores some result twice (`NarrowWindowStoresTwice`),
  and any correlation that names a placeholder costs a result (`UncleanResultIsLost`).
- **Fingerprints.** Digit runs, build hashes and frames below the third never change the basis of a
  fingerprint, and nothing else is forgotten: without `#` and `|` in the fields, two reports share a
  basis exactly when they agree in the rest (`BasisIff`, `RequestBasisIff`, `PlaybackBasisIff`).
- **SET lists.** The scanner inverts printing exactly when no column after the first is named
  `where`, `from` or `returning`.
- **Gateway.** Lookup equals a simple rule for every accepted table; sanitizing is characterised name
  by name and idempotent; in every forwarded request the host is the one it was routed by, the client
  address stands last, and every other header is accounted for (`Handle`).
- **Readiness.** After every history of reports the process is ready exactly when the last report of
  each kind says so and the scheduler succeeded recently (`Replay`). From the fifth failure in a row
  until the next success it is not ready, on every run and for every jitter seed; the fourth failure
  is not enough.
- **Alias safety.** After every sequence of calls, with any store call failing or half succeeding,
  the alias stays set and names a usable collection. The same holds for every interleaving of any
  number of calls in which no drop and no re-point of one collection overlap, and an access that
  starts such an overlap always has a continuation that loses the collection (`ApartIsExact`).

## Where the code falls short of what one would expect

Each has the exact condition as a lemma; for bars in fingerprints the condition is sufficient only.

- A trigger or table name with a quote is doubled by `lit` when a unit is kept, and `KEPT` cannot read
  it back: the next install writes that unit out again (`ReadBack`, `KnownSurvives`,
  `ExpandUndoesRewrite`, `QuotedNameIsForgotten`). The trigger table is not affected.
- A trigger line whose text after FOR EACH holds another matching ON clause is read as a trigger of
  the table named there (`PrintedTriggerIsRecognised`, `LaterClauseMisleads`).
- A bar in a message can pass for the one before the frames of a fingerprint's basis (`BasisIff`,
  `BarsCollide`).
- A correlation that contains `{task_seq}` or `{status}` is rewritten by the later replacements, and
  shares its id with a correlation that contains neither; among those that contain neither, ids are
  distinct (`SequentialIsSimultaneous`, `PlaceholderCollides`, `IdsAreInjective`).
- `delay_s` differs from the unbounded backoff at one point: base 1, delivery 64, cap above 2^63
  (`DelayIsBackoff`).
- `set_columns` stops at a later column named like a terminator (`ScanInvertsPrinting`). This is about
  the text alone: PostgreSQL takes such a name only in quotes.
- A task failure seen within the shutdown grace period is lost when the period then runs out, because
  the second phase starts from no failure; when no two tasks fail alike, exactly then
  (`DrainReportsFirstFailure`, `GraceFailureForgotten`).
- An upgrade request whose Connection header lists `connection` loses that header
  (`UpgradeSurvives`).
- A response keeps the headers its Connection header lists (`ListedResponseHeaderPasses`); it comes
  out as sanitizing would leave it exactly when every listed header it carries goes anyway
  (`CleanedIsSanitized`).
- `drop_versioned_collection` looks at the alias before it deletes, so a re-point in between leaves
  the alias without a collection (`OverlapLosesAlias`, `ApartIsExact`).

## Model

| member | source | states |
|---|---|---|
| `TriggerInstall.LastOnIsLast` | ops/replication/gen_install.py:11 | the ON clause found is the rightmost one that matches up to the end of the line, and none is found exactly when none matches |
| `TriggerInstall.ClauseReads` | ops/replication/gen_install.py:11 | only a clause with a named table, FOR EACH and a closing semicolon matches |
| `TriggerInstall.CreateReads` | ops/replication/gen_install.py:11 | only a line of the keyword, a name and a text with such a clause is recognised |
| `TriggerInstall.PrintedTriggerIsRecognised` | ops/replication/gen_triggers.py:84-91 | of every printed line exactly the printed trigger is read, and the printed table unless the text after FOR EACH holds another matching ON clause, which then gives the table |
| `TriggerInstall.LaterClauseMisleads` | ops/replication/gen_install.py:11 | for every pair of tables, a line on which the later clause wins |
| `TriggerInstall.PrintedInstallIsRecognised` | ops/replication/gen_triggers.py:84-91 | from every printed install exactly the printed triggers are recognised, in order, each with its replica flag; the ALTER line counts only when it names the table that was read |
| `TriggerInstall.ShippedInstallIs` | ops/replication/gen_install.py:74-81 | the shipped text of every printed install, item by item: the literal guarded call with its flag for a known trigger, the printed lines otherwise, other lines unchanged |
| `TriggerInstall.ReadBack` | ops/replication/gen_install.py:12 | a guarded call is read back as the unit it was written for exactly when both names are free of quotes, and not at all otherwise |
| `TriggerInstall.KeptReads` | ops/replication/gen_install.py:12 | only the guarded call of a unit with quote-free names is read at all |
| `TriggerInstall.UnitsOfRewrite` | ops/replication/gen_install.py:74-81 | the rewritten text writes out exactly the units that were not known |
| `TriggerInstall.CallsOfRewrite` | ops/replication/gen_install.py:74-81 | its guarded calls are exactly those of the known units |
| `TriggerInstall.KnownOfRewrite` | ops/replication/gen_install.py:71-72 | what a rewritten install still knows, unit by unit |
| `TriggerInstall.KnownSurvives` | ops/replication/gen_install.py:71-79 | a rewritten install never knows more than its text did, and knows the same exactly when no swapped unit has a quote in a name |
| `TriggerInstall.RewriteAgainstRewritten` | ops/replication/gen_install.py:70-81 | rewriting against a rewritten install equals rewriting against the original |
| `TriggerInstall.ExpandUndoesRewrite` | ops/replication/gen_install.py:74-88 | writing every guarded call out as its unit gives the text back, exactly when no swapped unit has a quote in a name |
| `TriggerInstall.QuotedNameIsForgotten` | ops/replication/gen_install.py:72-79 | a concrete install that forgets a unit whose name has a quote |
| `TriggerDatabase.ReadCallBack` | ops/replication/gen_install.py:78-79 | SQL reads the arguments of a guarded call back whatever quotes the names hold |
| `TriggerDatabase.Database.Keep` | ops/replication/gen_install.py:48-67 | a trigger in the wanted mode is left alone with whatever statement it has; otherwise the statement of a recognised unit makes it anew in the wanted mode and nothing else changes |
| `TriggerDatabase.Database.Migrate` | ops/replication/gen_install.py:44-45 | running a text statement by statement gives the table the model of a run gives |
| `TriggerDatabase.KeepIsInstall` | ops/replication/gen_install.py:50-64 | keeping a trigger equals installing it when one skipped by the guard carries the same statement |
| `TriggerDatabase.RewriteKeepsTable` | ops/replication/gen_install.py:70-81 | the rewritten install leaves the table of the original, with any other statements in between that drop triggers or set modes |
| `TriggerDatabase.OutcomeAt` | ops/replication/gen_install.py:50-64 | the trigger a rewritten install leaves for each of its units, with any other statements that spare it |
| `TriggerDatabase.OutcomeElsewhere` | ops/replication/gen_install.py:74-81 | a trigger that neither units nor other statements touch stays as it is |
| `TriggerDatabase.RewriteKeepsTableIff` | ops/replication/gen_install.py:54-64 | with any other statements that spare the install's own triggers, original and rewritten install agree exactly when no skipped trigger carries another statement |
| `TriggerDatabase.DropStaleSpares` | ops/replication/gen_triggers.py:756-778 | dropping stale triggers is such a statement, and never changes one that stays |
| `TriggerDatabase.InstallConverges` | ops/replication/gen_triggers.py:756-778 | from every table, a shipped install that drops stale triggers leaves exactly its own triggers under generated names, each as its unit settles it, and every trigger that is neither generated nor its own as before |
| `TriggerDatabase.PrintedTriggerIsInstalled` | ops/replication/gen_install.py:50-64 | after every printed install each trigger carries its printed line, in replica mode exactly when printed so, and shipping the text again leaves it so |
| `TriggerDatabase.OnlyChangedTablesAreLocked` | ops/replication/README.md:38 | the units of a shipped install run trigger statements on a table exactly when one of its triggers there is new, changed, missing or in another mode, with any other statements that spare its triggers |
| `TriggerDatabase.RerunLocksNothing` | ops/replication/README.md:106 | right after an install, the units of what is shipped for the same text lock nothing, with any other statements that spare its triggers |
| `TriggerDatabase.InstallAgrees` | ops/replication/gen_install.py:84-88 | after an install every trigger of it that is present carries its statement |
| `TriggerDatabase.ShippedHistoryIsPlain` | ops/replication/gen_install.py:70-104 | along every history of installs, drops and mode changes the shipped installs leave the table of the unrewritten ones |
| `TriggerDatabase.DriftIsRepaired` | ops/replication/README.md:38 | after any drops and mode changes by hand the next shipped install of the same text restores every trigger, and its units lock exactly the tables that were changed |
| `TriggerDatabase.DuplicateNamesDiverge` | ops/replication/gen_install.py:54-61 | naming a trigger once per install is needed |
| `MessageId.IdInFields` | backend-contracts/src/worker_contract.rs:181-187 | the four replacements act field by field, and only the last two reach the correlation |
| `MessageId.SequentialIsSimultaneous` | backend-contracts/src/worker_contract.rs:181-187 | they equal one substitution exactly when the correlation contains neither later placeholder |
| `MessageId.SameIdIff` | backend-contracts/src/worker_contract.rs:181-187 | two results share an id exactly when lane, sequence and status agree and their correlations are rewritten to the same text, even with separators in them |
| `MessageId.CleanIdsDiffer` | backend-contracts/src/worker_contract.rs:33 | equal ids of correlations free of placeholders force equal results |
| `MessageId.IdsAreInjective` | backend-contracts/src/worker_contract.rs:33 | a result has its id to itself among the results free of placeholders exactly when its own correlation is free of them |
| `MessageId.PlaceholderCollides` | backend-contracts/src/worker_contract.rs:181-187 | every correlation with a placeholder shares its id with another one that has none |
| `WorkerDelivery.DelayS` | backend-contracts/src/worker_contract.rs:99-112 | the delay never exceeds the cap |
| `WorkerDelivery.DelayIsBackoff` | backend-contracts/src/worker_contract.rs:99-112 | saturating arithmetic equals the unbounded backoff except at one point |
| `WorkerDelivery.DelayGrows` | backend-contracts/src/worker_contract.rs:99-112 | the delay never decreases, and is positive when base and cap are |
| `WorkerDelivery.AttemptWindowS` | backend-contracts/src/worker_contract.rs:153-164 | the loop computes the closed sum of deliveries and delays |
| `WorkerDelivery.DoneDuplicateWindow` | backend-contracts/src/worker_contract.rs:346-358 | the result is the least whole number of hours that covers every lane |
| `WorkerDelivery.SlackIsSum` | backend-contracts/src/worker_contract.rs:157-162 | the latest start of each delivery as a closed sum |
| `WorkerDelivery.PublishBound` | backend-contracts/src/worker_contract.rs:146-164 | every publish of every legal run falls in the attempt window |
| `WorkerDelivery.PublishBeforeQuarantine` | backend-contracts/src/worker_contract.rs:166-171 | nothing is published later than `quarantine_after_s` after enqueueing |
| `WorkerDelivery.StoredCoversLog` | backend-contracts/src/pipeline.rs:666-674 | no id that arrives is missing from the stream |
| `WorkerDelivery.StoredOncePerId` | backend-contracts/src/pipeline.rs:666-674 | no id is stored twice when its arrivals lie within the window |
| `WorkerDelivery.EveryResultStoredOnce` | backend-contracts/src/worker_contract.rs:146-188 | over every interleaving of legal runs each published result is stored exactly once |
| `WorkerDelivery.NarrowWindowStoresTwice` | backend-contracts/src/worker_contract.rs:346-358 | any narrower window admits a legal run that stores one result twice |
| `WorkerDelivery.UncleanResultIsLost` | backend-contracts/src/worker_contract.rs:181-187 | for every correlation with a placeholder and every window, a result that is not stored because another one has its id |
| `WorkerDelivery.DeployedWindows` | backend-contracts/src/worker_contract.rs:716-738 | for every deployed lane the formulas give exactly the attempt window and quarantine age of the design's table, and only the lane without backoff has none |
| `WorkerDelivery.DeployedWindow` | backend-contracts/src/pipeline.rs:666-675 | the deployed window is twelve hours, inside the retention of three days |
| `Fingerprint.NumberedText` | backend-contracts/src/diag_fingerprint.rs:34-49 | the loop replaces every run of digits by one `#` |
| `Fingerprint.DigitsDoNotCount` | backend-contracts/src/diag_fingerprint.rs:34-49 | any run of digits may be swapped for any other |
| `Fingerprint.NumberedIsIdempotent` | backend-contracts/src/diag_fingerprint.rs:34-49 | a second pass changes nothing |
| `Fingerprint.OnlyDigitsAreForgotten` | backend-contracts/src/diag_fingerprint.rs:34-49 | texts without `#` agree exactly when they differ in digit runs only |
| `Fingerprint.Unhashed` | backend-contracts/src/diag_fingerprint.rs:61-78 | the loop terminates and cleans every asset name |
| `Fingerprint.NameStart` | backend-contracts/src/diag_fingerprint.rs:66-68 | the file name starts right after the last separator |
| `Fingerprint.Stem` | backend-contracts/src/diag_fingerprint.rs:69-70 | the name is cut at its last dash |
| `Fingerprint.WithoutHashDropsHash` | backend-contracts/src/diag_fingerprint.rs:65-72 | exactly the last dash and the hash after it are dropped |
| `Fingerprint.UnhashLast` | backend-contracts/src/diag_fingerprint.rs:64-76 | what the first asset name and the text after it become |
| `Fingerprint.UnhashKeepsPlain` | backend-contracts/src/diag_fingerprint.rs:61-78 | a frame without a dash is kept |
| `Fingerprint.UnhashKeepsName` | backend-contracts/src/diag_fingerprint.rs:66-70 | a file name without a dash is kept whatever dashes stand before the last of the four separators |
| `Fingerprint.HashDoesNotCount` | backend-contracts/src/diag_fingerprint.rs:61-78 | the hash of an asset name anywhere in a frame may be swapped |
| `Fingerprint.FramesAreTheFirst` | backend-contracts/src/diag_fingerprint.rs:51-59 | the frames kept are the first frame lines, trimmed and cleaned |
| `Fingerprint.FrameParts` | backend-contracts/src/diag_fingerprint.rs:54 | only lines that name a script, or start with `at ` after blanks, are frames |
| `Fingerprint.ScriptIsFrame` | backend-contracts/src/diag_fingerprint.rs:54 | every line that names a script is one |
| `Fingerprint.AtIsFrame` | backend-contracts/src/diag_fingerprint.rs:54 | and so is every line that starts with `at ` after blanks |
| `Fingerprint.HashInStackDoesNotCount` | backend-contracts/src/diag_fingerprint.rs:51-78 | the hash of an asset name anywhere in a stack may be swapped |
| `Fingerprint.DeepFramesDoNotCount` | backend-contracts/src/diag_fingerprint.rs:51-59 | anything after the third frame line may change |
| `Fingerprint.BasisSurvivesRebuild` | backend-contracts/src/diag_fingerprint.rs:9-32 | a rebuilt client reporting about another track keeps the basis, whatever the context |
| `Fingerprint.BasisSurvivesDeeperRebuild` | backend-contracts/src/diag_fingerprint.rs:9-59 | and whatever lies below the third frame |
| `Fingerprint.BasisTellsKindsApart` | backend-contracts/src/diag_fingerprint.rs:16-30 | errors of different kinds never share a basis |
| `Fingerprint.BasisIff` | backend-contracts/src/diag_fingerprint.rs:24-29 | two reports share a basis exactly when kind, message up to digits and the three cleaned top frames agree |
| `Fingerprint.RequestBasisIff` | backend-contracts/src/diag_fingerprint.rs:17-22 | two failed requests, exactly when service, path up to digits and class agree |
| `Fingerprint.PlaybackBasisIff` | backend-contracts/src/diag_fingerprint.rs:23 | two playback errors, exactly when reason and quality agree |
| `Fingerprint.BarsCollide` | backend-contracts/src/diag_fingerprint.rs:24-29 | without the condition on bars: a message that ends in a frame shares its basis with one that has the frame in its stack |
| `Fingerprint.UnhashIsNotIdempotent` | backend-contracts/src/diag_fingerprint.rs:61-78 | a second pass drops the next dashed part |
| `SetColumns.SetColumnsOf` | ops/replication/derived.py:25-44 | the scanning loop returns the columns of the parts at depth zero |
| `SetColumns.EndHead` | ops/replication/derived.py:11 | a space and a column look like the end of the list exactly when the column is a terminator word |
| `SetColumns.ScanQuiet` | ops/replication/derived.py:30-41 | the scan passes over any text with closed parentheses and no comma or terminator outside them |
| `SetColumns.ColumnIs` | ops/replication/derived.py:44 | of every part the column is its first word, blanks apart, exactly when an equals sign comes next |
| `SetColumns.ColumnOfAssign` | ops/replication/derived.py:44 | the column of a printed assignment is read back |
| `SetColumns.ScanReadsList` | ops/replication/derived.py:25-44 | from a printed list the columns up to the first terminator column are read, in order |
| `SetColumns.ScanInvertsPrinting` | ops/replication/derived.py:25-44 | the scanner inverts printing exactly when no later column is a terminator word |
| `GatewayRoutes.ReadsPrintedRoute` | gateway/src/routes.rs:26-37 | every printed route line gives its host in small letters and the upstream of its target, whatever blanks and comment surround them, and is malformed exactly when the target is |
| `GatewayRoutes.ReadsOtherLines` | gateway/src/routes.rs:26-32 | a line without an arrow is nothing when blank or a comment, and malformed otherwise |
| `GatewayRoutes.FromEnvStr` | gateway/src/routes.rs:22-45 | a block is accepted exactly when no line is malformed, else the first malformed line is named; the table holds what the lines say |
| `GatewayRoutes.AddRepresents` | gateway/src/routes.rs:38-42 | a later line overrides an earlier one for the same host or catch-all |
| `GatewayRoutes.LookupIsRule` | gateway/src/routes.rs:59-68 | lookup is the last line for the lower-cased host, else the last catch-all |
| `GatewayHeaders.HeaderMap.ConnectionTokens` | gateway/src/proxy.rs:201-214 | the tokens of the readable Connection values, options left out |
| `GatewayHeaders.ListsSpelled` | gateway/src/proxy.rs:161-167 | on printed values a token is listed exactly when some value of visible ASCII spells it between commas, in any letter case and with any blanks |
| `GatewayHeaders.HeaderMap.StripHop` | gateway/src/proxy.rs:190-199 | exactly the hop-by-hop headers go, the upgrade pair kept on demand |
| `GatewayHeaders.HeaderMap.Sanitize` | gateway/src/proxy.rs:172-183 | the loops leave the sanitized map |
| `GatewayHeaders.HeaderMap.CleanResponse` | gateway/src/proxy.rs:185-188 | exactly the hop-by-hop headers and `server` go |
| `GatewayHeaders.SanitizedIsClean` | gateway/src/proxy.rs:169-183 | a header survives exactly when it is not hop-by-hop and no readable Connection value names it, `close` apart, and then keeps its values |
| `GatewayHeaders.SanitizedUpgrade` | gateway/src/proxy.rs:169-183 | the same for an upgrade request, which keeps `upgrade`, and `connection` unless listed |
| `GatewayHeaders.UpgradeSurvives` | gateway/src/proxy.rs:157-183 | an upgrade request stays one exactly when Connection does not list `connection` |
| `GatewayHeaders.SanitizedIsIdempotent` | gateway/src/proxy.rs:172-183 | sanitizing twice is sanitizing once, with and without upgrade |
| `GatewayHeaders.Handle` | gateway/src/proxy.rs:48-78 | which requests are refused, unchanged; the header map of a forwarded one, which meets `Trusted` |
| `GatewayHeaders.CleanedIsSanitized` | gateway/src/proxy.rs:185-188 | a cleaned response is what sanitizing would leave, `server` apart, exactly when every listed header it carries is hop-by-hop or `server` |
| `GatewayHeaders.ListedResponseHeaderPasses` | gateway/src/proxy.rs:185-188 | for every other header name, a response that lists and carries it keeps it, and a request does not |
| `GatewayHeaders.ForwardedHeadersAreTrusted` | gateway/src/proxy.rs:46-80 | the outgoing Host is the readable incoming one even if listed, else the authority; x-forwarded-for is the first readable unlisted value and the address, or the address; the gateway sets the other three; every further header passes with its values unless dropped |
| `SchedulerHealth.RetryDelayRange` | jobs/src/scheduler.rs:227-238 | the delay lies between the power of two and a quarter more, and is thirty seconds from the sixth failure on |
| `SchedulerHealth.RotateMovesTop` | jobs/src/scheduler.rs:234 | rotation moves the top bits of the 64-bit seed to the bottom |
| `SchedulerHealth.RetryDelayIs` | jobs/src/scheduler.rs:227-238 | the exact delay of the first five failures from the bits of the seed |
| `SchedulerHealth.JitterCovers` | jobs/src/scheduler.rs:227-238 | every delay of the range occurs for some seed |
| `SchedulerHealth.RetryDelayGrows` | jobs/src/scheduler.rs:227-238 | the delay never decreases |
| `SchedulerHealth.Replay` | jobs/src/health.rs:67-134 | after every history of reports the process is ready exactly when it was last told to accept work, each of the four dependencies was last reported healthy, and the last scheduler success is at most fifteen seconds old |
| `SchedulerHealth.HealthState.MarkStopping` | jobs/src/health.rs:88-90 | the process is not ready at any time after |
| `SchedulerHealth.HealthState.SetHealthy` | jobs/src/health.rs:105-119 | an unhealthy dependency rules readiness out at every time, and a report that changes nothing leaves readiness as it was at every time |
| `SchedulerHealth.Run` | jobs/src/scheduler.rs:175-217 | the loop follows the step function and records each success |
| `SchedulerHealth.HealthyPolls` | jobs/src/scheduler.rs:191-199 | while the database answers promptly, one success a second |
| `SchedulerHealth.StepSpaced` | jobs/src/scheduler.rs:191-215 | each round keeps the least distance between a success and the failures after it |
| `SchedulerHealth.StaleFromFifthFailure` | jobs/src/health.rs:127-134 | on every run the last success is stale from the fifth failure in a row on |
| `SchedulerHealth.NotReadyFromFifthFailure` | jobs/src/health.rs:96-134 | and the process is not ready, whatever its other flags |
| `SchedulerHealth.RecentAfterFourFailures` | jobs/src/scheduler.rs:184-216 | after four prompt failures it still is, for every seed |
| `Supervisor.Tasks.JoinAll` | jobs/src/supervisor.rs:91-97 | joins in order; reports nothing exactly when every join is a clean exit or an abort, else the first that is neither, with its name and error |
| `Supervisor.Tasks.Drain` | jobs/src/supervisor.rs:90-116 | every task is joined, and the report is that of the phase that completed, join by join |
| `Supervisor.Tasks.RunUntil` | jobs/src/supervisor.rs:68-88 | on return the token is cancelled and every task joined; the result is the signal's error, the outcome of the task that ended, case by case, or the report of the drain |
| `Supervisor.JoinedAll` | jobs/src/supervisor.rs:93-112 | a drain makes one join per task |
| `Supervisor.DrainReportsFirstFailure` | jobs/src/supervisor.rs:99-114 | a drain reports its first failure if every task ends in the grace period or none of those that do fails, and only then when no two tasks fail alike |
| `Supervisor.GraceFailureForgotten` | jobs/src/supervisor.rs:99-114 | a schedule that loses a failure |
| `Supervisor.AbortedTasksNeverFail` | jobs/src/supervisor.rs:134-144 | a reported failure is the outcome of a task the abort did not reach |
| `Supervisor.UnreachedFailureIsReported` | jobs/src/supervisor.rs:108-114 | when a task out of the abort's reach fails, the drain reports a failure |
| `VectorStore.Provisioner.EnsureCollection` | jobs/src/qdrant.rs:446-476 | a missing versioned collection is created empty in the required shape, no existing one and not the alias changes, and the answer is whether it is healthy and has that shape |
| `VectorStore.Provisioner.UpsertPoints` | jobs/src/qdrant.rs:501-538 | nothing is written unless every vector is valid; of the points that go in, every id ends with the vector of its last occurrence, every other id and collection stays, and success means all went in |
| `VectorStore.Provisioner.PointAlias` | jobs/src/qdrant.rs:540-566 | the alias moves at most to the named collection, only when that is versioned and validates, and no collection changes |
| `VectorStore.Provisioner.DropCollection` | jobs/src/qdrant.rs:568-594 | at most the named versioned collection goes, never the one the alias names, and the alias stays |
| `VectorStore.Provisioner.ProvisionCollection` | jobs/src/qdrant.rs:699-732 | an existing collection is only validated, whatever the store answers; at most the named one is created |
| `VectorStore.ApplyKeepsAlias` | jobs/src/qdrant.rs:421-594 | each call keeps the alias on a usable collection and never removes it |
| `VectorStore.ApplyKeepsPoints` | jobs/src/qdrant.rs:501-538 | each call keeps every stored vector of the required length and finite |
| `VectorStore.ServedCollectionIsAlwaysUsable` | jobs/src/qdrant.rs:421-594 | from a validated start both hold after every sequence of calls and failures, and an alias once set stays set |
| `VectorStore.UndisturbedPoint` | jobs/src/qdrant.rs:540-566 | a re-point made of its two accesses with nothing in between is the re-point call |
| `VectorStore.UndisturbedDrop` | jobs/src/qdrant.rs:568-594 | a drop made of its two accesses with nothing in between is the drop call |
| `VectorStore.ApartTracesAreSafe` | jobs/src/qdrant.rs:540-594 | any interleaving of any number of calls keeps the alias set and usable and the vectors well formed when drops and re-points of a name do not overlap |
| `VectorStore.OverlapLosesAlias` | jobs/src/qdrant.rs:578-591 | from every state, once they overlap the two calls can go on so that the collection is gone right after the alias was set to it |
| `VectorStore.ApartIsExact` | jobs/src/qdrant.rs:540-594 | an access starts no overlap exactly when no continuation without a further overlap leaves the alias unusable |
| `MetricsLabel.LabelIsEscape` | jobs/src/metrics.rs:575-580 | the three replacements equal one escape per character |
| `MetricsLabel.LabelReadsBack` | jobs/src/metrics.rs:575-580 | a reader of the text exposition format 0.0.4 gets the value back and stops at the closing quote |
| `MetricsLabel.SlotSampleReadsBack` | jobs/src/metrics.rs:539-550 | a slot sample reads back part by part for all names |
| `MetricsLabel.SlotSampleIsOneLine` | jobs/src/metrics.rs:539-550 | and stays on one line |
| `CatalogIds.ValidIdsAreCanonical` | backend-contracts/src/catalog_refresh.rs:57-65 | the accepted ids are the canonical decimals of 1 to 2^63 - 1 |
| `CatalogIds.TrackIdsAreDecimals` | backend-contracts/src/pipeline.rs:14 | the pattern matches the canonical decimals of 1 to 10^19 - 1 |
| `CatalogIds.ValidIdsAreTrackIds` | backend-contracts/src/catalog_refresh.rs:57-65 | accepted ids match the pattern, whose strings fit an unsigned 64-bit integer |
| `CatalogIds.ValidRefreshesAre` | backend-contracts/src/catalog_refresh.rs:57-70 | the valid refreshes, entity by entity: a profile for itself, web profiles for nobody, the rest for anyone or nobody |
| `CatalogIds.ValidJobsAre` | backend-contracts/src/catalog_collection.rs:144-156 | a job for an owner is valid exactly for the five collections of the owner's own account |
| `CatalogIds.RefreshKeysAreInjective` | backend-contracts/src/catalog_refresh.rs:57-79 | valid refreshes with one key are equal |
| `CatalogIds.JobKeysAreInjective` | backend-contracts/src/catalog_collection.rs:144-168 | valid collection jobs with one key are equal |
| `CatalogIds.FailureReadsBack` | backend-contracts/src/catalog_collection.rs:124-133 | the failure is read back from its message for any detail |
| `CatalogIds.FailuresRead` | backend-contracts/src/catalog_collection.rs:128-133 | exactly the bare code and texts that go on with a colon after it are read as the failure |

## Left out

- HTTP, TLS, sockets, NATS, Postgres and Qdrant: only the state they change is modelled; their answers, clocks and sleeps are parameters.
- `render`, `latest`, `previous` of the install generator: assembling blocks and picking files; a text is the sequence of its newline-terminated lines, and an unterminated last line, which neither pattern matches, is not part of it.
- `KEPT` across lines: the pattern lets a quoted name span lines; names here are within a line.
- A CREATE statement acts on the table and trigger its line names as text; schema search paths and other spellings of one table are not modelled. Replacing a trigger resets its mode to origin, as PostgreSQL does.
- 64-bit overflow of `attempt_window_s` and `quarantine_after_s`: they are evaluated at compile time for fixed lanes; the model is over unbounded numbers.
- Locks: only those of units and guarded calls are counted, not those other statements of an install take.
- Deliveries that outlive `delivery_s` or start later than the backoff delay: outside the contract of a lane.
- `\w` on non-ASCII characters in the SET list scanner: treated as no word character.
- SHA-256 of the fingerprint and the parsing of URIs: the basis is modelled, and the URI parser is a parameter.
- Order of headers with different names: a header map keeps the order of values per name only.
- `configured`, `register` and worker status of the jobs process: tables.
- `NodeSeries` other than slot samples: the same escaping in other templates.
- `retrieve_vectors`, `upsert_audio`, `upsert_lyrics`, collab points: single calls on fixed collections.
- JSON schemas, reason tables, job kinds: finite tables.
- Rooms, chat, recommendations, streaming and the Python worker: not part of this model.
