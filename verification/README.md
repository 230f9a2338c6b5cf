# OpsPilot back end: a Dafny model of its stateful core

The project models the parts of OpsPilot whose correctness spans many calls, and proves what they keep over
every run.

- **Workflow cache** (`Workflows`, `CacheKey`, `WorkflowCache`, `CacheInterleaving`,
  `CacheQuiescence`). Active rules are read
  through Redis and the CRUD handlers invalidate keys. `WorkflowCache` takes one call at a time: cached reads
  refine the uncached query. `CacheInterleaving` gives every Redis call and every database access its own step:
  full coherence is lost, staleness is bounded by the 24 h time to live plus the reader's own delay.
  `CacheQuiescence` says when the interleaved protocol is exact again.
- **Workflow engine** (`Json`, `Template`, `Paths`, `Interpolation`, `Conditions`, `Engine`). The template scanner
  against a declarative reading of its regular expression, interpolation over JSON trees, and the evaluation with
  its counters, logs, charges and storage failures.
- **Metering** (`Calendar`, `Metering`, `Quota`). Monthly cycles from calendar arithmetic, the upserted meters, and
  the check-then-act quota with its exact overshoot.
- **Rate limiter** (`SlidingWindow`, `RateLimiter`, `LimiterRuns`). The Redis script and the in-memory
  list against a limiter that never forgets, whole runs with repeated members, and the failover between them.
- **WebSocket manager** (`WebSocket`), **token lifecycle and slugs** (`Tokens`, `Slug`), **orders, payments and
  reports** (`Payments`, `Analytics`).
- **Races** (`CheckThenAct`, `PaymentRaces`, `TokenRaces`). Overlapping payment verifications and token refreshes,
  each a check and a later act.

Code that updates objects in place is modelled by classes and methods proved against specification functions; the
run-level results are lemmas about those functions. Fault flags (`up`, `usable`, `stored`, `Link`, `Faults`) are
parameters, so every result covers every pattern of failures it does not exclude. Ghost fields (`log`, `history`,
`stray`, `events`) record what happened, for the statements only.

Check the whole project with `dafny verify dfyconfig.toml`.

## What the proofs bring out

- `update_workflow` clears the old trigger's key before its commit. A read of that trigger in between restores the
  outgoing rule, which stays until the entry expires (`WorkflowCache.UpdateWindow`). Any slow reader can restore
  a deleted rule the same way (`CacheInterleaving.StalenessAttained`).
- The usage quota can be exceeded by up to one execution less than the number of evaluations in flight
  (`Quota.OvershootAttained`).
- The Redis script counts sorted-set members, so requests of one millisecond that draw the same suffix count once.
  With a member drawn up to m times a window admits up to m * (limit - 1) + 1, and the limit holds in every run only
  if none repeats (`LimiterRuns.LimitHoldsIffDistinct`). A Redis outage in the middle of a burst admits the limit once
  more (`LimiterRuns.FailoverAttained`).
- A storage failure in the engine's try block bumps two counters (`Engine.WorkflowEngine.Settle`).
- Overlapping verifications of one payment each announce its success, and overlapping refreshes each exchange the
  token (`PaymentRaces.OnceIffSequential`, `TokenRaces.OnceIffSequential`).
- In its last second a refresh token can be exchanged repeatedly, and a refresh in the second a token was issued in
  returns the token it revokes (`Tokens.LastSecondExchangesRepeat`, `Tokens.FreshTokenUsable`).
- Disconnecting an unregistered connection lowers the gauge and removes the user's presence
  (`WebSocket.DisconnectOk`). A business name without word characters gets a slug that starts with a hyphen
  (`Slug.GenerateSlug`).
- The limiter's class comment calls the fallback a token bucket (app/middleware/rate_limit.py:59); the code keeps a
  sliding window of timestamps, and the model follows the code.

## Model

| member | source | states |
|---|---|---|
| `CacheInterleaving.BoundedStaleness` | app/modules/workflows/triggers.py:55-121 | in every run of interleaved reader and writer steps, with any Redis or database call failing, each list a cached read returned is exactly the query's answer for the asked business and trigger at one earlier moment, less than 24 h plus its reader's own load-to-store delay before |
| `CacheInterleaving.ExactWhenQuiet` | app/modules/workflows/triggers.py:55-121 | once 24 h plus that delay have passed since the last committed write, a cached read returns what the database holds |
| `CacheInterleaving.StalenessAttained` | app/modules/workflows/triggers.py:90-118 | the bound is reached with no failure at all: a reader that loads before a delete and stores after it puts the deleted rule back, and it is still returned in the last second of the entry |
| `CacheInterleaving.StepKeepsInv` | app/modules/workflows/triggers.py:33-121 | every step of a reader, of a writer or of the clock keeps the invariant: each cached, loaded or returned list is genuine for its own key at its own moment, and cache keys belong to their lists |
| `CacheInterleaving.CommitKeepsInv` | app/modules/workflows/routes.py:146-147 | a commit keeps every list in caches, readers and answers genuine for the version it was read from |
| `CacheInterleaving.HitAccounted` | app/modules/workflows/triggers.py:75-88 | a hit answers the query that was asked, with an entry no older than the time to live |
| `CacheInterleaving.LoadRun` | app/modules/workflows/triggers.py:75-93 | a read that misses reaches the database with the committed table of that moment |
| `CacheInterleaving.StoreRun` | app/modules/workflows/triggers.py:112-121 | a loaded list is stored and returned however much later the store happens |
| `CacheInterleaving.DeleteRun` | app/modules/workflows/routes.py:172-177 | a delete commits first and invalidates its trigger's key after |
| `CacheInterleaving.CreateRun` | app/modules/workflows/routes.py:50-54 | a create commits the new row first and invalidates its key after |
| `CacheInterleaving.UpdateRun` | app/modules/workflows/routes.py:133-150 | an update removes the old trigger's key when the trigger is part of it, then commits, then removes the new row's key |
| `CacheInterleaving.ReadRun` | app/modules/workflows/triggers.py:75-121 | an uninterrupted read that does not end at a hit answers the query of that moment, and stores the answer if and only if GET and SETEX both work |
| `CacheInterleaving.HitRun` | app/modules/workflows/triggers.py:82-86 | a hit answers with the cached list and changes nothing |
| `CacheQuiescence.QuietHitsAreExact` | app/modules/workflows/routes.py:50-54 | in every interleaved run in which no invalidation fails, no commit falls between a reader's load and its store and no rule moves to another trigger, every hit is exact whenever no write is in flight; this needs the commit before the invalidation |
| `CacheQuiescence.StepCalm` | app/modules/workflows/routes.py:50-54 | each step of such a run keeps every cached list exact or owed an invalidation by a writer that has committed |
| `CacheQuiescence.ApplyTouches` | app/modules/workflows/routes.py:146-147 | a write changes the answer of one query only, that of its rule's business and trigger |
| `CacheQuiescence.CommitTasks` | app/modules/workflows/routes.py:146-150 | a writer that has committed owes the invalidation of exactly what it touched |
| `WorkflowCache.RunRefinesQuery` | app/modules/workflows/triggers.py:55-121 | after any sequential run of creates, updates, deletes, reads and expiries with Redis up, a cached read answers what a service without a cache would answer |
| `WorkflowCache.CreateCoherent` | app/modules/workflows/routes.py:50-54 | a create keeps the cache coherent if and only if its invalidation succeeds, or the rule is inactive, or nothing live is cached for its trigger |
| `WorkflowCache.DeleteCoherent` | app/modules/workflows/routes.py:167-177 | the same for a delete; a missing rule changes nothing |
| `WorkflowCache.UpdateCoherent` | app/modules/workflows/routes.py:123-150 | an update, whichever invalidations fail, keeps the cache coherent if and only if no list of the old or the new trigger that is live at the commit is changed by it and left standing |
| `WorkflowCache.UpdateWindow` | app/modules/workflows/routes.py:123-150 | with both invalidations succeeding, that is: if and only if it does not move an active rule to another trigger while the old trigger is read between the early invalidation and the commit |
| `WorkflowCache.ReadsCoherent` | app/modules/workflows/triggers.py:62-121 | cached reads keep the cache coherent, leave the table alone and make live exactly the keys they asked for |
| `WorkflowCache.TickCoherent` | app/modules/workflows/triggers.py:25 | passing time keeps the cache coherent |
| `WorkflowCache.OpCoherent` | app/modules/workflows/routes.py:50-54 | each operation of a sequential run keeps every live entry equal to the query for its key |
| `WorkflowCache.CachedWorkflows.Invalidate` | app/modules/workflows/triggers.py:33-52 | removes the one key when Redis works and nothing otherwise |
| `WorkflowCache.CachedWorkflows.CreateWorkflow` | app/modules/workflows/routes.py:38-54 | the row is added and its key removed if Redis works; coherence kept when the invalidation succeeds |
| `WorkflowCache.CachedWorkflows.UpdateWorkflow` | app/modules/workflows/routes.py:123-150 | exactly the found row is patched and exactly the old key (with a trigger in the patch) and the new key are removed, each if its call works; not found without a row; coherence kept when both succeed |
| `WorkflowCache.CachedWorkflows.DeleteWorkflow` | app/modules/workflows/routes.py:167-177 | exactly the found row goes and its key if Redis works; not found without a row; coherence kept when the invalidation succeeds |
| `WorkflowCache.CachedWorkflows.GetActiveCached` | app/modules/workflows/triggers.py:55-121 | from a coherent cache, whichever of GET, decoding and SETEX fail, the i-th rule returned rebuilds to the i-th selected row of the table in every field but the timestamps, and the cache stays coherent; what is stored is what is returned |
| `CacheKey.KeyInjective` | app/modules/workflows/triggers.py:28-30 | two keys are equal if and only if business and trigger are, for colon-free business ids and arbitrary triggers |
| `CacheKey.BusinessReadBack` | app/modules/workflows/triggers.py:28-30 | the business can be read back from a key |
| `CacheKey.ColonsCollide` | app/modules/workflows/triggers.py:28-30 | without colon-free ids two businesses share a key |
| `Workflows.QueryRebuilds` | app/modules/workflows/triggers.py:96-110 | the i-th rule of the answer, read back as the trigger handler reads it, is the i-th selected row, timestamps aside |
| `Workflows.SelectedRows` | app/modules/workflows/repository.py:30-36 | the selected rows are the table's rows whose business, trigger and active flag fit, each as often as it stands there and in its order |
| `Workflows.QueryExact` | app/modules/workflows/repository.py:30-36 | the rules of the answer are those of the selected rows and no others |
| `Workflows.PatchedFields` | app/modules/workflows/routes.py:128-146 | a field the patch holds is the row's afterwards, one it leaves out is kept |
| `Workflows.PatchesCompose` | app/modules/workflows/routes.py:128-146 | two updates one after the other are one in which the later field wins |
| `Workflows.Find` | app/modules/workflows/routes.py:124-126 | the first row with the id and the business, or none |
| `Workflows.CreateQuery` | app/modules/workflows/routes.py:39-51 | a created rule is added to its own query's answer if active and to no other |
| `Workflows.UpdateQuery` | app/modules/workflows/routes.py:128-147 | an update replaces, in place, what the row adds to an answer and nothing else; the answer stays the same if and only if the row adds the same before and after |
| `Workflows.DeleteQuery` | app/modules/workflows/routes.py:173-174 | a delete takes exactly the row's own entry out of an answer and keeps the rest in order |
| `Template.MatchEndExact` | app/modules/workflows/engine.py:24 | a match from position i closes at c if and only if two open braces stand at i, two closing ones at c and between them a non-empty run without a closing brace |
| `Template.ScanIsTheCovering` | app/modules/workflows/engine.py:24 | the scanner's spans are the one list of disjoint ordered matches that covers every place where a match starts (leftmost, non-overlapping) |
| `Template.SubRenders` | app/modules/workflows/engine.py:94-99 | the substitution is the template's texts with its holes filled; filled-in values are never scanned |
| `Template.PiecesPrintBack` | app/modules/workflows/engine.py:94-99 | holes put back between their braces print the template |
| `Template.TextsHaveNoMatch` | app/modules/workflows/engine.py:94-99 | no text between holes contains a match |
| `Template.SubConcat` | app/modules/workflows/engine.py:99 | substituting in a + b is substituting in a and in b when no open brace stands after a's last match |
| `Template.TailIsLastPiece` | app/modules/workflows/engine.py:94-99 | what stands after the last match is the last literal piece of the cut template |
| `Template.SubDependsOnHoles` | app/modules/workflows/engine.py:94-99 | the result depends only on what the replacer makes of the template's holes |
| `Interpolation.ResolveConcat` | app/modules/workflows/engine.py:88-99 | resolve(a + b) = resolve(a) + resolve(b) when the last literal piece of a has no open brace |
| `Interpolation.ResolveRendersPieces` | app/modules/workflows/engine.py:88-99 | resolving renders the template's pieces, and the pieces print back to the template |
| `Interpolation.NothingToResolve` | app/modules/workflows/engine.py:88-99 | a template without a match resolves to itself |
| `Interpolation.InterpolatedAt` | app/modules/workflows/engine.py:102-112 | wherever a way of keys and indices leads in the parameters, the interpolated tree has there: for a string, its pieces with each hole filled; for a dictionary or list, the same keys or length; any other leaf itself; and nothing where the parameters have nothing |
| `Interpolation.ResolveFills` | app/modules/workflows/engine.py:88-99 | a resolved string is the pieces of the template with, for each hole, the shown value at its stripped dotted path, or nothing where it has no value |
| `Interpolation.ResolveInterpolates` | app/modules/workflows/engine.py:102-112 | interpolating does the above everywhere at once |
| `Interpolation.NamesFound` | app/modules/workflows/engine.py:88-112 | a named path is the stripped content of a hole in some string of the tree |
| `Interpolation.NamedThere` | app/modules/workflows/engine.py:88-112 | and every such content is a named path |
| `Interpolation.InterpolationKeepsShape` | app/modules/workflows/engine.py:102-112 | interpolation keeps keys, lengths and non-string leaves of the parameter tree |
| `Interpolation.DependsOnNamedPaths` | app/modules/workflows/engine.py:88-112 | payloads that agree on the dotted paths named in the parameters give equal parameters |
| `Paths.GetNestedValue` | app/modules/workflows/engine.py:27-38 | the value at the dotted path, none where a part is missing or not a dictionary |
| `Paths.NestedIsAt` | app/modules/workflows/engine.py:31-38 | a path written with spaces around it and dots between its parts leads where the parts lead |
| `Paths.StripKeeps` | app/modules/workflows/engine.py:31 | stripping takes spaces off the ends and keeps the rest |
| `Paths.StripPadded` | app/modules/workflows/engine.py:31 | spaces around a text are dropped and nothing else |
| `Paths.JoinSplit` | app/modules/workflows/engine.py:31 | the parts of a path are dot-free and join back to it |
| `Paths.SplitJoin` | app/modules/workflows/engine.py:31 | dot-free parts joined by dots are split into the same parts |
| `Paths.AtConcat` | app/modules/workflows/engine.py:33-38 | the value at a longer path is found from the value at the shorter one |
| `Paths.PutAt` | app/modules/workflows/engine.py:33-38 | a value put at a path is what the lookup finds there |
| `Paths.PutElsewhere` | app/modules/workflows/engine.py:33-38 | and paths that part from it find what they found before |
| `Conditions.DependsOnField` | app/modules/workflows/engine.py:41-85 | corollary of the definition: the verdict depends on the payload only through the value at the condition's path |
| `Conditions.MissingField` | app/modules/workflows/engine.py:51-65 | corollary: a missing field passes only is_false, and ne against anything but what None reads as |
| `Conditions.NumbersCompare` | app/modules/workflows/engine.py:67-79 | on numbers, however they are written, gt, ge, lt and le hold exactly as the numbers compare |
| `Conditions.OrderFollowsPayload` | app/modules/workflows/engine.py:72-77 | raising the payload's number keeps gt and ge, lowering it keeps lt and le |
| `Conditions.BeyondNumbers` | app/modules/workflows/engine.py:67-83 | without a number on either side, or with NaN, no order holds; infinities lie beyond all numbers |
| `Conditions.EqualityLaws` | app/modules/workflows/engine.py:56-59 | for a present field ne is the opposite of eq, and eq holds of a value against itself and of texts that agree once shown and lowered |
| `Conditions.ContainsLaw` | app/modules/workflows/engine.py:64-65 | contains holds if and only if the lowered text of the value is u + target + v |
| `Conditions.TruthTable` | app/modules/workflows/engine.py:60-63 | is_false holds of a missing value, false, zero and the empty string, list and dictionary and of nothing else; is_true is its opposite |
| `Conditions.UnknownOperator` | app/modules/workflows/engine.py:85 | any other operator passes nothing |
| `Conditions.OrderIsTotalIffNumeric` | app/modules/workflows/engine.py:67-83 | corollary: ge and lt never both hold, and one of them holds if and only if both sides are numbers other than NaN |
| `Engine.OneCounterIffHealthy` | app/modules/workflows/engine.py:154-231 | corollary of the counters that Settle and EvaluateAndRun are proved to leave: exactly one is bumped, and a success is charged, if and only if the usage check and the storage calls of the try block work; with storage up one row is left where the log depth asks for it |
| `Engine.OutcomeDependsOnNamedPaths` | app/modules/workflows/engine.py:127-182 | events that agree on the dotted paths a workflow's conditions and templates name have the same outcome and run the same actions |
| `Engine.OutcomeCases` | app/modules/workflows/engine.py:127-218 | a failing condition skips, then a failing usage check aborts, then a used-up quota blocks, then any failing action makes a failure; in all other cases the evaluation succeeds |
| `Engine.RebuiltEvaluatesAlike` | app/modules/workflows/triggers.py:153-170 | rows that differ in nothing but timestamps have the same outcome, actions, log rows and charge, so the rule of a cached read is evaluated as the table's own row |
| `Engine.ResolvedActions` | app/modules/workflows/engine.py:167-182 | each action is run with its own kind and with its parameters filled from the payload |
| `Engine.ErrorsExact` | app/modules/workflows/engine.py:185-188 | the failures are those of the failing actions, in the order of the actions |
| `Engine.NoErrorsIff` | app/modules/workflows/engine.py:188-190 | there is none if and only if no action fails |
| `Engine.HealthyRow` | app/modules/workflows/engine.py:141-215 | with storage up, the one row of an evaluation at its log depth: workflow, business, status and message |
| `Engine.HealthyCharge` | app/modules/workflows/engine.py:217-218 | with storage up a success is charged as one workflow execution and nothing else is |
| `Engine.HandledFault` | app/modules/workflows/engine.py:220-231 | a storage fault after the actions adds a failure to the counters and, where the depth has one, its row next to any already written, charges nothing, and leaves the function only if that row cannot be written |
| `Engine.WhenItCrashes` | app/modules/workflows/engine.py:137-164 | when a refused evaluation leaves the function with a storage error |
| `Engine.JoinedConcat` | app/modules/workflows/engine.py:191 | the message joins the failures in order with a separator between them |
| `Engine.TallyCounts` | app/modules/workflows/engine.py:140-206 | over any run each counter is the number of evaluations that ended that way |
| `Engine.StatusesCount` | app/modules/workflows/engine.py:141-215 | over any run each status has a row for each evaluation that ended so at a depth that asks for it |
| `Engine.RowsByDepth` | app/modules/workflows/engine.py:141-215 | over any run rows are all finished evaluations at depth all, the failed and limit-blocked ones at errors_only, none otherwise, and counters sum to the finished evaluations |
| `Engine.KeepsBalance` | app/modules/workflows/engine.py:115-231 | a healthy evaluation keeps counters, log rows and meter charges in step |
| `Engine.WorkflowEngine.MatchConditions` | app/modules/workflows/engine.py:127-133 | the loop with its early exit answers whether all conditions hold |
| `Engine.WorkflowEngine.RunActions` | app/modules/workflows/engine.py:166-188 | every action is run once, in order, with its own kind and its parameters filled from the payload, whichever others fail; there is no failure if and only if none of them fails |
| `Engine.WorkflowEngine.Refuse` | app/modules/workflows/engine.py:137-164 | counter, row and crash of a skipped or limit-blocked evaluation |
| `Engine.WorkflowEngine.Settle` | app/modules/workflows/engine.py:184-231 | outcome, counters, rows, charge and crash once the actions have run, for every combination of storage failures |
| `Engine.WorkflowEngine.EvaluateAndRun` | app/modules/workflows/engine.py:115-231 | the whole outcome and new state for every pattern of storage failures, a failing usage check included; the quota verdict is stated on the history of charges |
| `Engine.WorkflowEngine.Step` | app/modules/workflows/engine.py:115-231 | along any run with healthy storage counters tally the evaluations, rows the recorded ones, charges the successes |
| `Calendar.NextMonth` | app/modules/metering/service.py:27 | a month ends where the next begins, over year ends and leap years |
| `Calendar.LeapDays` | app/modules/metering/service.py:27 | leap days counted by division agree with the leap rule year by year |
| `Calendar.YearLength` | app/modules/metering/service.py:27 | a year is its twelve months long |
| `Calendar.MonthOffsets` | app/modules/metering/service.py:27 | the days before each month in closed form, leap correction included, and which months have 29 days |
| `Calendar.InstantOrder` | app/modules/metering/service.py:23-29 | instants follow the order of year, month, day and time |
| `Calendar.MonthsAscend` | app/modules/metering/service.py:23-29 | a month ends no later than any later month begins |
| `Calendar.CycleIsMonth` | app/modules/metering/service.py:23-29 | a cycle runs from its month's start to one microsecond before the next month |
| `Calendar.CycleContainsNow` | app/modules/metering/service.py:23-29 | both ends are valid datetimes and start <= now <= end |
| `Calendar.CycleDecided` | app/modules/metering/service.py:23-29 | an instant lies in a cycle if and only if its own cycle is that one; different cycles are disjoint |
| `Calendar.CyclesTile` | app/modules/metering/service.py:23-29 | end + 1 microsecond is the next month's start |
| `Calendar.CycleStartMonotone` | app/modules/metering/service.py:23-29 | later instants have no earlier cycle |
| `Metering.MeterStore.IncrementUsage` | app/modules/metering/repository.py:32-54 | the row of the business, metric and cycle grows by the amount or is added with it, and no other row changes; rows stay unique per key, each carrying exactly its cycle's charges and all together all charges |
| `Metering.ChargesAddUp` | app/modules/metering/repository.py:48-50 | charges add up, and one increment counts in full if and only if it is of the business and metric and in the interval |
| `Metering.TierTable` | app/modules/metering/service.py:10-15 | the limits by tier and metric; everything outside the table is unlimited |
| `Metering.MeterStore.Conflict` | app/modules/metering/repository.py:48-50 | finds the row the insert conflicts with, if there is one |
| `Metering.MeterStore.GetCurrentMeter` | app/modules/metering/repository.py:15-30 | at most one row matches; the usage found (0 for none) is what was charged in the cycle of that instant |
| `Metering.MeterStore.CheckUsageLimit` | app/modules/metering/service.py:42-57 | allowed if and only if the tier sets no limit or this cycle's charges plus the amount stay within it |
| `Metering.MatchIsKey` | app/modules/metering/models.py:33-35 | on cycle rows the date filter and the unique constraint pick the same row |
| `Metering.ChargeReaches` | app/modules/metering/repository.py:39-50 | an increment reaches the row of its own cycle and no other |
| `Metering.NoRowNothingCharged` | app/modules/metering/repository.py:22-30 | without a row nothing was charged in the cycle |
| `Metering.Touched` | app/modules/metering/repository.py:48-50 | adding to the conflicting row keeps the table true to all charges |
| `Metering.Inserted` | app/modules/metering/repository.py:39-45 | inserting the missing row does |
| `Quota.QuotaOvershootBound` | app/modules/workflows/engine.py:152-164 | with at most k evaluations in flight no interleaving charges any cycle more than limit - 1 + k, even across months |
| `Quota.OvershootAttained` | app/modules/workflows/engine.py:217-218 | some run charges exactly limit - 1 + k |
| `Quota.EachMonthAnew` | app/modules/metering/service.py:23-29 | one run can overshoot in two months, each by the full bound: a new month brings a new quota |
| `Quota.FailureChargesNothing` | app/modules/workflows/engine.py:184-203 | an evaluation that fails after the check leaves meters and slots as they were |
| `Quota.HardCapIffSequential` | app/modules/metering/service.py:42-57 | the limit is a hard cap in every run if and only if k = 1 |
| `Quota.StepKeepsInv` | app/modules/workflows/engine.py:152-218 | usage plus the evaluations that may still charge unseen stay within limit - 1 + k at every step |
| `Quota.StepKeepsBound` | app/modules/workflows/engine.py:152-218 | the same for one cycle and one step |
| `Quota.AllAdmitted` | app/modules/metering/service.py:53-57 | any number of evaluations pass the check on one reading of the meter |
| `Quota.AllCharged` | app/modules/metering/service.py:59-63 | evaluations past the check all charge, whatever the meter says by then |
| `LimiterRuns.RunBound` | app/middleware/rate_limit.py:110-143 | from an unused key, in every run with a clock that never goes back and no member drawn more than m times, in any interval (s, s + window]: memory lets through at most the limit, Redis at most m * (limit - 1) + 1, and together their sum; the stored list and set never exceed the limit and the list stays sorted |
| `LimiterRuns.DistinctBound` | app/middleware/rate_limit.py:110-143 | with members that never repeat, each limiter keeps to the limit and both together to twice the limit, however calls switch |
| `LimiterRuns.LimitHoldsIffDistinct` | app/middleware/rate_limit.py:43-50 | for limits of at least 2, Redis keeps every window to the limit in every run if and only if no member is drawn twice |
| `LimiterRuns.RepeatsAttained` | app/middleware/rate_limit.py:43-50 | m * (limit - 1) + 1 is reached by Redis alone; with one member for each of `limit` consecutive milliseconds this takes no particular suffixes |
| `LimiterRuns.FailoverAttained` | app/middleware/rate_limit.py:131-143 | an outage after that adds the limit of the memory list: twice the limit for m = 1 |
| `LimiterRuns.CallTraced` | app/middleware/rate_limit.py:110-143 | each call on what is stored decides as on the full histories and keeps the stored sizes within the limit |
| `LimiterRuns.RunTraced` | app/middleware/rate_limit.py:110-143 | so does every run, and it draws no member more often than its calls do |
| `SlidingWindow.WindowBound` | app/middleware/rate_limit.py:36-51 | a history in which every request was admitted with a load below its limit in the window before has at most the limit in any window when requests are counted, and at most m * (limit - 1) + 1 when members are and none repeats more than m times |
| `SlidingWindow.SizeByMembers` | app/middleware/rate_limit.py:44-48 | requests are at most m times their members |
| `SlidingWindow.MembersCount` | app/middleware/rate_limit.py:44-48 | members are as many as requests if and only if none repeats |
| `RateLimiter.ScriptRefines` | app/middleware/rate_limit.py:36-51 | whatever suffixes are drawn, the pruned set decides as a limiter that never forgets and counts members, and goes on standing for the whole history |
| `RateLimiter.ExactIffDistinct` | app/middleware/rate_limit.py:43-47 | that is a limiter that counts requests, for every limit, if and only if no live member repeats |
| `RateLimiter.ScriptKeepsLive` | app/middleware/rate_limit.py:43-49 | neither pruning nor the key's expiry, which reads milliseconds as seconds, drops a live entry |
| `RateLimiter.ScriptCounts` | app/middleware/rate_limit.py:45-50 | an admission raises the count by one if and only if its member is new; with a repeated member the next call is admitted too |
| `RateLimiter.ListRefines` | app/middleware/rate_limit.py:135-143 | the pruned list decides as a limiter that never forgets and stays sorted |
| `RateLimiter.FailoverBound` | app/middleware/rate_limit.py:110-143 | the histories keep these bounds, and what passed is what memory and Redis let through |
| `RateLimiter.SilentClientAdmitted` | app/middleware/rate_limit.py:110-143 | a client silent for a window is admitted when the limit is at least 1, whichever limiter answers |
| `RateLimiter.MemoryStepOk` | app/middleware/rate_limit.py:137-143 | one memory call keeps a key's stored state true to its history |
| `RateLimiter.ScriptStepOk` | app/middleware/rate_limit.py:36-51 | one script call does, whether its reply is heard or lost |
| `RateLimiter.RateLimiter.CheckMemory` | app/middleware/rate_limit.py:135-143 | verdict and history are those of the limiter that never forgets; the bucket stays sorted, and within the limit if it was; other keys are untouched |
| `RateLimiter.RateLimiter.CheckRedis` | app/middleware/rate_limit.py:110-133 | the script's verdict, or the memory list's when Redis fails; a lost reply has charged Redis all the same |
| `WebSocket.WebSocketManager.Connect` | app/websocket/manager.py:26-37 | new connections, presence and gauge; the accounting below is kept |
| `WebSocket.WebSocketManager.Disconnect` | app/websocket/manager.py:39-48 | removes the first occurrence, the presence and one unit of the gauge even for an unregistered connection; gauge = registered connections - disconnects of unregistered ones, and everyone present has a connection |
| `WebSocket.WebSocketManager.UpdatePresence` | app/websocket/manager.py:50-57 | changes only a user who is present |
| `WebSocket.WebSocketManager.GetPresence` | app/websocket/manager.py:59-61 | lists exactly those present, each backed by a registered connection |
| `WebSocket.WebSocketManager.FinishBroadcast` | app/websocket/manager.py:79-90 | from the end of its sends on, whatever was connected or disconnected meanwhile, a broadcast disconnects the connections whose send failed, in order; the gauge falls by the number of failed sends |
| `WebSocket.WebSocketManager.BroadcastToBusiness` | app/websocket/manager.py:63-90 | undisturbed, addresses all connections of the business and leaves in order exactly those whose send succeeded; the gauge falls by the failed sends, over connections registered once no disconnect is stray and gauge minus connections is unchanged; no other business changes |
| `WebSocket.WebSocketManager.BroadcastToUser` | app/websocket/manager.py:92-119 | the same for the user's connections, the others staying in their places |
| `WebSocket.WebSocketManager.Cleanup` | app/websocket/manager.py:88-90 | the cleanup loop disconnects each failed connection once per failure |
| `WebSocket.WebSocketManager.Collect` | app/websocket/manager.py:79-86 | each failed send once, in the order they end |
| `WebSocket.WithinExact` | app/websocket/manager.py:79-86 | the failed sends are the broken ones, as often as they were sent to and in their order |
| `WebSocket.FailedOnce` | app/websocket/manager.py:88-90 | over different connections every failed one is registered and leaves once |
| `WebSocket.RemovesTheFirst` | app/websocket/manager.py:43-44 | list.remove takes the first occurrence and nothing else |
| `WebSocket.WithoutExact` | app/websocket/manager.py:88-90 | who stays after a cleanup stays as often as before and in order |
| `WebSocket.CleanupExact` | app/websocket/manager.py:88-90 | disconnecting a list, in any order and with repetitions, leaves exactly the others in order |
| `WebSocket.OverlappingBroadcasts` | app/websocket/manager.py:63-119 | whatever connects and disconnects around the cleanups of two overlapping broadcasts, a connection registered when the second starts remains if and only if nobody disconnected it and no send to it failed in either |
| `WebSocket.Survives` | app/websocket/manager.py:26-48 | after any connects and disconnects a registered connection remains if and only if it was not disconnected |
| `WebSocket.ConnectOk` | app/websocket/manager.py:26-37 | connecting keeps the accounting of a business |
| `WebSocket.DisconnectOk` | app/websocket/manager.py:39-48 | disconnecting keeps it, counting a stray call when the connection is gone |
| `WebSocket.RemoveFirst` | app/websocket/manager.py:43-44 | list.remove takes one entry and keeps every other connection |
| `WebSocket.OfUserExact` | app/websocket/manager.py:96 | all connections of the user, as often as they are listed and in the order of the list |
| `Tokens.RevocationHolds` | app/modules/auth/service.py:267-284 | a revoked token is rejected at every later time up to exp - 1 s, whatever is revoked afterwards, itself included |
| `Tokens.ExchangedAtMostOnce` | app/modules/auth/service.py:155-183 | in every sequential run of refreshes and logouts a refresh token is exchanged at most once up to exp - 1 s |
| `Tokens.LastSecondExchangesRepeat` | app/modules/auth/service.py:275-278 | an exchange can be repeated at once if and only if it falls in the last second of the token |
| `Tokens.RevokedUntil` | app/modules/auth/service.py:275-278 | one revocation rejects the token exactly until the truncated time to live is over |
| `Tokens.RevokesNoOther` | app/modules/auth/service.py:275-278 | revoking one token changes nothing for another |
| `Tokens.TtlReaches` | app/modules/auth/service.py:275-276 | the truncated time to live ends within the token's last second |
| `Tokens.FreshTokenUsable` | app/modules/auth/service.py:180-183 | the refresh token just issued is already revoked if and only if the exchange falls in the second the old one was issued in |
| `Tokens.NoMoreExchanges` | app/modules/auth/service.py:168-170 | once a token is listed past exp - 1 s no request exchanges it in time |
| `Tokens.AuthService.Blacklist` | app/modules/auth/service.py:267-278 | SETEX with the truncated time to live, nothing when none is left |
| `Tokens.AuthService.RefreshTokens` | app/modules/auth/service.py:155-183 | when an exchange succeeds, with which error it fails (a subject that is no UUID included), and what it revokes and issues |
| `Tokens.AuthService.Logout` | app/modules/auth/service.py:187-202 | revokes both tokens as far as they decode |
| `Tokens.AuthService.GetCurrentUser` | app/modules/auth/service.py:206-237 | when a token is accepted and with which error it is refused; a listed one never is accepted |
| `TokenRaces.OnceIffSequential` | app/modules/auth/service.py:155-183 | up to exp - 1 s a refresh token is exchanged at most once in every run if and only if refreshes of it never overlap |
| `TokenRaces.ExchangedAtMostK` | app/modules/auth/service.py:168-183 | with at most k refreshes in flight it is exchanged at most k times, logouts and passing time among them |
| `TokenRaces.ExchangedKTimes` | app/modules/auth/service.py:168-183 | and k times in some run |
| `TokenRaces.StepSimulates` | app/modules/auth/service.py:168-183 | lookup and revocation with truncated times are a check and an act on one flag up to exp - 1 s |
| `TokenRaces.AloneIsRefresh` | app/modules/auth/service.py:168-183 | a refresh that runs alone revokes the token and exchanges it, or is refused when it is listed |
| `CheckThenAct.AtMostK` | app/modules/auth/service.py:168-183 | calls that check a flag and act on it later have the effect at most as often as they overlap |
| `CheckThenAct.KTimesAttained` | app/modules/auth/service.py:168-183 | and that often in some run |
| `CheckThenAct.StepKeepsInv` | app/modules/payments/service.py:62-87 | effects that happened and those still to come stay within k at every step, and there is none before the flag is set |
| `Slug.PipelineIsOnePass` | app/modules/auth/service.py:286-295 | the passes compute the one-pass normal form of the lowered name |
| `Slug.PipelineClean` | app/modules/auth/service.py:291-294 | the result holds only non-underscore word characters and single interior hyphens |
| `Slug.PipelineIdempotent` | app/modules/auth/service.py:291-294 | a slug is its own slug |
| `Slug.PipelineKeepsPlains` | app/modules/auth/service.py:291-294 | no non-underscore word character is lost, added or moved |
| `Slug.SqueezeSeen` | app/modules/auth/service.py:293-294 | replacing runs of separators by hyphens does not change the normal form |
| `Slug.KeepSeen` | app/modules/auth/service.py:292 | dropping other characters does not change it |
| `Slug.CleanFixed` | app/modules/auth/service.py:294 | the normaliser leaves a clean string as it is |
| `Slug.GenerateSlug` | app/modules/auth/service.py:286-297 | normal form, hyphen, suffix; it starts with a hyphen if and only if the name has no non-underscore word character |
| `Slug.AsciiIsSane` | app/modules/auth/service.py:291-294 | the ASCII part of the Unicode tables has the facts that the slug results take as their premise |
| `Payments.StretchAnnounces` | app/modules/payments/service.py:60-89 | over any stretch of a run a payment is announced exactly once if it became successful there and otherwise never, and reported revenue grows by what was announced |
| `Payments.PaymentSucceeds` | app/modules/payments/service.py:67-87 | success and its event together keep: amounts equal the order's, one announcement per successful payment, revenue equals the announced amounts |
| `Payments.PaymentAdded` | app/modules/payments/service.py:38-57 | a new pending payment keeps it |
| `Payments.OrdersMove` | app/modules/orders/service.py:65-79 | orders added or moved to another status keep it |
| `Payments.FollowsCompose` | app/modules/payments/service.py:60-89 | a payment leaves pending at most once over any composition of stretches |
| `Payments.RevenueUpdate` | app/modules/analytics/service.py:25-32 | a changed payment changes the total by its own share |
| `Payments.Shop.CreateOrder` | app/modules/orders/service.py:23-49 | new order and event, or not found for a foreign customer |
| `Payments.Shop.UpdateStatus` | app/modules/orders/service.py:58-80 | new status and event, no event when unchanged, not found for a foreign order |
| `Payments.Shop.InitializePayment` | app/modules/payments/service.py:25-58 | pending payment over the order's total and its event; refused for a foreign order or a reference already drawn |
| `Payments.Shop.FindRef` | app/modules/payments/service.py:62 | the payment of a reference, if there is one |
| `Payments.Shop.VerifyPayment` | app/modules/payments/service.py:60-89 | a pending payment succeeds, its order completes and the success is announced; any other is left alone |
| `Payments.Shop.HandleWebhook` | app/modules/payments/service.py:91-96 | only charge.success with a reference verifies: a pending payment of that reference becomes successful, its order completed and nothing else of the orders changed, and the events grow by its announcement; nothing changes for any other payment |
| `Payments.AnnouncedCounts` | app/modules/payments/service.py:79-87 | announcements are counted as the success events of the payment |
| `Payments.RevenueIsASum` | app/modules/analytics/service.py:25-32 | revenue adds up, and one payment counts in full if and only if it is successful and its order is the business's |
| `Payments.AnnouncedRevenueOfOne` | app/modules/payments/service.py:79-87 | the same for one announced event |
| `PaymentRaces.OnceIffSequential` | app/modules/payments/service.py:60-89 | a payment's success is announced at most once in every run if and only if verifications never overlap |
| `PaymentRaces.AnnouncedAtMostK` | app/modules/payments/service.py:60-89 | with at most k verifications in flight, of any payments, it is announced at most k times |
| `PaymentRaces.AnnouncedKTimes` | app/modules/payments/service.py:60-89 | and k times in some run |
| `PaymentRaces.StepSimulates` | app/modules/payments/service.py:62-87 | reading a payment and committing it with its event are a check and an act on its pending status |
| `PaymentRaces.AloneIsVerify` | app/modules/payments/service.py:60-89 | a verification that runs alone completes a pending payment and its order and announces it, and leaves any other as it is |
| `Analytics.RevenueHistory` | app/modules/analytics/service.py:68-97 | the entries are the `days` consecutive UTC days ending today, each with the direct sum of the day, zero days included |
| `Analytics.CutoffLosesNothing` | app/modules/analytics/service.py:70-83 | the cutoff loses no payment of a displayed day |
| `Analytics.RevenueInIsASum` | app/modules/analytics/service.py:73-86 | the direct sum adds up, and one payment counts in full if and only if it is successful, of the business and in the interval |
| `Analytics.DayShown` | app/modules/analytics/service.py:93-94 | whatever the time of day, entry i is day today - days + 1 + i and starts no earlier than the cutoff |
| `Analytics.GroupByDaySums` | app/modules/analytics/service.py:73-86 | the grouped query's rows are in date order and carry the sums of their days |
| `Analytics.GroupByDayDates` | app/modules/analytics/service.py:73-86 | there is a row for exactly the days with a matching payment |
| `Analytics.EntryValue` | app/modules/analytics/service.py:91-95 | the row of a displayed day, or 0 without one, is the day's direct sum |
| `Analytics.HistoryConserves` | app/modules/analytics/service.py:89-97 | the entries add up to what was earned from the first midnight shown to the end of today |
| `Analytics.HistoryMeetsOverview` | app/modules/analytics/service.py:25-32 | a history that reaches back far enough adds up to the overview's total revenue |
| `Analytics.OrderDistribution` | app/modules/analytics/service.py:99-118 | total is the number of the business's orders, each status has its exact count and share, and the shares add up to 100 (0 without orders) |
| `Analytics.AnyOrder` | app/modules/analytics/service.py:101-108 | in whatever order the database returns the grouped counts, each status appears once with its count and none is missing |
| `Analytics.StatusesPartition` | app/modules/analytics/service.py:99-108 | the counts by status add up to the business's orders |
| `Analytics.CountOfCounts` | app/modules/analytics/service.py:101 | the count of a status is the number of the business's orders with it |
| `Analytics.SharesAddUp` | app/modules/analytics/service.py:110-116 | each percentage is the exact share and together they make the whole |

## Left out

- CacheInterleaving.BoundedStaleness: the hard purge of a business deletes its rules without touching the cache and
  is not among the writers; the handlers' own reads of the row and their commit are one step at the commit.
- CacheInterleaving.ExactWhenQuiet: is stated on the version committed when the answer is given; clocks of Redis and
  of the service are one clock in whole seconds.
- WorkflowCache.UpdateCoherent: SQLAlchemy skipping a write of an unchanged attribute, and a failing `client.close()`,
  are not modelled.
- CacheQuiescence.QuietHitsAreExact: says nothing of runs that move a rule; UpdateWindow shows how a move can fail.
- Workflows.QueryExact: an unordered select is taken in table order; JSON encoding and decoding are the identity.
- Conditions.OrderIsTotalIffNumeric: floats are reals with NaN and infinities, without rounding; `str`, `str.lower`
  and parsing a float are parameters; the OverflowError of `float` on a huge integer is not modelled.
- Interpolation.DependsOnNamedPaths: `str` of a JSON value is a parameter.
- Engine.WorkflowEngine.RunActions: the concurrent actions are run in task order, each a function of its resolved
  parameters; what actions do (WhatsApp, email, Gemini) and effects between them are not modelled.
- Engine.WorkflowEngine.EvaluateAndRun: the active subscription's tier is a parameter; metrics never fail.
- Quota.QuotaOvershootBound: the tier is fixed during the run and each evaluation charges 1; AI token amounts are not
  part of it.
- Metering.MeterStore.IncrementUsage: the upsert, its flush and its commit are one atomic step; the 32-bit
  width of the usage column is not modelled.
- LimiterRuns.RunBound: takes a window of at least one millisecond; how often the script's random suffix repeats is up
  to Redis, and the bound is stated for every number of repetitions.
- RateLimiter.ListRefines: the memory clock is the millisecond clock of the Redis path rather than a float of
  seconds; the choice of key and limit by path and client address is not modelled.
- RateLimiter.RateLimiter.CheckRedis: a failure before or after the script is one fault value per call; the lost
  reply is one of them.
- WebSocket.WebSocketManager.BroadcastToBusiness: which sends fail and in which order they end are parameters; the
  order of the survivors is stated for connections registered once.
- WebSocket.OverlappingBroadcasts: takes connection objects that are registered once each.
- Tokens.ExchangedAtMostOnce: requests follow one another; overlapping refreshes are in TokenRaces, for one token.
  Redis is up; without a client the code revokes nothing.
- Tokens.AuthService.RefreshTokens: decoding and signing are parameters, a token is its claims (name, role and
  business claims follow from the subject).
- Slug.GenerateSlug: the Unicode tables are a parameter with the stated facts about them; the random suffix is too.
- Payments.Shop.VerifyPayment: calls follow one another; overlapping ones are in PaymentRaces, where nothing but
  verifications runs. Deleting orders or businesses is not part of a run. Money is integer.
- Payments.Shop.InitializePayment: the drawn reference is a parameter; the provider and the mock URL are dropped.
- Analytics.RevenueHistory: the session's time zone is UTC and a date is a day number rather than ISO text.
- Analytics.OrderDistribution: percentages are exact reals; the overview's customer count, average and conversion
  rate would only add one-line facts.
- HTTP routing, Pydantic schemas, authorisation, event-bus dispatch, Redis Pub/Sub, provider clients, encryption and
  password hashing, exports and migrations are plumbing or foreign code.
