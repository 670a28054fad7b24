# Verified model of FMR's deciding engines

FMR plans finance workflows, runs them through providers, keeps their state in two small databases,
computes forecasts and valuations, and turns statement lines into canonical data. This project models
the parts that decide something and proves what they promise, for every input, every run and every
interleaving. `dafny verify dfyconfig.toml` checks all of it.

| module | models |
|---|---|
| `Graph`, `Plans`, `Selection`, `Rerun`, `Executor`, `Execution` | the workflow engine: layered topological order, selecting blueprints, compiling and validating plans, invalidation as a least fixpoint, dependency-ordered execution with approval gates |
| `Projects`, `ProjectRuns` | the project store with optimistic versions, and every interleaving of its clients |
| `Ledger`, `LedgerRuns` | the idempotent execution ledger, its event log, and every interleaving of workers that claim, release, recover and prune |
| `Columns`, `Rounding`, `Forecast`, `Workbook`, `Recalculation` | the two budget providers: the direct calculation, and the workbook of formulas seen as a compiler output with an evaluator |
| `Valuation`, `Debt`, `ThreeStatement` | the other calculators of the Python provider |
| `Statements`, `LineOrder`, `Mapping`, `Canonical`, `Conservation`, `Binding`, `Merge` | the data pipeline from parsed statement lines to canonical columns and workbook inputs, and the merge of packages |
| `Routing`, `Handoffs`, `Catalog` | choosing a provider package, handing a job over, the release lifecycle |
| `Acceptance`, `AcceptanceLaws` | accepting a recalculated workbook, as a producer paired with its validator, and what it says of their cells |
| `Ids`, `Sorting`, `Reals`, `Results` | string order, stable sorting, products and quotients, outcomes |

Objects whose methods update fields are classes (`ProjectStore`, `ExecutionLedger`, `ProviderCatalog`):
each method is proved to take the old state to the one given by a transaction function, and the run
theorems are about those functions. Loops are methods proved against a specification that does not
follow the loop. A function that only computes is tied, by a law beside it, to a statement that does not go
through it: what it answers in terms of its inputs, or how it changes when they do. Digests are functions given as parameters; only `EditedStepIsRejected`
asks them to be injective. `Decimal` amounts are exact reals, `quantize` is
rounding half to even. What a step of a workflow computes is an arbitrary function of the step, the
inputs it names and its parents' results. The repository only reports which steps a change of inputs
leaves reusable; no code copies their results into a new run. `Execution.RerunIsFullRun` shows that doing
so would be sound (`ReusedAreCopied`: the steps that are not invalidated are copied as they are).

## What does not hold, and when it does

- Completing or abandoning a ledger key that is absent, or pruning one that is not completed, appends an
  event that no row change backs: `LogStaysFaithfulIff` says exactly which transactions keep the log a
  history of the rows, and `PruneOfRunningKeyMisleads` shows one that does not. Rows are never deleted, so
  workers only ever release keys that exist, however late: `ReachableLogReproducesRows` gives the history
  in every interleaving whose prunes hit completed rows, `LateCompletionIsLogged` an owner that completes
  a key it has lost. `RetentionIsFaithful` shows that pruning any of the keys `completed_before` lists is
  safe, provided nobody writes between the listing and the prunes.
- A worker slower than its window loses its key while it still runs, and a client whose cached result no
  longer validates abandons the key without owning it: `ExclusiveKeptIff` gives the exact steps that break
  exclusive ownership, `MutualExclusion` the discipline under which none does; `SlowOwnerIsOvertaken` and
  `RejectedResultSplitsKey` are runs that end with two owners.
- The debt calculator raises once the debt is repaid before the last year, because an infinite coverage
  ratio cannot be quantized. `ScheduleExistsIff` and `BorrowingScheduleIff` give the exact condition, `RepaidEarlyRaises` a loan.
- The three-statement provider reports the check `retained_earnings_rolls_forward` as passed, but it
  overwrites equity with assets less liabilities. `RollsForwardIff` says exactly when equity does roll
  forward, `RetainedEarningsMayNotRollForward` gives a company for which it does not, and
  `OpeningEquityIsIgnored` shows that opening equity never matters.
- Rows that differ only in balance type tie in the row order of an imported package, so their row numbers
  follow the order of the lines. `OrderFreeIffNoTies` says that an import is the same in every order of its
  lines exactly when no two rows tie, and `TiedRowsKeepLineOrder` gives two lines that import differently
  the other way round. No amount depends on it.
- The recalculation check of planned formulas raises when a formula's sheet is missing from the output,
  although missing sheets are a reported failure everywhere else: `Acceptance.Accept` returns a payload
  exactly when `FormulaSheetsPresent`, and `MissingSheetRaises` gives a plan and a workbook without its sheet.
- With two entries of one identity in a catalog file, reconciling charges an intact entry with the findings
  of the other, because findings are kept by identity. `FallsForOwnFaultsIff` gives the exact condition,
  `TwinIsCharged` a catalog; the operations themselves never make two (`RunKeepsValid`).
- A job that some eligible package could be handed is not always prepared: a missing adapter only blocks a
  package, so the best eligible one may lack its adapter, and preparation raises on it. `PreparedIff` gives
  the exact condition, `MissingAdapterStops` a registry; a selected package always has its adapter
  (`SelectedHasAdapter`).
- Merging packages in stages is not always merging them at once: a merge leaves out an entity name that is
  given as null, and its result then no longer has the entity of the packages still to merge.
  `StagesSucceedIff` gives the exact condition, `NullNameStopsStages` a package.

## Model

| member | source | states |
|---|---|---|
| Ids.Sorted | fmr/workflow.py:317 | listing a set of identifiers gives each of them once, in strictly ascending code-point order |
| Ids.AscendingUnique | fmr/workflow.py:317 | an ascending listing is determined by its elements |
| Ids.LeIff | fmr/workflow.py:317 | strings are ordered by the first character in which they differ, prefixes first |
| Ids.NameIff | fmr/data/packages.py:44 | well-formed names are words of lower-case letters and digits joined by single dots, underscores or hyphens |
| Sorting.SortByOrdered | fmr/financial_data/package.py:148-168 | sorting by any total preorder orders |
| Sorting.SortByElements | fmr/financial_data/package.py:148-168 | sorting rearranges: nothing is lost or duplicated |
| Sorting.SortByStable | fmr/financial_data/package.py:155-165 | elements that tie keep the order they had |
| Sorting.OrderedUnique | fmr/financial_data/package.py:155-165 | two orderings of the same elements are equal when the key tells the elements apart |
| Sorting.LeWordsIff | fmr/core/routing.py:143 | tuples are ordered by the first component in which they differ |
| Sorting.UniqueKeepsFirst | fmr/providers/native_xlsx/workbook/calculation_public.py:227-232 | duplicates are dropped after the first, in order |
| Graph.UnresolvableIsOutside | fmr/workflow.py:313-325 | a key is never released by the layers exactly when some path from it reaches a repeated key or an undeclared dependency |
| Graph.DepthIsLongestPath | fmr/workflow.py:313-325 | the round in which a key is released is the length of its longest dependency path |
| Graph.TopologicalOrderSound | fmr/workflow.py:313-325 | the order lists every key once, each after all its dependencies |
| Graph.TopologicalOrderUnique | fmr/workflow.py:313-325 | sorting the keys by (longest path depth, identifier) determines the order completely |
| Graph.TopologicalOrder | fmr/workflow.py:313-325 | raises if and only if some key reaches a cycle or an undeclared dependency; otherwise returns the keys by (longest path depth, identifier) |
| Plans.ValidateBlueprint | fmr/workflow.py:272-304 | accepts exactly the blueprints with steps, unique identifiers, no self or unknown dependency and no cycle, and then returns their topological order; an error names a fault that the blueprint has |
| Plans.CompileSteps | fmr/workflow.py:408-449 | compiles each step of the order at its position with its own status and blockers, and gathers the mandatory blockers |
| Plans.BlockedIffBlockers | fmr/workflow.py:433-450 | some mandatory step is blocked if and only if the plan lists missing requirements |
| Plans.CompileSelected | fmr/workflow.py:402-463 | the selected blueprint compiles if and only if it is valid; the plan follows the topological order, is blocked exactly when requirements are missing, waits for approvals exactly when it is not blocked and has a gate, and is accepted by validation |
| Plans.CompiledSays | fmr/workflow.py:402-463 | every blueprint step is compiled once with its fields, job and position; a model step is blocked exactly when its route is not selected, and lists what the route misses, the family status or that nobody can run it; a source check is blocked exactly without input references; the plan is blocked exactly when a mandatory step is, and lists exactly what those lack |
| Plans.ScanSteps | fmr/workflow.py:484-500 | finds exactly the repeated identifiers and the wrong step hashes, and collects the dependencies |
| Plans.ValidatePlan | fmr/workflow.py:466-511 | reports exactly the issues of the plan: request hash, no steps, repeated identifiers, each wrong step hash, a cycle or else a position order that is not topological, plan hash |
| Plans.NoIssuesIff | fmr/workflow.py:466-511 | there is no issue if and only if every hash matches, identifiers are unique and the steps by position are the topological order of their dependencies |
| Plans.PositionsSorted | fmr/workflow.py:503 | steps are listed by position, and those at one position in the order in which the plan holds them |
| Plans.EditedStepIsRejected | fmr/workflow.py:498-500 | with injective digests, a plan whose step was edited under its old hash is rejected |
| Selection.SelectBlueprint | fmr/workflow.py:332-358 | selects the candidate that scores above every other entry of the registry, reports ambiguity when there are candidates but none stands out, and no match when there are none |
| Selection.BestPermuted | fmr/workflow.py:350-358 | the same blueprint stands out in any order of the registry, and at most one does |
| Selection.CandidateIff | fmr/workflow.py:338-352 | a candidate is for the requester's role and shares a mentioned term or a requested output |
| Selection.ScoreCounts | fmr/workflow.py:341-343 | ten points a word of a mentioned term, three an offered output that is requested, none for anything else |
| Selection.CompileWorkflow | fmr/workflow.py:389-463 | compiles the blueprint that stands out, if and only if every registered blueprint is valid and one does stand out; an error names the fault of some blueprint, ambiguity or the lack of a match |
| Rerun.ReachingClosed | fmr/workflow.py:519-527 | the steps that reach a changed step are closed under dependents |
| Rerun.ReachingLeast | fmr/workflow.py:519-527 | and they are the least such set |
| Rerun.ReachingUnion | fmr/workflow.py:519-527 | the steps reached from a union of changes are the union of those reached from each |
| Rerun.Pass | fmr/workflow.py:524-527 | one pass, in any order of the steps, stays inside the reachable set, and changes nothing only when the set is closed |
| Rerun.InvalidatedSteps | fmr/workflow.py:519-528 | the loop terminates with exactly the steps that reach a seed, whatever the order of iteration |
| Rerun.InvalidatedIff | fmr/workflow.py:519-528 | a step is invalidated exactly when a dependency path leads from it to a step that consumes a changed input |
| Rerun.InvalidatedUnion | fmr/workflow.py:519-528 | what a union of changed inputs invalidates is the union of what each invalidates |
| Rerun.RerunPlan | fmr/workflow.py:514-537 | invalidated and reusable steps partition the plan, and the invalidated ones are exactly those that reach a consumer of a changed input |
| Executor.ValidPlanExecutable | fmr/workflow.py:559-560 | a validated plan sorted by position lists every step after all its parents |
| Executor.RunStepsSolve | fmr/workflow.py:559-595 | every parent lookup succeeds, so a run fails only by its engine; otherwise each result is the loop body applied to its parents' results |
| Execution.ExecuteWorkflow | fmr/workflow.py:540-605 | refuses exactly the plans validation refuses, with their issues, and otherwise gives the outcome of the run |
| Execution.PlanVerdicts | fmr/workflow.py:559-595 | each step of the report, told from the plan, the decisions and the engine: held when a parent is not accepted or the step is blocked; otherwise a gate is approved, rejected or waiting as it was decided, an internal or assembly step is completed, and a model step ends as the engine answered for its inputs and its parents' results |
| Execution.OnlyGatesWait | fmr/workflow.py:570-587 | only a gate is approved, rejected or waiting, and only a model step fails or carries an engine result |
| Execution.PlanPriority | fmr/workflow.py:596-604 | the overall state is failed, else held, else waiting, by some mandatory step that is reported so |
| Execution.CompletedMeansAccepted | fmr/workflow.py:596-604 | the overall state is completed if and only if every mandatory step is completed or approved |
| Execution.OnlyThenTheEngine | fmr/workflow.py:562-587 | unless a step is an unblocked model step with accepted parents, its result does not depend on the engine |
| Execution.AcceptedAlongPath | fmr/workflow.py:560-565 | everything an accepted step depends on, directly or not, is accepted |
| Execution.PlanEngineAfterAncestors | fmr/workflow.py:560-587 | in the report on a valid plan, a step with an engine result has all its transitive ancestors completed or approved |
| Execution.PlanRaisesAfterAncestors | fmr/workflow.py:560-587 | when the engine raises, it is in a model step all of whose transitive ancestors are completed or approved |
| Execution.PlanNonInterference | fmr/workflow.py:514-595 | two executions of a valid plan that differ only in changed inputs report the same result for every step that the rerun plan calls reusable |
| Execution.PlanRaisesWhereInvalidated | fmr/workflow.py:514-595 | if one such execution finishes and the other raises, it raises in a step that the rerun plan invalidates |
| Execution.PlanApprovalsAreMonotone | fmr/workflow.py:570-574 | between two finished executions of a valid plan, adding approvals never changes the result of a step that was completed or approved |
| Execution.PlanApprovalsRaiseLater | fmr/workflow.py:560-587 | if the execution with more approvals raises, it raises in a step that was not completed or approved before |
| Projects.NormalizedPriority | fmr/workflow_projects.py:61-84 | normalisation reports failure, then a wait for approval, then a block, in that priority |
| Projects.ProjectStore.constructor | fmr/workflow_projects.py:90-120 | a new store is empty |
| Projects.ProjectStore.Create | fmr/workflow_projects.py:122-163 | saves a valid plan once per name and plan hash, answers a repeated request with the stored project, and refuses a different plan under the same identifier |
| Projects.CreateReply | fmr/workflow_projects.py:26-51 | every reply of a creation: tokens of letters and digits joined by single underscores, names of 1 to 160 characters without angle brackets, and the row that is made |
| Projects.ProjectStore.SetApprovals | fmr/workflow_projects.py:198-232 | merges decisions about known gates over the stored ones, one version up, or changes nothing |
| Projects.ApprovalsReply | fmr/workflow_projects.py:198-232 | decisions about a known project at the expected version are refused exactly when one is not about a human gate of its plan, and otherwise merged one by one, one version up |
| Projects.ProjectStore.CommitExecution | fmr/workflow_projects.py:253-278 | records an outcome only over the version that was run |
| Projects.ProjectStore.Execute | fmr/workflow_projects.py:234-278 | reads, runs the stored plan under the stored approvals outside the transaction, and commits, or reports the error of the run and changes nothing |
| ProjectRuns.RunKeepsInv | fmr/workflow_projects.py:122-278 | every interleaving of clients keeps the invariant: events carry versions exactly 1 to the current one, the status follows the last event, and no open snapshot is newer than its row |
| ProjectRuns.ReachableInv | fmr/workflow_projects.py:122-278 | the invariant holds in every reachable state |
| ProjectRuns.StepsAre | fmr/workflow_projects.py:122-278 | which transaction each step of a run is, and what a client keeps between the two of an execution |
| ProjectRuns.CommittedRunIsCurrent | fmr/workflow_projects.py:240-278 | a committed execution equals the run of the stored plan under the approvals in force at the commit |
| ProjectRuns.VersionCountsWrites | fmr/workflow_projects.py:217-277 | the version counts the writes since |
| ProjectRuns.CommitRefusedIffWritten | fmr/workflow_projects.py:240-256 | a commit is refused if and only if somebody wrote the project between the two transactions |
| ProjectRuns.ApprovalsAreAcknowledged | fmr/workflow_projects.py:215-232 | no approval is lost: the stored approvals are exactly the decisions acknowledged to anybody, later ones over earlier ones |
| ProjectRuns.StoredDecisionsAreGates | fmr/workflow_projects.py:210-232 | in every reachable state every stored decision is about a human gate of the stored plan |
| ProjectRuns.RecordedGatesAreAcknowledged | fmr/workflow_projects.py:240-278 | a recorded run reports each gate whose parents are accepted as it was last acknowledged to anybody: approved, rejected, or waiting when nobody decided |
| Ledger.RecoverRows | fmr/execution.py:176-190 | recovery abandons exactly the rows running since before the cutoff |
| Ledger.RecoverLeavesNoStale | fmr/execution.py:170-191 | after recovery no running row is older than the window |
| Ledger.ExecutionLedger.Claim | fmr/execution.py:115-148 | grants, answers from the cache or refuses, with the whole new state |
| Ledger.ExecutionLedger.Complete | fmr/execution.py:150-158 | stores the result of an existing row, and logs |
| Ledger.ExecutionLedger.Abandon | fmr/execution.py:160-168 | drops the result of an existing row, and logs |
| Ledger.ExecutionLedger.MarkPruned | fmr/execution.py:251-259 | prunes only a completed row, but logs in any case |
| Ledger.ExecutionLedger.RecoverStale | fmr/execution.py:170-191 | abandons the stale rows in key order and returns their keys; refuses a window below one second |
| Ledger.ExecutionLedger.CompletedBefore | fmr/execution.py:229-236 | lists a key exactly when its row is completed with a result and was last updated strictly before the cutoff, once each in key order, with that result |
| Ledger.ExecutionLedger.ExecuteRequest | fmr/execution.py:404-445 | takes rows and log to the state that claiming, running and releasing give: a provider failure is completed as a failed result, any other exception and an invalid result abandon the key, an invalid cached result is abandoned |
| Ledger.RequestReleases | fmr/execution.py:412-445 | a granted claim is always released: completed with the answer, or abandoned exactly when the attempt crashes or its result is invalid; other keys are untouched |
| Ledger.RequestIsIdempotent | fmr/execution.py:404-411 | asking again after a success gives the stored answer and changes nothing, as long as that answer stays valid |
| LedgerRuns.StoredIffCompletedKept | fmr/execution.py:115-191 | every transaction keeps that a result is stored if and only if the row is completed |
| LedgerRuns.RunKeepsStored | fmr/execution.py:115-266 | so does every interleaving of workers and operators |
| LedgerRuns.ClaimRefusedExactly | fmr/execution.py:128-148 | a claim is refused exactly on a running row that is not stale |
| LedgerRuns.ReachableClaimRefusedExactly | fmr/execution.py:115-266 | in every reachable ledger a result is stored if and only if the row is completed, and a claim is refused exactly on a running row that is not stale |
| LedgerRuns.LogStaysFaithfulIff | fmr/execution.py:150-266 | folding the event log reproduces every row after a transaction if and only if it completes or abandons an existing key or prunes a completed one |
| LedgerRuns.PruneOfRunningKeyMisleads | fmr/execution.py:251-259 | pruning a running key logs an event although its row does not change |
| LedgerRuns.RetentionIsFaithful | fmr/execution.py:304-323 | when nobody writes in between, pruning any of the keys `completed_before` lists keeps the log faithful, leaves exactly the skipped ones expired, and touches no other row and none updated at or after the cutoff |
| LedgerRuns.ResultListedAfterCompletion | fmr/execution.py:150-236 | however the run goes on, a result that is neither rejected, pruned nor overwritten is listed for exactly the cutoffs after its completion |
| LedgerRuns.ExclusiveKeptIff | fmr/execution.py:115-191 | a step keeps the invariant (at most one holder per key, and the running row is that holder's claim) if and only if it does not claim or recover past a live holder's window, nor abandon a held key |
| LedgerRuns.StepsAre | fmr/execution.py:115-266 | who holds what after each step of a run, and which transaction it runs |
| LedgerRuns.TimelyDoesNotSteal | fmr/execution.py:130-138 | within the windows no step does |
| LedgerRuns.MutualExclusion | fmr/execution.py:115-191 | if owners finish within the window of their key, recovery uses a window at least as long and cached results stay valid, at most one worker holds a key in every interleaving |
| LedgerRuns.SlowOwnerIsOvertaken | fmr/execution.py:130-138 | one claim after the window makes two workers hold one key |
| LedgerRuns.RejectedResultSplitsKey | fmr/execution.py:404-410 | two clients that reject one cached result leave two workers holding the key, with no time elapsed |
| LedgerRuns.WorkersKeepLogFaithful | fmr/execution.py:115-266 | one step of anybody, overtaken owners included, keeps the log a history of the rows and held keys present, if its prune hits |
| LedgerRuns.RunKeepsHistory | fmr/execution.py:115-266 | so does every interleaving whose prunes hit completed rows |
| LedgerRuns.ReachableLogReproducesRows | fmr/execution.py:115-266 | from the empty ledger on, folding the event log reproduces every row in every such interleaving |
| LedgerRuns.LateCompletionIsLogged | fmr/execution.py:150-158 | an overtaken owner completes the key over the claim that overtook it, and the log says so |
| Columns.NumberOfLetters | fmr/providers/native_xlsx/provider.py:225-234 | the number of the letters of n is n |
| Columns.LettersOfNumber | fmr/financial_data/binding.py:496-500 | the letters of the number of any word over A to Z are that word |
| Columns.LettersInjective | fmr/providers/native_xlsx/provider.py:225-234 | different columns have different letters |
| Columns.ColumnLetters | fmr/providers/native_xlsx/provider.py:228-232 | the divmod loop computes the letters |
| Columns.ColumnLabels | fmr/providers/native_xlsx/provider.py:225-234 | lists the labels of columns 2 to count + 1 |
| Columns.ColumnNumber | fmr/financial_data/binding.py:496-500 | the loop over characters computes the number |
| Rounding.HalfEvenIsNearest | fmr/providers/python_forecast/plugin.py:182-183 | the rounded value is the one nearest integer, the even one on a tie |
| Rounding.HalfEvenMonotone | fmr/providers/python_forecast/plugin.py:182-183 | rounding respects order |
| Rounding.HalfEvenOdd | fmr/providers/python_forecast/plugin.py:182-183 | rounding respects sign |
| Rounding.DifferenceWithinCent | fmr/providers/native_xlsx/provider.py:81-83 | a rounded difference and the difference of roundings are within one hundredth |
| Rounding.DifferenceMayBeOff | fmr/providers/native_xlsx/provider.py:81-83 | the bound is attained |
| Forecast.ParseDigits | fmr/providers/native_xlsx/provider.py:219-222 | a decimal rendering reads back as the number |
| Forecast.PeriodsDistinct | fmr/providers/native_xlsx/provider.py:219-222 | forecast periods never repeat |
| Forecast.LabelsFollowLast | fmr/providers/python_forecast/plugin.py:277-280 | after a year the labels write the following years, without leading zeros; otherwise they count from one |
| Forecast.YearIff | fmr/providers/python_forecast/plugin.py:277-280 | a year is four digits, read in decimal |
| Forecast.ForecastValues | fmr/providers/native_xlsx/provider.py:72-85 | row n holds the rounded compound revenue and cost after n + 1 periods and their rounded difference |
| Forecast.CalculateForecast | fmr/providers/python_forecast/plugin.py:186-207 | accepts exactly the usable inputs, which the workbook provider accepts too, and publishes, under the labels after the last period, the last actuals compounded at the base rates plus those of the chosen scenario |
| Forecast.InputsAreRead | fmr/providers/native_xlsx/provider.py:43-69 | what the workbook provider reads from each field of an input |
| Forecast.InputRefusedFor | fmr/providers/native_xlsx/provider.py:43-69 | what an unusable input is refused for, in the order in which its fields are read |
| Forecast.RowsPublish | fmr/providers/native_xlsx/provider.py:72-85 | the rows of either provider are those told by the fields of the input |
| Forecast.CompoundRows | fmr/providers/python_forecast/plugin.py:200-207 | the loop over summed rates compounds the same values |
| Forecast.ProvidersAgree | fmr/providers/python_forecast/plugin.py:186-207 | the two providers publish identical rows |
| Forecast.PublishedProfitReconciles | fmr/providers/native_xlsx/provider.py:79-84 | a published profit is within 0.01 of published revenue minus published cost |
| Workbook.Sources | fmr/providers/native_xlsx/provider.py:169-172 | the first forecast column reads the last actual, every other one the column to its left |
| Workbook.EmitBudget | fmr/providers/native_xlsx/provider.py:167-175 | the emitted budget sheet, cell by cell |
| Workbook.EmitWorkbook | fmr/providers/native_xlsx/provider.py:149-178 | the emitted workbook, sheet by sheet |
| Workbook.CheckColumn | fmr/providers/native_xlsx/provider.py:111-121 | reports exactly the formulas of a column that are not the expected ones, by column letter and row |
| Workbook.CheckColumns | fmr/providers/native_xlsx/provider.py:111-121 | the loop reports exactly the mismatches of all forecast columns |
| Workbook.ValidateWorkbook | fmr/providers/native_xlsx/provider.py:88-126 | for a workbook of any sheets, raises exactly when the required ones are there and the forecast or history sheet has a single column, and otherwise reports exactly the issues of the workbook |
| Workbook.PassesIff | fmr/providers/native_xlsx/provider.py:95-123 | it neither raises nor reports if and only if the workbook has the four sheets, the separation, the formulas and the check that it should |
| Workbook.CellAtIff | fmr/providers/native_xlsx/provider.py:109-122 | rows and columns are counted from one |
| Workbook.OccurrencesCount | fmr/providers/native_xlsx/provider.py:178 | the count of a text in a row is the number of its cells that show it |
| Recalculation.EmittedIsAccepted | fmr/providers/native_xlsx/provider.py:188-190 | the validator accepts every emitted workbook, whatever the horizon and the history |
| Recalculation.AcceptedCompounds | fmr/providers/native_xlsx/provider.py:111-121 | in any recalculated workbook the validator accepts, revenue and cost columns compound their bases |
| Recalculation.AcceptedProfit | fmr/providers/native_xlsx/provider.py:114-121 | and profit columns show revenue minus cost |
| Recalculation.EmittedShowsForecast | fmr/providers/native_xlsx/provider.py:72-85 | a recalculated emitted workbook shows, in every column, the unrounded revenue, cost and profit of the direct calculation |
| Recalculation.EmittedChecksPass | fmr/providers/native_xlsx/provider.py:176-178 | both cells of the Checks sheet evaluate to true |
| Recalculation.EmittedCanBeRecalculated | fmr/providers/native_xlsx/provider.py:149-178 | the emitted formulas have a consistent valuation |
| Recalculation.ReadIsEmittable | fmr/providers/native_xlsx/provider.py:138-157 | what is read from a usable input, with the history of that input, can be emitted |
| Recalculation.ReadShowsForecast | fmr/providers/native_xlsx/provider.py:138-178 | the recalculated workbook of an input shows, before rounding, what the direct calculation publishes for it |
| Valuation.DiscountYears | fmr/providers/python_forecast/plugin.py:139-147 | the yearly loop computes every cash flow, factor and present value and their sum |
| Valuation.CalculateDcf | fmr/providers/python_forecast/plugin.py:129-154 | accepts exactly the valid inputs and publishes the rounded valuation |
| Valuation.CashFlowGrows | fmr/providers/python_forecast/plugin.py:140-143 | free cash flow grows at the revenue growth rate |
| Valuation.HorizonStep | fmr/providers/python_forecast/plugin.py:139-151 | the exact change of enterprise value when the horizon grows by a year |
| Valuation.HorizonIndependentIff | fmr/providers/python_forecast/plugin.py:139-151 | enterprise value is the same for every horizon if and only if revenue grows at the terminal rate or there is no cash flow |
| Valuation.PerpetuityValue | fmr/providers/python_forecast/plugin.py:148-151 | with equal growth rates enterprise value is first-year free cash flow over discount minus growth |
| Valuation.FactorsDecrease | fmr/providers/python_forecast/plugin.py:144 | for a positive discount rate the factors lie strictly between 0 and 1 and strictly decrease |
| Valuation.EquityBridge | fmr/providers/python_forecast/plugin.py:151-154 | the published bridge from enterprise to equity value is exact to a hundredth |
| Debt.CalculateDebtCapacity | fmr/providers/python_forecast/plugin.py:157-179 | a schedule is produced exactly when every ratio of every year is defined, and its rows and verdict are those of the schedule |
| Debt.PaymentsAndBalance | fmr/providers/python_forecast/plugin.py:172-178 | payments plus closing debt always equal opening debt |
| Debt.BalanceClosedForm | fmr/providers/python_forecast/plugin.py:172-178 | debt after n periods is max(opening - n * repayment, 0) |
| Debt.EbitdaNonZero | fmr/providers/python_forecast/plugin.py:170 | earnings are never zero exactly when they start non-zero and growth is not -1 |
| Debt.ScheduleExistsIff | fmr/providers/python_forecast/plugin.py:170-177 | for repayments that are not negative, exactly when the calculation does not raise |
| Debt.BorrowingScheduleIff | fmr/providers/python_forecast/plugin.py:170-177 | for negative repayments, exactly when the calculation does not raise: no year's interest equals what it borrows |
| Debt.RepaidEarlyRaises | fmr/providers/python_forecast/plugin.py:176-177 | a loan repaid in the first of two years has no schedule |
| Debt.PassKeepsPassing | fmr/providers/python_forecast/plugin.py:175-177 | leverage only falls and coverage only rises, so a covenant that passes keeps passing |
| Debt.AllPassIffFirst | fmr/providers/python_forecast/plugin.py:177-179 | all covenants pass if and only if the first does |
| Debt.ShrinkingEarningsMayFail | fmr/providers/python_forecast/plugin.py:175-177 | without growth that is not negative a later covenant may fail |
| ThreeStatement.CalculateThreeStatement | fmr/providers/python_forecast/plugin.py:93-126 | accepts exactly the valid inputs and publishes the rounded statements of every year |
| ThreeStatement.CashReconciles | fmr/providers/python_forecast/plugin.py:117-119 | closing cash is opening cash plus accrued income and depreciation less investment and the growth of working capital |
| ThreeStatement.RollsForwardIff | fmr/providers/python_forecast/plugin.py:120-123 | equity rolls forward by net income every year if and only if opening equity agrees with the opening balances and depreciation at the new revenue equals last year's investment |
| ThreeStatement.RetainedEarningsMayNotRollForward | fmr/providers/python_forecast/plugin.py:57 | the reported check fails for a company whose opening balances agree |
| ThreeStatement.OpeningEquityIsIgnored | fmr/providers/python_forecast/plugin.py:106-124 | nothing published depends on opening equity |
| Statements.GatherLines | fmr/financial_data/package.py:49-144 | stops at the first line that breaks an acceptable prefix; otherwise the rows gathered are those of the lines in the order in which they are met |
| Statements.ShapeIssueIff | fmr/financial_data/package.py:84-111 | a line is refused exactly when its text, period type, statement, balance type or their combination is not allowed |
| Statements.GatherAllGathers | fmr/financial_data/package.py:120-144 | the rows gathered hold exactly the lines read, one row for each account |
| Statements.ImportStatements | fmr/financial_data/package.py:49-169 | accepts exactly non-empty lines of one entity, well shaped, with no account given twice for a period; periods and rows are the gathered ones, sorted stably |
| Statements.ImportedIsPackage | fmr/financial_data/package.py:148-169 | the sorted package holds exactly the lines, with periods and rows ordered |
| Statements.HeldUpdate | fmr/financial_data/package.py:131-144 | appending to one group exchanges that group's entries and no others |
| Statements.AcceptablePermuted | fmr/financial_data/package.py:49-147 | whether lines are accepted does not depend on their order |
| Statements.SamePeriods | fmr/financial_data/package.py:148-154 | nor do the periods |
| Statements.RowsAreSorted | fmr/financial_data/package.py:156-167 | rows are listed by statement, code, name and source reference, compared in that order |
| Statements.PeriodsAreSorted | fmr/financial_data/package.py:148-151 | periods are listed by their end and then their type |
| Statements.ValuesAreSorted | fmr/financial_data/package.py:152-169 | the values of a row follow the order of the periods |
| LineOrder.PackageOfPermutedLines | fmr/financial_data/package.py:148-169 | nor do the rows and their numbers, when no two rows tie |
| LineOrder.OrderFreeIffNoTies | fmr/financial_data/package.py:148-169 | every order of accepted lines imports the same periods, rows and row numbers if and only if no two rows differ in balance type alone |
| LineOrder.TiedRowsKeepLineOrder | fmr/financial_data/package.py:156-167 | two lines that differ in balance type alone are accepted either way round, and each gets the smaller row number when it comes first |
| Mapping.ValidateRules | fmr/financial_data/mapping.py:82-114 | accepts exactly the rules that name known concepts and lead no code and no normalized name to two concepts |
| Mapping.ValidatePackage | fmr/financial_data/package.py:255-334 | accepts exactly packages with distinct periods and rows, each row with values for known periods, none twice |
| Mapping.BindPermuted | fmr/financial_data/mapping.py:142-151 | the lookup tables of a valid profile do not depend on the order of its rules |
| Mapping.ChartPermuted | fmr/financial_data/mapping.py:142-151 | so a valid profile maps the same whatever the order of its rules |
| Mapping.MappedIff | fmr/financial_data/mapping.py:158-196 | a row is mapped to a concept exactly when that is its only candidate and the shapes agree |
| Mapping.CandidateIff | fmr/financial_data/mapping.py:158-172 | a row stands for the concepts of the rules that name its code or its normalized name, and only without such rules for the aliases of its name |
| Mapping.ResolvedBy | fmr/financial_data/mapping.py:174-190 | a row is unmapped without a candidate, ambiguous with two, and with one mapped or invalid by its shape |
| Mapping.ContributorIff | fmr/financial_data/mapping.py:193-196 | a row is among the sources exactly when it is mapped there and has a value for the period |
| Mapping.ContributorsAscend | fmr/financial_data/mapping.py:228-230 | sources are listed once each, in ascending order |
| Mapping.SeriesIsSorted | fmr/financial_data/mapping.py:216-226 | items are listed by concept, and those of a concept in the order of the periods |
| Mapping.AddRow | fmr/financial_data/mapping.py:193-196 | the loop over a row's values keeps every amount the exact sum and every source list the exact contributors |
| Mapping.MapRows | fmr/financial_data/mapping.py:157-212 | every row gets its status, the blockers are the ambiguous and misshapen rows, the dictionaries are the sums |
| Mapping.MapFinancialData | fmr/financial_data/mapping.py:124-249 | refuses an invalid package, then an invalid profile; otherwise the series has one item for every concept and period with contributors, sorted, each the exact sum with its exact sources |
| Mapping.NotBlocked | fmr/financial_data/mapping.py:242-243 | a mapping is ready exactly when no row is ambiguous or misshapen |
| Mapping.TotalPermuted | fmr/financial_data/mapping.py:193-196 | totals do not depend on the order of the entries |
| Mapping.MappedTotal | fmr/financial_data/mapping.py:157-196 | the amount of a concept and period is the exact sum of the input lines mapped to it, each counted once |
| Mapping.SourcesAreContributingLines | fmr/financial_data/mapping.py:193-196 | source rows are exactly those that group a contributing line |
| Mapping.ImportedIsValid | fmr/financial_data/package.py:255-334 | an imported package passes package validation |
| Canonical.Place | fmr/financial_data/canonical.py:100-115 | succeeds exactly when every item is of a known period and no slot is filled twice; columns then hold exactly the given cells |
| Canonical.CellIff | fmr/financial_data/canonical.py:103-115 | a cell is filled exactly when an item gives it, with that item's amount |
| Canonical.CompileCanonical | fmr/financial_data/canonical.py:78-151 | succeeds exactly for a valid unblocked package whose mapped concepts are complete and whose drivers are complete and override nothing, with well-formed names throughout; the columns are then the placed ones |
| Conservation.CellIsTotal | fmr/financial_data/canonical.py:100-115 | a mapped cell is the exact sum of its lines, and is filled exactly when there are any |
| Conservation.ColumnsConserveLines | fmr/financial_data/canonical.py:100-151 | a concept has a column exactly when some line is mapped to it, and every value is the total of the lines mapped to that concept and period |
| Conservation.ColumnsAreSorted | fmr/financial_data/canonical.py:127-151 | operating metrics become drivers and everything else a statement column; explicit drivers stay as given |
| Conservation.LineOrderDoesNotMatter | fmr/financial_data/canonical.py:78-151 | canonical data is the same whatever the order of the lines |
| Conservation.SuccessIgnoresLineOrder | fmr/financial_data/canonical.py:95-151 | nor does whether accepted lines compile |
| Conservation.BlockedIffSomeLineBlocks | fmr/financial_data/canonical.py:95-98 | compilation is blocked exactly when some line is ambiguous or misshapen |
| Conservation.CompleteIffLinesCover | fmr/financial_data/canonical.py:117-125 | mapped concepts are complete exactly when their lines cover every period |
| Conservation.CompilesIff | fmr/financial_data/canonical.py:95-151 | the whole pipeline succeeds exactly under conditions on the lines, the drivers and their names alone |
| Binding.CellCountIsCells | fmr/financial_data/binding.py:483-493 | the cell count of a range is the number of cells in its rectangle |
| Binding.PlanBindings | fmr/financial_data/binding.py:215-308 | binds or reports every reserved record in plan order; ready exactly when nothing is unresolved and the mapping is unblocked |
| Binding.BoundFillsCells | fmr/financial_data/binding.py:285-306 | a bound record has one value for every cell it reserves |
| Binding.NothingDropped | fmr/financial_data/binding.py:215-306 | every reserved record is bound or unresolved; with none unresolved each is bound in its place |
| Binding.BoundInOrder | fmr/financial_data/binding.py:219-306 | bound records are listed in plan order, each with its own values |
| Binding.UnresolvedInOrder | fmr/financial_data/binding.py:219-306 | unresolved records are listed in plan order, each with its own reason |
| Binding.ConstantFills | fmr/financial_data/binding.py:223-246 | a record without a rule is reported so, and a constant fills every cell |
| Binding.UnboundFor | fmr/financial_data/binding.py:248-283 | a concept without a value in any period is reported so, and one with another number of values than cells with both numbers |
| Binding.BoundNumbersAreLineTotals | fmr/financial_data/binding.py:255-306 | the numbers bound are the totals of the concept's lines in period order, or the latest one, and exactly when a record can be bound |
| Merge.RecordOne | fmr/adapters/sources/tabular.py:294-298 | another value for a place conflicts exactly when it differs from the recorded one |
| Merge.MergeSeries | fmr/adapters/sources/tabular.py:294-298 | merging a series fails exactly when some value disagrees, and otherwise records exactly its values |
| Merge.MergeColumns | fmr/adapters/sources/tabular.py:134-139 | merging one package succeeds or fails the same in any order of its columns |
| Merge.MergeAll | fmr/adapters/sources/tabular.py:132-139 | the loop over packages records exactly what they say, or fails exactly when they disagree |
| Merge.MergeCanonicalData | fmr/adapters/sources/tabular.py:118-153 | succeeds exactly for valid packages of one entity that agree wherever they overlap and together cover every field in every period; the result says exactly what they say, without a null entity name |
| Merge.ValidateData | fmr/data/packages.py:21-61 | accepts exactly data with an identified entity, a currency code, distinct named periods, and well-named columns of known sections with a number for each period |
| Merge.MergeKeepsValues | fmr/adapters/sources/tabular.py:134-139 | a merged value agrees with every package that supplies it, and every merged value was supplied |
| Merge.MergeCoversPeriods | fmr/adapters/sources/tabular.py:131-145 | every merged column covers exactly the union of the periods |
| Merge.MergeOrderDoesNotMatter | fmr/adapters/sources/tabular.py:118-153 | permuting the packages changes neither success nor any value |
| Merge.MergeInStages | fmr/adapters/sources/tabular.py:118-153 | merging some packages first and the rest into the result is merging them all at once, in success and in every value, unless the entity has a null name and something is left to merge; then never both succeed |
| Merge.StagesSucceedIff | fmr/adapters/sources/tabular.py:128-140 | for packages that merge at once, stages succeed if and only if the entity has no null name or nothing is left to merge |
| Merge.NullNameStopsStages | fmr/adapters/sources/tabular.py:268-279 | a package with a null entity name merges with itself but not into its own merge |
| Routing.PreferencePoints | fmr/core/routing.py:101-103 | points are positive exactly for preferred providers |
| Routing.ScoreIsWeighted | fmr/core/routing.py:101-115 | the score is the sum of the policy's weights, each counted exactly when what it stands for is the case, twice for a named industry and by rank for a preferred provider |
| Routing.NoReasonsIff | fmr/core/routing.py:24-43 | a job rejects a package for none of its constraints exactly when all of them are met |
| Routing.NoOtherReasonsIff | fmr/core/routing.py:46-98 | the policy, the fit and the supplies raise nothing exactly when their conditions are met |
| Routing.RejectedFor | fmr/core/routing.py:24-69 | a package is rejected for exactly what the job, the policy and the fit hold against it, each reason for its own cause and with exactly what is missing |
| Routing.BlockedBy | fmr/core/routing.py:71-98 | a package is blocked by exactly the data, assumptions, source, adapter and executor it lacks |
| Routing.ExecutableIff | fmr/core/routing.py:116-124 | a package is executable exactly when job constraints, policy, fit and supplies all agree |
| Routing.MoreSuppliesHelp | fmr/core/routing.py:71-116 | supplying more data, assumptions or inputs rejects nothing, never lowers the score and keeps an executable package executable |
| Routing.SelectionIsBest | fmr/core/routing.py:133-148 | a job of a known family is routed exactly when some registered package of the family is executable, and then to one minimal under (-score, identifiers, versions) among all of them; there is no route exactly when none is |
| Routing.EvaluatedIff | fmr/core/routing.py:141-142 | every registered package of the family is evaluated, and nothing else is |
| Routing.RankIs | fmr/core/routing.py:143 | candidates are compared by score, then provider, package and their versions |
| Routing.DecisionTells | fmr/core/routing.py:138-158 | the status of a decision, what it lists as missing, and the ordered executable packages other than the selected one that remain |
| Routing.PackagesPermuted | fmr/registry/providers.py:258-269 | a family's packages are listed the same whatever the order of registration |
| Routing.RegistrationOrderDoesNotMatter | fmr/core/routing.py:133-178 | the whole decision is the same whatever the order of registration |
| Routing.PackagesSorted | fmr/registry/providers.py:258-269 | the packages of a family are its registered ones, listed by provider, package and version |
| Routing.TighteningOnlyRejects | fmr/core/routing.py:21-130 | tighter constraints leave scores and blockers alone and only take eligibility away |
| Routing.TighteningKeepsWinner | fmr/core/routing.py:133-148 | tightening that leaves the winner eligible never changes the selection |
| Handoffs.CompiledHandoffIsSound | fmr/core/handoffs.py:27-79 | a handoff compiled from any decision targets an eligible candidate and is ready exactly when the route was selected |
| Handoffs.TargetIsBest | fmr/provider_service.py:18-28 | the target is the best-ranked executable candidate, or else the best-ranked eligible one |
| Handoffs.PreparedIff | fmr/provider_service.py:12-31 | a handoff is prepared exactly when the route has a target, that target's own adapter is installed and compiles, and no secret is embedded; it is for the registered package that ranks best |
| Handoffs.SelectedHasAdapter | fmr/core/routing.py:94-116 | a selected package has its adapter |
| Handoffs.MissingAdapterStops | fmr/provider_service.py:20-30 | preparation raises on the best eligible package, which lacks its adapter, while another eligible one has it |
| Catalog.ProviderCatalog.Submit | fmr/registry/catalog.py:36-74 | adds a sound release once; the same release again answers with the entry as it is, different content is refused |
| Catalog.SubmitReply | fmr/registry/catalog.py:47-74 | a new release enters in the first state, true to its own hashes; a known identity answers when all three hashes agree, and is refused otherwise |
| Catalog.ProviderCatalog.Transition | fmr/registry/catalog.py:76-93 | moves a release along the lifecycle only, and to active only when available and executable |
| Catalog.TransitionReply | fmr/registry/catalog.py:13-19 | which states a release may move to, from each state, and that activation asks for availability and executable conformance |
| Catalog.ProviderCatalog.SetAvailability | fmr/registry/catalog.py:116-126 | changes availability and nothing else |
| Catalog.AvailabilityReply | fmr/registry/catalog.py:116-126 | marks the first release of an identity and changes nothing else of it |
| Catalog.ProviderCatalog.Reconcile | fmr/registry/catalog.py:128-143 | makes incompatible exactly the live releases that are unavailable or whose identity has findings, and reports each once in catalog order with its reasons |
| Catalog.ProviderCatalog.ActiveManifests | fmr/registry/catalog.py:145-153 | lists the manifests of exactly the active and available releases, each once in catalog order, when the audit passes |
| Catalog.OfferedIff | fmr/registry/catalog.py:152 | a release is offered exactly when active and available |
| Catalog.AuditPassesIff | fmr/registry/catalog.py:95-114 | the audit passes exactly when every entry is readable, attested and true to both hashes |
| Catalog.IssuesTell | fmr/registry/catalog.py:98-111 | each finding has its own cause, and a manifest that cannot be read hides the others |
| Catalog.FallsIff | fmr/registry/catalog.py:128-141 | a release falls exactly when live and unavailable or under an identity with findings |
| Catalog.ProviderCatalog.Findings | fmr/registry/catalog.py:95-114 | keeps, for every identity, the findings of its last entry that fails the audit |
| Catalog.FindingIff | fmr/registry/catalog.py:129-133 | an identity has findings exactly when some entry under it fails the audit |
| Catalog.FindingIsOwn | fmr/registry/catalog.py:129-133 | with one entry per identity, the findings of an identity are those of its entry |
| Catalog.FallsForOwnFaultsIff | fmr/registry/catalog.py:129-142 | releases become incompatible for their own faults alone if and only if no intact live release shares its identity with an entry that fails the audit |
| Catalog.TwinIsCharged | fmr/registry/catalog.py:129-142 | an intact release becomes incompatible through an entry of the same identity |
| Catalog.RunKeepsValid | fmr/registry/catalog.py:36-143 | over every run identities stay unique and ordered, every entry passes the audit, and active releases are executable |
| Catalog.RunIsSequential | fmr/registry/catalog.py:36-143 | a run applies its operations one after the other |
| Catalog.ApplySteps | fmr/registry/catalog.py:13-19 | an operation never changes what a release is, and its state only along the lifecycle |
| Catalog.ReleasesAreKept | fmr/registry/catalog.py:13-19 | over every run a release stays with its content, and a withdrawn one stays withdrawn |
| Catalog.SubmitAgain | fmr/registry/catalog.py:66-70 | submitting the same release again changes nothing |
| Catalog.ReconcileSettles | fmr/registry/catalog.py:128-143 | after reconciling any catalog, whatever is live is available and intact, and reconciling again changes nothing |
| Catalog.CatalogIsSorted | fmr/registry/catalog.py:71-73 | releases are listed by provider and version, each pair once |
| Acceptance.StyleFoundIff | fmr/providers/native_xlsx/workbook/calculation_public.py:115-134 | a style is found exactly when every cell of the range has it |
| Acceptance.VerifyRecords | fmr/providers/native_xlsx/workbook/calculation_public.py:76-163 | lists exactly the clean records and the failing ones with their codes, in plan order, and counts the reserved cells and the filled ones |
| Acceptance.InputsPopulatedIff | fmr/providers/native_xlsx/workbook/calculation_public.py:98-103 | the two counts agree exactly when every reserved cell is filled |
| Acceptance.FormulaChecks | fmr/providers/native_xlsx/workbook/calculation.py:515-569 | checks every planned formula in order, and raises exactly when a formula's sheet is missing |
| Acceptance.ScanFormulas | fmr/providers/native_xlsx/workbook/calculation.py:572-594 | counts the formula cells, those without a value and those that hold an error |
| Acceptance.ScanCleanIff | fmr/providers/native_xlsx/workbook/calculation.py:572-594 | both bad counts are zero exactly when every formula has a value that is no error |
| Acceptance.Accept | fmr/providers/native_xlsx/workbook/calculation_public.py:166-257 | builds the combined acceptance, or raises exactly when a planned formula's sheet is missing |
| Acceptance.MissingSheetRaises | fmr/providers/native_xlsx/workbook/calculation.py:515-525 | verifying a formula whose sheet is gone reports the missing sheet, but the acceptance raises |
| Acceptance.RecordsAreAccounted | fmr/providers/native_xlsx/workbook/calculation_public.py:203-226 | every record is verified in both workbooks or has a failure that names the workbook |
| Acceptance.ProducedIsValid | fmr/providers/native_xlsx/workbook/calculation_public.py:260-438 | the validator finds no issue in any acceptance the producer builds |
| Acceptance.PassedIff | fmr/providers/native_xlsx/workbook/calculation_public.py:242-253 | an acceptance passes exactly when both workbooks hold every record, every reserved input is filled, every planned formula calculates soundly and no formula anywhere is missing or in error |
| AcceptanceLaws.PassedMeans | fmr/providers/native_xlsx/workbook/calculation_public.py:166-257 | a recalculation passes exactly when both workbooks keep every record cell by cell and have every reserved cell filled, every planned formula is still one with a value of its type and sign that is no error, and nothing else is broken |
| AcceptanceLaws.KeptIff | fmr/providers/native_xlsx/workbook/calculation_public.py:82-144 | a record has no issue exactly when the workbook keeps its sheet position, value, formula or style |
| AcceptanceLaws.IssueBlames | fmr/providers/native_xlsx/workbook/calculation_public.py:82-144 | which code is reported of a record that is not kept, down to the first cell without its style |
| AcceptanceLaws.ChecksTell | fmr/providers/native_xlsx/workbook/calculation.py:527-556 | each issue of a formula check is raised for its own reason |
| AcceptanceLaws.ErrorIff | fmr/providers/native_xlsx/workbook/calculation.py:532 | a text is an error in any case of its letters |
| Acceptance.ValidPassCoversPlan | fmr/providers/native_xlsx/workbook/calculation_public.py:388-436 | any payload the validator accepts and that passed covers its whole plan without a failure |
| AcceptanceLaws.CountIssuesTell | fmr/providers/native_xlsx/workbook/calculation_public.py:339-386 | each count of the summary is compared with the part it repeats, and the status with the failures |
| AcceptanceLaws.ListIssuesTell | fmr/providers/native_xlsx/workbook/calculation_public.py:297-338 | repeated, miscounted and mismatched lists are each reported |
| AcceptanceLaws.PlanIssuesTell | fmr/providers/native_xlsx/workbook/calculation_public.py:388-436 | unknown records and unmatched formulas are each reported |
| AcceptanceLaws.UnaccountedIff | fmr/providers/native_xlsx/workbook/calculation_public.py:414-420 | and so is a planned record that is neither verified nor fails |
| AcceptanceLaws.AcceptanceVerifies | fmr/providers/native_xlsx/workbook/calculation_public.py:203-214 | an acceptance verifies exactly the identifiers of records that both workbooks keep |
| AcceptanceLaws.AcceptanceLists | fmr/providers/native_xlsx/workbook/calculation_public.py:215-226 | its failures are those of the input in order and then those of the output |
| AcceptanceLaws.AcceptanceSays | fmr/providers/native_xlsx/workbook/calculation_public.py:227-241 | it repeats the input cells and how many of them are filled, the formula checks and the counts of the scan |

## Left out

- SQLite, WAL, files and temporary-file replacement: each transaction is one atomic step on the tables, and the catalog's load, change and write is one call on its list of releases.
- Timestamps of projects and events, and more than one reading of the clock inside one ledger transaction: a transaction happens at one instant.
- SHA-256, JSON rendering, derived identifiers and contract versions: digests are parameters, and identifiers that only repeat a digest are not fields.
- `Decimal`'s 28-digit context and the conversion of amounts to floating point when cells are written or values are bound: amounts are exact reals.
- Formula text: emission and validation compare expression trees, and the grammar of references is not parsed; an engine's normalisation of formula text and number formats is a parameter of `Acceptance`.
- Whitespace stripping and blank checks of names, dependency and changed-input strings, and the text scores that classify a job's family.
- Plans.ValidateBlueprint: leaves out the contract field list, the roles, the term lists and the checks of capability, consumes, produces and model fields, which inspect one field each.
- Plans.ValidatePlan: leaves out the contract field lists of plan and steps and the parsing of the embedded request, which return early with one issue.
- Selection.SelectBlueprint: whether an objective mentions a term and how many words a term has are parameters, and the selection evidence repeats the scores.
- Workflow requests, the internals of the engine a model step calls, and the derivation of a step's model job: a route and an engine answer are parameters of the step.
- The audit, lookup, backup and status operations of the ledger, and deleting managed files before a key is pruned.
- Projects.ProjectStore.Execute: for an uninterrupted client; the interleaved form is the pair of steps in `ProjectRuns`.
- Routing.SelectionIsBest: decision reasons, rejected-candidate summaries and readiness details repeat the evaluations and are not fields.
- The text checks of a statement line (blank fields, currency, date and amount syntax) and the check for secrets in a handoff payload: one flag each. What an adapter compiles for a job is a parameter of `PrepareHandoff`.
- Row numbers rendered as six digits: sorting them as strings agrees with their order up to 999,999 rows.
- Canonical.CompileCanonical: leaves out record lists, provenance and the validation of a mapping result given from outside; of the final validation it keeps what concerns periods, columns and names.
- Conservation.LineOrderDoesNotMatter: about periods, statements and drivers; the record lists follow row numbers, which `LineOrder` is about.
- Merge.MergeCanonicalData: leaves out record lists, assumptions and provenance, which are concatenated, with their part of validation.
- Binding.PlanBindings: leaves out the validation of the binding profile, the write plan and its receipt.
- Mapping.ValidateRules: leaves out the field list, name and digest of a profile.
- The method and evidence texts of row mappings, and the sort of the candidate list they show.
- Importing spreadsheets and ledgers into canonical packages, other than statement lines: `_to_canonical`, with its checks that a trial balance balances and a debt schedule rolls forward.
- The manifest, conformance and receipt checks of a release submission: one flag.
- Acceptance.Accept: leaves out the workbook inspection, engine metadata and execution receipt checks.
- Acceptance.ProducedIsValid: about the validator's counts, lists and plan; its checks of identifiers, hashes, files, engine and controls are left out.
- The practitioner budget workbook, command line, HTTP, MCP and browser layers, knowledge playbooks and SDK scaffolding.
