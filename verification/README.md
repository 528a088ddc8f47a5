# Sports analytics: a verified model of the decision logic

This Dafny project models the decision logic of the sports analytics platform and proves what it promises. The code is
grouped as the program is; each file names the source file it follows.

* **Combinations.** `Opportunities`, `Dependencies`, `CombinationContracts`, `ManualValidation`, `Subsets`,
  `CombinationBuilder` and `CombinationSearch` model the pairwise dependency classification, the validation of a leg set
  and the bounded builder that prunes early. `CombinationArtifacts` and `CombinationAgreement` model the verifier that
  recomputes everything from persisted rows, and prove that producer and verifier agree. `OpportunitySearch` and
  `DecisionRanks` model filtering, ranking, the decisions recorded and the check of persisted ranks.
  `CombinationsOnFields`, `BuilderOnFields`, `ArtifactsOnFields` and `DecisionsOnFields` say on the fields what is
  accepted, built, tried and refused, and why.
* **Scheduler.** `Transactions` is the unit of work; `SchedulerStore` and `Scheduler` are the persisted tables and one
  tick; `SchedulerRuns` proves guarantees over all runs of one scheduler, `SchedulerInterleaving` over all interleavings
  of several; `SchedulerTicks` reads off the stored rows which sports the next tick enqueues.
* **Acquisition.** `Admission`, `AcquisitionStore` and `AcquisitionService` model one acquisition cycle,
  `AcquisitionRuns` the protocol over all its runs under the job lease, `AcquisitionRaces` without it; `Fallback`,
  `Orchestration` and `OrchestrationRuns` model a logical cycle over both providers and the attempts that drive it.
  `AcquisitionOnRows` and `OrchestrationOnRows` list every admission, stored row, answer and failure class.
* **Configuration.** `SettingsLayers` is the layered merge; `NestedMappings` and `EnvironmentLayer` build the nested
  mapping of environment variables in place, in the heap; `EnvironmentNames` says which path a name addresses.
* **Backtests.** `Settlement`, `EquityCurves`, `BacktestMetrics`, `Backtest` and `BacktestSafety` model the
  rolling-origin backtest, `BacktestTrail` and `BacktestIdentity` what its audit trail and its bet identifiers
  guarantee, `BacktestCompletion` exactly when a run completes; `ScoreBacktest` models the historical 1X2 backtest.
  `MetricsOnBets`, `BacktestOnFields` and `ScoresOnRows` state their results on the fields.
* **Bookmaker data.** `ReconciliationGuard` models the cross-provider guard; `NativeInventory` and
  `NativeInventoryWriter` model the loader's verification of the native inventory and the writer it must accept;
  `InventoryOnFields` states on the fields what the loader accepts.
* **Input.** `DecimalIntegers` models the strict integer parsers.

`Wrappers`, `Providers`, `Ordering`, `Aggregates` and `Partitions` hold what several of these share: results and
options, the providers, stable sorting, sums and products, grouping.

## Conventions

Loops over mutable state are methods with invariants, proved equal to functions on values; objects whose methods update
their fields are classes. A raised exception is an `Err` or a `None`. Timestamps are integers in microseconds, dates are
days, `Decimal` and `float` are exact reals. Content addresses (identifiers, digests) are function parameters; where a
member needs that some of them do not collide, it says which. Generated identifiers come from a counter or are replaced
by natural keys. Whatever a step reads from outside (clocks, browser and publisher outcomes, commit failures) is a
parameter, and the theorems hold for all its values. A set whose iteration order matters is a sequence without
duplicates.

Orders, conditions and classifications are named where proofs share them. The modules called `OnFields`, `OnRows` and
`OnBets`, `SchedulerTicks` and `EnvironmentNames` say once more, on raw fields and literals and without those names,
what each operation returns, stores or refuses.

## Results worth knowing

* After a sport's first cycle every slot is the time of the tick that enqueued it: `next_eligible` starts at the current
  time, so the acquisition interval bounds the spacing from below but does not set it (`SchedulerRuns.RunIsScheduled`,
  `SchedulerRuns.EnqueuedExactlyWhenDue`).
* The spacing is a property of a single scheduler: `SchedulerInterleaving.SpacingFailsForTwoSchedulers` gives a run of
  two that breaks it, and `SchedulerInterleaving.RunIsSpacedExactly` says exactly which runs are spaced.
* Two `exclusive:` claims for one scope make the verdict depend on the iteration order of a set, and nothing else does
  (`Dependencies.VerdictOrderIndependent`).
* The single-row check of a persisted combination accepts a pair of a leg with itself; it lists every pair exactly when
  there is none (`CombinationAgreement.RowListsEveryPairExactly`). The check against the opportunity rows excludes it.
* Ranks restart in every fold while the artifact check counts all decisions under one filter together, so the decisions
  of a run pass exactly when at most one of its folds accepted anything (`BacktestTrail.RunRanksAcceptedExactly`).
* A logical cycle can persist two decisions, and different ones: an attempt that is interrupted after it decided is
  repeated. It persists as many as attempts returned (`OrchestrationRuns.DecisionsExactly`).
* A published partial cycle is returned as partial but stored as succeeded. A replay therefore answers differently
  (`AcquisitionService.ReplayAgreesExactly`), and a retried logical cycle selects that provider although its first
  attempt did not count as a success (`OrchestrationRuns.PartialBecomesSuccess`).
* Registering a known snapshot again compares checksum, path and cycle but neither provider nor sport. Runs own their
  snapshots exactly when no publication repeats another run's (`AcquisitionRuns.OwnedExactly`).
* That a terminal run never changes rests on the job lease: `AcquisitionRaces.TerminalNeedsTheLease` is a run of two
  workers that overwrites one, `AcquisitionRaces.TerminalIsFinalExactly` says exactly which runs do not.
* The drawdown of the score backtest runs over the accepted rows in the order of their markets, not of their dates.

## Model

| member | source | states |
|---|---|---|
| `Dependencies.Claims` | src/sports_analytics/combinations/contracts.py:481-489 | The claims dictionary filled by the loop: a later key for a scope overwrites an earlier one |
| `Dependencies.ClaimsSound` | src/sports_analytics/combinations/contracts.py:481-489 | A scope is claimed exactly when some key claims it, and with a value that some key gives it |
| `Dependencies.ClassifyPairSymmetric` | src/sports_analytics/combinations/contracts.py:288-337 | The classification of a pair, reported identifiers included, does not depend on which leg is named first |
| `Dependencies.ClaimsIgnoreOrder` | src/sports_analytics/combinations/contracts.py:475-496 | Key sets with at most one claim a scope yield the same claims in every iteration order |
| `Dependencies.ClaimsOrderIndependent` | src/sports_analytics/combinations/contracts.py:475-496 | The claims of a key set are independent of its iteration order if and only if no scope has two claims |
| `Dependencies.VerdictOrderIndependent` | src/sports_analytics/combinations/contracts.py:475-496 | Every verdict on contradictory claims is independent of the iteration order if and only if no scope has two claims |
| `Dependencies.ClassifyIgnoresOrder` | src/sports_analytics/combinations/contracts.py:207-337 | Legs with unambiguous keys classify alike however their keys are listed |
| `Dependencies.AmbiguousClaimsChangeTheVerdict` | src/sports_analytics/combinations/contracts.py:475-496 | A concrete ambiguous key set whose verdict flips with the iteration order |
| `Dependencies.SeparateExactly` | src/sports_analytics/combinations/contracts.py:288-337 | Legs with unambiguous keys are structurally separate exactly when their events differ, both metadata are complete, they share no key and no participant, and no two keys claim different values for one scope |
| `CombinationContracts.ClassifyPairs` | src/sports_analytics/combinations/contracts.py:409-417 | The nested loops list every pair in order or stop at the first conflicting or unknown one |
| `CombinationContracts.CombinedOdds` | src/sports_analytics/combinations/contracts.py:425-429 | The running product of the odds |
| `CombinationContracts.ValidateCombination` | src/sports_analytics/combinations/contracts.py:384-472 | The whole validation in the order of its checks: the combination built, or the first failing check |
| `CombinationContracts.ValidationMeaning` | src/sports_analytics/combinations/contracts.py:384-472 | Validation succeeds exactly on leg sets that are acceptable by an order-free definition: count, distinct identifiers, eligible legs, pairwise structural separation, product, timing, horizon, probability and expected-value bounds |
| `CombinationContracts.ValidationIgnoresLegOrder` | src/sports_analytics/combinations/contracts.py:393-472 | The outcome, error included, is the same for every arrangement of the legs |
| `CombinationContracts.AcceptablePermutation` | src/sports_analytics/combinations/contracts.py:393-443 | Acceptability and the two products are permutation invariant |
| `CombinationContracts.PairsOfSeparate` | src/sports_analytics/combinations/contracts.py:288-337 | No pair is rejected exactly when all legs are pairwise structurally separate |
| `CombinationContracts.WholeErrorMeaning` | src/sports_analytics/combinations/contracts.py:418-443 | The checks on the whole set fail exactly when one of the order-free bounds does |
| `CombinationsOnFields.ParseClaimExactly` | src/sports_analytics/combinations/contracts.py:481-496 | A key claims a value for a scope if and only if it reads exclusive:<scope>=<value> with neither part empty |
| `CombinationsOnFields.ClassifiedOnFields` | src/sports_analytics/combinations/contracts.py:288-337 | Class, reason and identifiers of a pair, decided on the fields of the two legs: one selection or market of an event conflicts, two markets of one event are unknown, and so on down to structural separation |
| `CombinationsOnFields.LegErrorOnFields` | src/sports_analytics/combinations/contracts.py:398-408 | Which of the five checks a leg fails first, on its evaluation mode, odds, quote time, sport and market |
| `CombinationsOnFields.ValidOnFields` | src/sports_analytics/combinations/contracts.py:384-443 | Validation succeeds if and only if the fields of the legs meet every rule, written out without a named condition |
| `CombinationsOnFields.BuiltOnFields` | src/sports_analytics/combinations/contracts.py:425-472 | The combination has the legs in strict order of their identifiers, the products of their odds and probabilities, and the expected value and identifier these give |
| `CombinationsOnFields.TimesOnFields` | src/sports_analytics/combinations/contracts.py:418-424 | Its earliest and latest start and its information time are the extremes of its legs |
| `CombinationsOnFields.DependenciesOnFields` | src/sports_analytics/combinations/contracts.py:409-417 | It lists n(n-1)/2 dependencies, the classification of every pair of its legs, all structurally separate |
| `CombinationsOnFields.ErrorOnFields` | src/sports_analytics/combinations/contracts.py:384-443 | The error of a refused leg set is the first check that fails, in the order count, identifiers, first leg, first pair, and the seven checks on the whole set |
| `ManualValidation.ValidateManually` | src/sports_analytics/combinations/contracts.py:340-381 | Manual validation: every bad pair is listed in pair order, and without one the full validation decides |
| `ManualValidation.ManualAgrees` | src/sports_analytics/combinations/contracts.py:340-381 | Manual and automatic validation accept the same leg sets and build the same combination; ineligible results carry reasons and no combination |
| `DecisionsOnFields.ManualOnFields` | src/sports_analytics/combinations/contracts.py:340-381 | The manual result lists the classification of every pair and, at its place among the bad pairs, a reason for each; without a bad pair, the error of full validation |
| `Subsets.CombosCount` | src/sports_analytics/combinations/builder.py:85-91 | There are C(n, k) tuples of k candidates |
| `Subsets.CombosComplete` | src/sports_analytics/combinations/builder.py:85-91 | The tuples of k candidates are exactly the k-element subsequences |
| `Subsets.AllCombosComplete` | src/sports_analytics/combinations/builder.py:85-91 | The whole enumeration visits exactly the subsequences with a leg count in bounds |
| `Subsets.EachSubsetOnce` | src/sports_analytics/combinations/builder.py:85-91 | No two visited positions hold the same set of candidates |
| `Subsets.SmallerFirst` | src/sports_analytics/combinations/builder.py:85-86 | Smaller leg counts come first |
| `Subsets.SameSizeInOrder` | src/sports_analytics/combinations/builder.py:85-91 | Of two tuples of one size the earlier has the earlier candidate at the place where they first differ |
| `CombinationBuilder.EarlyRejectionReason` | src/sports_analytics/combinations/builder.py:124-155 | The early check with its running odds, horizon and pair tests |
| `CombinationBuilder.PruningIsLossless` | src/sports_analytics/combinations/builder.py:124-155 | Whatever the early check rejects, full validation rejects too, or in the trusted mode a leg failed its quality check; and every such leg is caught |
| `CombinationBuilder.OutcomeIsNaive` | src/sports_analytics/combinations/builder.py:92-104 | Checking early and then validating builds the same combination from a tuple as validating every admissible tuple |
| `CombinationBuilder.EvaluateTuple` | src/sports_analytics/combinations/builder.py:92-104 | The decision on one tuple |
| `CombinationBuilder.EvaluateLegCount` | src/sports_analytics/combinations/builder.py:86-104 | The inner loop under the evaluation limit: how many tuples were visited, what they built and rejected, and whether the limit stopped it |
| `CombinationBuilder.EvaluateTuples` | src/sports_analytics/combinations/builder.py:84-106 | The loop over leg counts, equal to the naive builder on the visited tuples |
| `CombinationBuilder.BuildCombinations` | src/sports_analytics/combinations/builder.py:59-117 | The build fails exactly on repeated identifiers and otherwise equals the naive builder: ranked, trimmed, with its rejections and its truncation flag |
| `CombinationSearch.BuiltPlusRejected` | src/sports_analytics/combinations/builder.py:91-104 | Built and rejected tuples together are the evaluated ones |
| `CombinationSearch.BuildCounts` | src/sports_analytics/combinations/builder.py:73-117 | Evaluated is the lesser of the limit and the sum of C(n, k); returned is the lesser of the limit and evaluated minus rejected; truncated is false exactly when no candidate, subset or result was dropped |
| `CombinationSearch.ReturnedAreBest` | src/sports_analytics/combinations/builder.py:107-121 | Everything cut off ranks behind everything kept by expected value and identifier, and the two together are all that was built |
| `CombinationSearch.ReturnedByValue` | src/sports_analytics/combinations/builder.py:107-121 | What is returned descends by expected value and ascends by identifier among equals, and nothing that was dropped has a greater expected value, or the same one and a smaller identifier |
| `CombinationSearch.CandidatesByValue` | src/sports_analytics/combinations/builder.py:73-83 | The candidates descend by expected value and then probability and ascend by event and selection among equals, and nothing left out would come before any of them |
| `BuilderOnFields.EarlyOnFields` | src/sports_analytics/combinations/builder.py:124-155 | The early check names the first leg in rank order that fails its quality, mode or odds or takes the product above the maximum, then an exceeded horizon, then the first bad pair |
| `BuilderOnFields.TriedOnFields` | src/sports_analytics/combinations/builder.py:84-91 | The tuples tried are subsequences of the candidates with an allowed number of legs, in the order of their size and of their first differing candidate |
| `BuilderOnFields.RejectedOnFields` | src/sports_analytics/combinations/builder.py:91-104 | Every rejection names, in order, the identifiers of a tuple that was tried and the error of its early check or of its validation |
| `CombinationSearch.ReturnedAreValid` | src/sports_analytics/combinations/builder.py:92-117 | Every returned combination is the validation of legs taken from the input |
| `CombinationSearch.UntruncatedIsComplete` | src/sports_analytics/combinations/builder.py:59-117 | When nothing was truncated every acceptable leg set of the input is among the results |
| `CombinationSearch.BuildIgnoresInputOrder` | src/sports_analytics/combinations/builder.py:59-117 | Without ranking ties the result does not depend on the order of the input |
| `CombinationSearch.BuildOfDistinctSelections` | src/sports_analytics/combinations/builder.py:59-117 | With at most one opportunity a selection there are no ties, so the order of the input never matters |
| `CombinationArtifacts.VerifyRow` | src/sports_analytics/artifact_schemas.py:891-963 | The single-row check accepts exactly the rows that satisfy its conditions |
| `CombinationArtifacts.CheckPairs` | src/sports_analytics/artifact_schemas.py:907-926 | The pair loop accepts exactly distinct, in-range pairs |
| `CombinationArtifacts.VerifyDependencies` | src/sports_analytics/artifact_schemas.py:1174-1207 | The dependency check accepts exactly when every declared pair is recomputed identically and separate |
| `CombinationArtifacts.RecomputeLegs` | src/sports_analytics/artifact_schemas.py:1085-1171 | The loop over the leg rows: products, earliest and latest start, information time |
| `CombinationArtifacts.VerifyAgainstOpportunities` | src/sports_analytics/artifact_schemas.py:1085-1171 | The check against the opportunity rows accepts exactly when the recomputed values agree within their tolerances and the dependencies do |
| `ArtifactsOnFields.RowOnFields` | src/sports_analytics/artifact_schemas.py:891-963 | Which single rows pass, on their fields: ranges, agreement to 1e-9, strictly ascending identifiers, n(n-1)/2 different declared pairs, decision before start, content address |
| `ArtifactsOnFields.LegsOnFields` | src/sports_analytics/artifact_schemas.py:1085-1171 | Which rows pass against the rows of their legs, on the fields of both, with the exact odds, the tolerances of 1e-9 and the extreme times |
| `ArtifactsOnFields.MissingLegsRefused` | src/sports_analytics/artifact_schemas.py:1085-1100 | Without a leg, or without the row of one, a combination row is refused |
| `ArtifactsOnFields.DependenciesOnFields` | src/sports_analytics/artifact_schemas.py:1174-1207 | Which dependency lists pass: n(n-1)/2 different pairs, each the classification recomputed from the rows of its legs, and separate |
| `CombinationAgreement.AllPairsCount` | src/sports_analytics/artifact_schemas.py:907-926 | n distinct identifiers have n(n-1)/2 unordered pairs |
| `CombinationAgreement.AcceptedPairs` | src/sports_analytics/artifact_schemas.py:907-926 | Distinct, declared, non-reflexive pairs that number n(n-1)/2 are all the pairs |
| `CombinationAgreement.EveryPairExactlyOnce` | src/sports_analytics/artifact_schemas.py:1174-1207 | An accepted row lists every unordered pair of its legs exactly once, each recomputed as structurally separate |
| `CombinationAgreement.RowCheckAllowsReflexivePair` | src/sports_analytics/artifact_schemas.py:907-926 | The single-row check alone lets a pair of a leg with itself through |
| `CombinationAgreement.RowListsEveryPairExactly` | src/sports_analytics/artifact_schemas.py:907-926 | A row the single-row check accepts lists every unordered pair of its legs exactly once if and only if it pairs no leg with itself |
| `CombinationAgreement.AcceptedValuesAreExact` | src/sports_analytics/artifact_schemas.py:1085-1171 | The numeric values of an accepted row are exact, not just within the tolerances, if and only if its declared and its recomputed payload do not collide |
| `CombinationAgreement.ReclassifiedAlike` | src/sports_analytics/artifact_serializers.py:151-159 | Reading legs back from their rows classifies every pair as the producer did |
| `CombinationAgreement.DependenciesAgree` | src/sports_analytics/artifact_serializers.py:175-200 | The serialized dependencies pass the dependency check |
| `CombinationAgreement.LegsAgree` | src/sports_analytics/artifact_serializers.py:175-200 | The serialized values pass the recomputation from the leg rows |
| `CombinationAgreement.ProducerAndVerifierAgree` | src/sports_analytics/artifact_serializers.py:175-200 | Every validated combination, serialized beside the rows of its legs, passes all three verifiers |
| `OpportunitySearch.FilterAndRank` | src/sports_analytics/opportunities/contracts.py:389-436 | Filtering and ranking fails exactly on repeated identifiers and otherwise returns the specified accepted and rejected opportunities and the decision on each |
| `OpportunitySearch.Decide` | src/sports_analytics/opportunities/contracts.py:415-431 | Looking opportunities up by identifier among the rejected and the ranked accepted ones yields for each its own decision |
| `OpportunitySearch.SearchPartitions` | src/sports_analytics/opportunities/contracts.py:389-436 | Every opportunity is accepted or rejected, the two together number all of them, accepted ones pass every filter, and each rejection carries all its reasons or the cap |
| `OpportunitySearch.NeverBoth` | src/sports_analytics/opportunities/contracts.py:389-436 | No opportunity is both accepted and rejected |
| `OpportunitySearch.AcceptedAreBest` | src/sports_analytics/opportunities/contracts.py:407-414 | The accepted ones are in rank order and none ranks behind an eligible one that the cap cut off |
| `OpportunitySearch.AcceptedExactly` | src/sports_analytics/opportunities/contracts.py:389-436 | Without a cap an opportunity is accepted if and only if its fields pass every bound of the filter |
| `OpportunitySearch.CapOnFields` | src/sports_analytics/opportunities/contracts.py:407-414 | The cap is never exceeded, and is used up when anything is rejected for it |
| `OpportunitySearch.DecisionOnFields` | src/sports_analytics/opportunities/contracts.py:418-431 | Every decision carries its opportunity and the filter, and its rank in the accepted list or the reasons of its rejection |
| `OpportunitySearch.CodesInOrder` | src/sports_analytics/opportunities/contracts.py:462-504 | The reasons come in the order of the checks, each once |
| `OpportunitySearch.CodeExactly` | src/sports_analytics/opportunities/contracts.py:462-504 | Each rejection code is listed exactly when its own condition on the fields fails |
| `OpportunitySearch.AcceptedByScore` | src/sports_analytics/opportunities/contracts.py:407-459 | Accepted ones descend by the first and then the second score of the ranking mode and then ascend by event and selection |
| `OpportunitySearch.CutScoresNoMore` | src/sports_analytics/opportunities/contracts.py:407-459 | What the cap cuts off never scores more than what it leaves |
| `OpportunitySearch.ListedById` | src/sports_analytics/opportunities/contracts.py:432-436 | Rejections and decisions are listed by identifier |
| `OpportunitySearch.SearchIgnoresOrder` | src/sports_analytics/opportunities/contracts.py:389-436 | The order of distinct opportunities does not matter |
| `Opportunities.RankOrderIsTotalPreorder` | src/sports_analytics/opportunities/contracts.py:439-459 | The ranking key orders all opportunities, in each ranking mode |
| `Opportunities.DistinctSelectionsDoNotTie` | src/sports_analytics/opportunities/contracts.py:439-459 | Opportunities on different selections never tie in rank |
| `DecisionRanks.VerifyRanks` | src/sports_analytics/artifact_schemas.py:1061-1082 | The rank check accepts exactly the decisions that under each filter configuration name every opportunity once and rank the eligible ones 1..n in some order |
| `DecisionRanks.VerifyGroup` | src/sports_analytics/artifact_schemas.py:1068-1082 | The checks on the decisions of one filter configuration |
| `DecisionsOnFields.RanksOnFields` | src/sports_analytics/artifact_schemas.py:1061-1082 | The check accepts decisions if and only if under one filter none repeats an opportunity, every eligible one is ranked, no two alike, and each rank lies between 1 and their number |
| `DecisionRanks.OneCallIsAccepted` | src/sports_analytics/opportunities/contracts.py:418-431 | The decisions of one filter call over distinct opportunities are accepted |
| `DecisionRanks.CallsAcceptedExactly` | src/sports_analytics/artifact_schemas.py:1061-1082 | The decisions of several filter calls together are accepted if and only if no opportunity was decided twice and at most one call accepted anything |
| `Transactions.Connection.Begin` | src/sports_analytics/data/database.py:99-104 | A nested transaction is refused with nothing changed; otherwise the working copy is the committed content |
| `Transactions.Connection.Commit` | src/sports_analytics/data/database.py:115-125 | All writes become durable together; a failing commit leaves the committed content alone and rolls back |
| `Transactions.Connection.Rollback` | src/sports_analytics/data/database.py:107-114 | A body that raises leaves nothing durable, even when the rollback fails as well |
| `Scheduler.ResolvePolicy` | src/sports_analytics/bookmakers/scheduler_ops.py:65-95 | No policy exactly when no provider is enabled; else the enabled providers, the least of their intervals, and the delay of Betano when it is enabled |
| `Scheduler.EligibleNow` | src/sports_analytics/bookmakers/scheduler_ops.py:185-195 | The eligible time is now exactly when no enabled provider is blocked until later |
| `Scheduler.BookmakerScheduler.EnsureAnchor` | src/sports_analytics/bookmakers/scheduler_ops.py:98-155 | An anchor is kept if present, else set to the latest slot or to now plus the delay; a failing commit changes nothing |
| `Scheduler.BookmakerScheduler.ResolveNext` | src/sports_analytics/bookmakers/scheduler_ops.py:158-195 | The loop over the provider statuses computes the next slot |
| `Scheduler.BookmakerScheduler.AtomicEnqueue` | src/sports_analytics/bookmakers/scheduler_ops.py:198-287 | Job and cycle are inserted together or not at all; a taken slot is suppressed, a taken key with another payload fails |
| `Scheduler.BookmakerScheduler.CreateJob` | src/sports_analytics/data/repositories/jobs.py:93-171 | An equal job under the same idempotency key is returned, a different one is a conflict, otherwise a fresh job is added |
| `Scheduler.BookmakerScheduler.InsertCycle` | src/sports_analytics/data/repositories/bookmakers.py:562-628 | A cycle is added unless its slot is taken |
| `Scheduler.BookmakerScheduler.EnqueueSportIfDue` | src/sports_analytics/bookmakers/scheduler.py:110-165 | One sport of a tick: anchor, next slot, enqueue when due; swallowed errors count as not enqueued |
| `Scheduler.BookmakerScheduler.Tick` | src/sports_analytics/bookmakers/scheduler.py:96-108 | A tick over the sports and its count of newly enqueued jobs |
| `SchedulerStore.LatestSlot` | src/sports_analytics/data/repositories/bookmakers.py:813-843 | The latest cycle of a sport has the greatest of its slots |
| `SchedulerStore.CyclesAndJobsOneToOne` | src/sports_analytics/bookmakers/scheduler_ops.py:240-285 | In a consistent store cycles and jobs are in bijection and each sport and slot has at most one cycle |
| `SchedulerStore.EnqueueOutcome` | src/sports_analytics/bookmakers/scheduler_ops.py:240-285 | An enqueue for a free slot never reuses a job: it inserts a fresh pair, or fails because another job holds the key |
| `SchedulerStore.EnqueueKeepsConsistent` | src/sports_analytics/bookmakers/scheduler_ops.py:240-287 | Consistency survives every enqueue, whatever slot, clock and digest it brings and whether or not it commits |
| `SchedulerRuns.EnqueuedExactlyWhenDue` | src/sports_analytics/bookmakers/scheduler.py:110-165 | In every reachable state a sport is enqueued if and only if it is due, at the anchor for its first cycle and at the tick time afterwards, and never fails on a duplicate slot or key |
| `SchedulerRuns.RunIsScheduled` | src/sports_analytics/bookmakers/scheduler.py:96-165 | Over every run and any clock readings: slots are spaced by at least the interval, none is later than its enqueuing tick, keys are distinct, the first slot is the delay after the tick that set the anchor |
| `SchedulerRuns.RunRateIsBounded` | src/sports_analytics/bookmakers/scheduler_ops.py:180-195 | At most floor(W / interval) + 1 cycles of a sport fall in any span of length W |
| `SchedulerRuns.RunRespectsDeferral` | src/sports_analytics/bookmakers/scheduler_ops.py:185-195 | In every reachable state a tick adds no further cycle to a sport with an enabled provider blocked until later |
| `SchedulerRuns.DisabledRunIsIdle` | src/sports_analytics/bookmakers/scheduler.py:96-108 | A run with scheduling disabled or no provider enabled writes nothing |
| `SchedulerTicks.TickEnqueuesExactly` | src/sports_analytics/bookmakers/scheduler.py:96-165 | In every reachable state and when commits go through, the next tick enqueues a sport with a cycle if and only if the least interval has passed since all its slots and no enabled provider is blocked for it until later, and one without a cycle if and only if its first due time has come; with the slot of each |
| `SchedulerTicks.TickHonoursBlocks` | src/sports_analytics/bookmakers/scheduler_ops.py:158-195 | Whatever commits fail, a cycle added to a sport that had one is slotted at the tick, an interval after every earlier slot, and no enabled provider was blocked for the sport until later |
| `SchedulerTicks.TickCounts` | src/sports_analytics/bookmakers/scheduler.py:96-108 | A tick that reports n has added n cycles |
| `SchedulerTicks.RunOnRows` | src/sports_analytics/bookmakers/scheduler_ops.py:198-287 | Over every run slots are an interval apart, none is enqueued early, and each cycle has its own job with its sport, slot and time |
| `SchedulerTicks.AnchorsOnRows` | src/sports_analytics/bookmakers/scheduler_ops.py:98-155 | Over every run each first due time is the initial delay after the tick that set it |
| `SchedulerInterleaving.EveryInterleavingIsSound` | src/sports_analytics/bookmakers/scheduler_ops.py:240-287 | Under every interleaving of any number of schedulers, each with its own settings and clock, the store stays consistent and nothing is enqueued before its slot |
| `SchedulerInterleaving.WriteIsAllOrNothing` | src/sports_analytics/bookmakers/scheduler_ops.py:240-287 | A write that is suppressed, conflicts or does not commit leaves every table as it was |
| `SchedulerInterleaving.RaceForOneSlot` | src/sports_analytics/bookmakers/scheduler_ops.py:240-260 | Of two schedulers that found the same slot due the second to write changes nothing |
| `SchedulerInterleaving.WriteKeepsSpacedExactly` | src/sports_analytics/bookmakers/scheduler_ops.py:240-287 | A write keeps the cycles spaced if and only if it adds nothing or its slot lies an interval after every cycle of its sport |
| `SchedulerInterleaving.RunIsSpacedExactly` | src/sports_analytics/bookmakers/scheduler.py:110-142 | A run of any number of schedulers is spaced if and only if every effective write in it meets that guard |
| `SchedulerInterleaving.BothWritesGoThrough` | src/sports_analytics/bookmakers/scheduler.py:126-142 | Two pending writes closer than the interval both go through when their slots and keys are free |
| `SchedulerInterleaving.SpacingFailsForTwoSchedulers` | src/sports_analytics/bookmakers/scheduler.py:110-142 | A concrete run of two schedulers that breaks the spacing |
| `SettingsLayers.DeepMerge` | src/sports_analytics/core/settings.py:499-523 | The loop over the overriding keys computes the specified merge or fails |
| `SettingsLayers.MergeFailsExactlyOnDisagreement` | src/sports_analytics/core/settings.py:499-523 | Merging fails if and only if the two layers disagree on whether some path is a mapping |
| `SettingsLayers.MergedKind` | src/sports_analytics/core/settings.py:499-523 | Every path of a merge holds what the overriding layer defines there, else what the base does |
| `SettingsLayers.MergeAssociative` | src/sports_analytics/core/settings.py:499-523 | Merging is associative, failures included |
| `SettingsLayers.MergeIdentity` | src/sports_analytics/core/settings.py:499-523 | The empty mapping is a two-sided identity |
| `SettingsLayers.CopyValue` | src/sports_analytics/core/settings.py:526-529 | The recursive copy is equal to its argument |
| `SettingsLayers.LoadLayers` | src/sports_analytics/core/settings.py:735-743 | The five layers are folded from the defaults to the explicit overrides |
| `SettingsLayers.LayersFailExactlyOnDisagreement` | src/sports_analytics/core/settings.py:740-743 | The fold fails if and only if two layers disagree on whether some path is a mapping |
| `SettingsLayers.HighestLayerWins` | src/sports_analytics/core/settings.py:740-743 | Otherwise every path holds the value of the highest layer defining it |
| `NestedMappings.NestedMapping.CreateNested` | src/sports_analytics/core/settings.py:565-569 | A missing mapping is created in place and every other path keeps what it held |
| `NestedMappings.NestedMapping.Descend` | src/sports_analytics/core/settings.py:562-577 | One step of the cursor, refused exactly where a scalar is |
| `NestedMappings.NestedMapping.SetLeaf` | src/sports_analytics/core/settings.py:578-582 | Writing the leaf, refused exactly where a mapping is |
| `EnvironmentLayer.AssignNested` | src/sports_analytics/core/settings.py:556-582 | The walk down the tree: it succeeds exactly when no path conflicts, and then changes only the assigned path and the mappings above it; a failing one changes nothing |
| `EnvironmentLayer.EnvironToNestedMapping` | src/sports_analytics/core/settings.py:532-553 | Nesting succeeds if and only if no segment is empty and no path is a strict prefix of another; then the leaves are exactly the given paths, each with the value of the greatest raw key mapping to it |
| `EnvironmentNames.SplitExactly` | src/sports_analytics/core/settings.py:548 | Splitting at the delimiter is the leftmost way to write the text as joined segments, and the only such way |
| `EnvironmentNames.PathOnCharacters` | src/sports_analytics/core/settings.py:540-551 | A variable addresses a path if and only if it carries the prefix, is not the one naming the configuration file, and the segments, joined by "__", spell the rest of its name up to the case of its letters; no segment has a capital letter or a "__" in it |
| `EnvironmentNames.SqlitePath` | src/sports_analytics/core/settings.py:548 | SPORTS_ANALYTICS_STORAGE__SQLITE_PATH addresses storage.sqlite_path |
| `Admission.MayReplaceExactly` | src/sports_analytics/bookmakers/admission.py:76-185 | Replacing the last valid snapshot: only an admitted, exhaustive cycle, exactly when nothing obstructs it, nothing is unresolved or unknown, and its inventory is priced and complete or a legacy projection |
| `Admission.PublishWithoutReplacing` | src/sports_analytics/bookmakers/admission.py:126-172 | Publishing without replacing: exactly a priced native inventory that is somehow incomplete |
| `Admission.RefusedOutcomes` | src/sports_analytics/bookmakers/admission.py:86-172 | Without a block page a refusal is never a block |
| `AcquisitionOnRows.OutcomeOnFields` | src/sports_analytics/bookmakers/admission.py:76-185 | Outcome and reason of every admission, on the page, the drift codes by name, the events, their prices and the counts |
| `AcquisitionOnRows.PermissionsOnFields` | src/sports_analytics/bookmakers/admission.py:86-185 | What each outcome permits: publication, replacement, and which parts are admitted |
| `AcquisitionService.IngestionService.EnsureRun` | src/sports_analytics/bookmakers/service.py:621-651 | The run row is created unless present |
| `AcquisitionService.IngestionService.InsertAttempt` | src/sports_analytics/data/repositories/bookmakers.py:167-245 | An equal attempt is ignored, a different one under the same number conflicts |
| `AcquisitionService.IngestionService.UpdateRunStatus` | src/sports_analytics/data/repositories/bookmakers.py:36-72 | Status, classification and block reason are overwritten, the snapshot only by a new one |
| `AcquisitionService.IngestionService.RegisterSnapshot` | src/sports_analytics/data/repositories/bookmakers.py:490-560 | A known snapshot must repeat checksum, path and cycle; a new one needs a free path and cycle |
| `AcquisitionService.IngestionService.UpsertProviderState` | src/sports_analytics/data/repositories/bookmakers.py:339-488 | The last valid snapshot is preserved or replaced as asked and never erased |
| `AcquisitionService.IngestionService.Persist` | src/sports_analytics/bookmakers/service.py:653-1033 | The transaction of the five persist methods is all or nothing |
| `AcquisitionService.IngestionService.FinaliseTerminalFailure` | src/sports_analytics/bookmakers/service.py:766-803 | A run that exhausted its attempts is failed; without a run nothing happens |
| `AcquisitionService.IngestionService.EndRetryable` | src/sports_analytics/bookmakers/service.py:181-208 | A retryable ending asks for a retry below the limit and is finalised at it |
| `AcquisitionService.IngestionService.Ingest` | src/sports_analytics/bookmakers/service.py:101-506 | One cycle: refusals, replay of a terminal run, and every ending with its writes and its result |
| `AcquisitionOnRows.IngestOnRows` | src/sports_analytics/bookmakers/service.py:101-1033 | Every run, attempt, registration and provider row that a stored cycle leaves, by how its page ended |
| `AcquisitionOnRows.IngestAnswers` | src/sports_analytics/bookmakers/service.py:101-506 | What a call answers: refused, answered from the row of a terminal run, or as its page ended, retryable only below the limit |
| `AcquisitionOnRows.ConflictsOnRows` | src/sports_analytics/data/repositories/bookmakers.py:167-560 | A cycle fails on the store if and only if its attempt number holds a different attempt, its snapshot is registered with another checksum, path or cycle, or the path or key of a new snapshot is taken |
| `AcquisitionService.ReplayAgreesExactly` | src/sports_analytics/bookmakers/service.py:163-169 | A replay writes nothing, and equals the first result if and only if the page was blocked or published exhaustively |
| `AcquisitionService.ReplayOfPartialDiffers` | src/sports_analytics/bookmakers/service.py:485-506 | A concrete partial page that is returned as partial first and as succeeded when it is replayed |
| `AcquisitionStore.PersistedEffect` | src/sports_analytics/bookmakers/service.py:653-1033 | When a persisting transaction fails, and its whole effect on runs, attempts, registrations and provider states otherwise |
| `AcquisitionRuns.EveryRunIsSafe` | src/sports_analytics/bookmakers/service.py:653-1033 | In every reachable state a run is succeeded exactly when it names a snapshot, registered under its own cycle identifier; last valid snapshots are registered; cycles in flight are not terminal |
| `AcquisitionRuns.TerminalIsFinal` | src/sports_analytics/bookmakers/service.py:163-169 | A terminal run never changes again |
| `AcquisitionRuns.LastValidIsLastAdmitted` | src/sports_analytics/bookmakers/service.py:941-1033 | The last valid snapshot is always that of the latest durable admitted publication; every other ending, crash or rollback leaves it alone |
| `AcquisitionRuns.OwnedExactly` | src/sports_analytics/data/repositories/bookmakers.py:520-537 | Runs and registrations match one to one, provider and sport included, and last valid snapshots are the provider's own, if and only if no stored publication repeated a snapshot registered for another run |
| `AcquisitionRuns.EveryRunIsOwned` | src/sports_analytics/bookmakers/service.py:941-1033 | Identities derived from the cycle by the publisher are enough for that |
| `AcquisitionRuns.RegistrationIgnoresProvider` | src/sports_analytics/data/repositories/bookmakers.py:520-537 | A reachable run of two providers under one cycle identifier in which the second names the snapshot registered for the first |
| `AcquisitionRuns.IngestIsActions` | src/sports_analytics/bookmakers/service.py:101-506 | A call of the ingest method is a run of the protocol's atomic actions |
| `AcquisitionRaces.StepKeepsTerminalExactly` | src/sports_analytics/bookmakers/service.py:653-1033 | Without the lease a step leaves every terminal row as it was if and only if the run it writes to is not terminal by then, or the row it writes is the one already there |
| `AcquisitionRaces.TerminalIsFinalExactly` | src/sports_analytics/bookmakers/service.py:653-1033 | Over every run of any number of workers terminal rows are final if and only if each write meets that guard |
| `AcquisitionRaces.LeaseSuffices` | src/sports_analytics/data/repositories/job_queue.py:105-160 | When a cycle is begun only while no other worker ingests it, every write meets the guard |
| `AcquisitionRaces.TerminalNeedsTheLease` | src/sports_analytics/bookmakers/service.py:653-764 | A reachable run of two workers on one cycle: the first publishes, the second fails and overwrites the succeeded row, which still names the snapshot |
| `Fallback.CheckProviders` | src/sports_analytics/bookmakers/fallback.py:108-117 | Nothing is refused if and only if the preferred provider is Betano, the comparison one Betclic and every additional one enabled; otherwise the first check that fails decides |
| `Fallback.ResolveProviderFallback` | src/sports_analytics/bookmakers/fallback.py:94-217 | The branches and the loop yield the first success of the chain, the recorded attempts, and the cache only without a success |
| `Fallback.CacheIsNeverCurrent` | src/sports_analytics/bookmakers/fallback.py:175-217 | Data is current exactly when an attempt succeeded; the cache is used exactly when none did and is then stale |
| `Fallback.RecordShowsSuccess` | src/sports_analytics/bookmakers/fallback.py:26-41 | The record shows by its failure classes whether the data are current: exactly when an entry has none |
| `Orchestration.AcquisitionOrchestrator.TryProvider` | src/sports_analytics/bookmakers/orchestration.py:136-201 | One pass of the provider loop: cooldown skip, ingestion, and which errors become outcomes |
| `Orchestration.AcquisitionOrchestrator.PersistFallback` | src/sports_analytics/bookmakers/orchestration.py:382-407 | Exactly one decision row is appended, or none when the commit fails |
| `Orchestration.AcquisitionOrchestrator.RunAutonomousCycle` | src/sports_analytics/bookmakers/orchestration.py:104-252 | An attempt of a logical cycle, from the provider loop to the persisted decision |
| `OrchestrationRuns.TerminalIsNotReacquired` | src/sports_analytics/bookmakers/service.py:163-169 | For a terminal sub-cycle the result does not depend on what acquisition would return, and nothing is written |
| `OrchestrationRuns.LastAttemptDoesNotRetry` | src/sports_analytics/bookmakers/orchestration.py:203-209 | A retry is requested only below the maximum attempt, and no attempt raises a permanent error |
| `OrchestrationRuns.OneDecisionPerResult` | src/sports_analytics/bookmakers/orchestration.py:231-237 | An attempt that returns has persisted exactly its own decision, one that raises none |
| `OrchestrationRuns.NothingCommitted` | src/sports_analytics/bookmakers/orchestration.py:136-252 | An attempt none of whose commits goes through changes nothing and raises |
| `OrchestrationRuns.SelectionIsExact` | src/sports_analytics/bookmakers/orchestration.py:220-252 | Betano is selected exactly when its turn ends in success, else Betclic exactly when its turn does, else the cached snapshot as stale or nothing |
| `OrchestrationRuns.DecisionShowsSuccess` | src/sports_analytics/bookmakers/orchestration.py:220-237 | So does every persisted decision |
| `OrchestrationOnRows.ProvidersOnFields` | src/sports_analytics/bookmakers/orchestration.py:410-421 | A provider has a turn if and only if it is enabled and the selection mode does not leave it out |
| `OrchestrationOnRows.TurnOnRows` | src/sports_analytics/bookmakers/orchestration.py:424-468 | A blocked provider is skipped until its next eligible time; any other turn ingests under its own sub-cycle, and its outcome is the failure class of the answer |
| `OrchestrationOnRows.RecordOnFields` | src/sports_analytics/bookmakers/orchestration.py:211-252 | The decision lists the providers with their failure classes and the reason, and the result carries the selected ingest result |
| `OrchestrationRuns.CooldownExactly` | src/sports_analytics/bookmakers/orchestration.py:254-264 | After a stored acquisition its provider is ineligible exactly while a block is younger than the cooldown |
| `OrchestrationRuns.CachedIsMostRecent` | src/sports_analytics/bookmakers/orchestration.py:311-375 | The cached reference is a provider's own last valid snapshot, observed in the past, and the most recently observed such one |
| `OrchestrationOnRows.CachedOnRows` | src/sports_analytics/bookmakers/orchestration.py:311-375 | The cache offers a usable snapshot if there is one: the most recently observed, Betano's of two, with its age |
| `OrchestrationRuns.DecisionsExactly` | src/sports_analytics/jobs/runner.py:350-398 | However the worker retries, the attempts of a cycle add as many decisions as attempts returned; exactly one if and only if exactly one attempt returned; only an interrupted attempt returns without being the last |
| `OrchestrationRuns.DriveEnds` | src/sports_analytics/data/repositories/job_queue.py:105-160 | A cycle ends by its maximum attempt; uninterrupted it adds one decision if the last attempt returned and none otherwise; the job goes back to the queue exactly after an attempt that raised or was interrupted |
| `OrchestrationRuns.TwoDecisionsDisagree` | src/sports_analytics/jobs/runner.py:356-376 | A drive whose first attempt is interrupted after deciding for Betano and whose second one, in cooldown, decides otherwise |
| `OrchestrationRuns.TerminalSubCycleStays` | src/sports_analytics/bookmakers/orchestration.py:136-209 | A sub-cycle that is terminal after one attempt keeps its row through all later ones, however they end |
| `OrchestrationRuns.EarlierSuccessIsSelected` | src/sports_analytics/bookmakers/orchestration.py:136-252 | A Betano sub-cycle stored as succeeded is what every later attempt that returns selects if and only if Betano is not in cooldown then |
| `OrchestrationRuns.PartialBecomesSuccess` | src/sports_analytics/bookmakers/service.py:485-506 | A partial publication is no success when it happens and is one when the next attempt replays it |
| `EquityCurves.Curve` | src/sports_analytics/backtesting/engine.py:318-335 | The one-pass loop yields the cumulative equity and the maximum of E_i - E_j over all i <= j |
| `EquityCurves.MaximumDrawdownUnique` | src/sports_analytics/backtesting/engine.py:318-335 | That maximum is unique |
| `EquityCurves.DrawdownWithinLosses` | src/sports_analytics/backtesting/engine.py:318-335 | For settled unit bets it never exceeds the number of losses |
| `EquityCurves.EndsAtNet` | src/sports_analytics/backtesting/engine.py:311-335 | The last equity is the net profit |
| `Settlement.SettleCombination` | src/sports_analytics/backtesting/engine.py:64-84 | The settlement loop: every leg must win, and then the odds multiply |
| `Settlement.SettledUnit` | src/sports_analytics/backtesting/engine.py:64-84 | A settled combination returns its stake plus its profit, wins exactly when every leg won, and otherwise loses the stake |
| `Settlement.OneLegIsSingle` | src/sports_analytics/backtesting/engine.py:45-84 | A combination of one leg settles as the single does |
| `Settlement.SettlementIgnoresLegOrder` | src/sports_analytics/backtesting/engine.py:64-84 | The order of the legs does not matter |
| `BacktestMetrics.GroupBets` | src/sports_analytics/backtesting/engine.py:427-441 | The nested loop fills every group with its bets in order |
| `BacktestMetrics.MetricAggregations` | src/sports_analytics/backtesting/engine.py:427-457 | The rows are, once each and in order, the keys that occur, and each describes its whole group |
| `BacktestMetrics.AggregationsConserve` | src/sports_analytics/backtesting/engine.py:427-457 | In each dimension sample sizes add up to the bet count and group profits to the net profit |
| `BacktestMetrics.AggregationsUnique` | src/sports_analytics/backtesting/engine.py:427-457 | The aggregations are determined by the bets |
| `BacktestMetrics.CalculateMetrics` | src/sports_analytics/backtesting/engine.py:297-380 | Every modelled metric is what its name says about the bets |
| `BacktestMetrics.CurveEndsAtNet` | src/sports_analytics/backtesting/engine.py:311-335 | The curve ends at the net profit, which is returned minus staked, and the drawdown covers a net loss |
| `BacktestMetrics.DrawdownWithinLostBets` | src/sports_analytics/backtesting/engine.py:318-335 | The drawdown of settled unit bets never exceeds the lost ones |
| `BacktestMetrics.MetricsIgnoreOrder` | src/sports_analytics/backtesting/engine.py:322-335 | The metrics are invariant under permuting bets that do not tie |
| `MetricsOnBets.CurveRunsInTime` | src/sports_analytics/backtesting/engine.py:318-335 | The curve takes the bets by start, missing starts first and equal ones by identifier, and adds each bet's profit; the drawdown is the greatest fall along it |
| `MetricsOnBets.TotalsOnFields` | src/sports_analytics/backtesting/engine.py:307-317 | Counts, stakes, profits, return on investment, hit rate and average odds, on the fields of the bets |
| `MetricsOnBets.RowOnFields` | src/sports_analytics/backtesting/engine.py:427-471 | Every aggregation row counts and averages exactly the bets of its dimension and key, the bands of expected value included |
| `MetricsOnBets.RowsInOrder` | src/sports_analytics/backtesting/engine.py:442-457 | Rows are ordered by dimension name and key |
| `Backtest.CheckOverlaps` | src/sports_analytics/backtesting/engine.py:479-492 | The overlap check accepts exactly folds without a common event |
| `Backtest.ScanCandidates` | src/sports_analytics/backtesting/engine.py:119-140 | The candidate loop: first error, seen identifiers, settlements, opportunities |
| `Backtest.ScannedAreClean` | src/sports_analytics/backtesting/engine.py:119-140 | A fold without error has fresh identifiers and only candidates that respect its windows |
| `Backtest.SettleSingles` | src/sports_analytics/backtesting/engine.py:150-182 | One bet for each accepted opportunity, or the first settlement error |
| `Backtest.SettleCombinations` | src/sports_analytics/backtesting/engine.py:183-244 | One bet for each returned combination, or the first settlement error |
| `Backtest.RunFold` | src/sports_analytics/backtesting/engine.py:119-244 | One fold: candidates, filter, singles, combinations |
| `Backtest.RunBacktest` | src/sports_analytics/backtesting/engine.py:87-294 | The run: fold checks in order, folds in order, bets in chronological order, the decisions, rejections and combinations of all folds, metrics |
| `BacktestSafety.NoLeakage` | src/sports_analytics/backtesting/engine.py:119-244 | Every bet settles candidates of its own fold by their own odds and outcomes, each trained and calibrated strictly before the test window and with its event inside it |
| `MetricsOnBets.RunInTime` | src/sports_analytics/backtesting/engine.py:239-244 | A completed run returns its bets by start, missing starts first and equal ones by identifier |
| `MetricsOnBets.RunCurve` | src/sports_analytics/backtesting/engine.py:318-335 | And its curve runs through them one by one |
| `BacktestOnFields.LeakageOnFields` | src/sports_analytics/backtesting/engine.py:119-140 | Every leg of every bet was trained and calibrated before the first day of its fold's test window and starts on a day within it |
| `BacktestOnFields.CandidateOnFields` | src/sports_analytics/backtesting/engine.py:119-140 | Which check a candidate fails first, on its days, its evaluation mode and its quote time |
| `BacktestOnFields.SinglesOnFields` | src/sports_analytics/backtesting/engine.py:150-182 | Every single carries the fields of one candidate of its fold and settles by its odds and outcome |
| `BacktestOnFields.MultiplesOnFields` | src/sports_analytics/backtesting/engine.py:183-238 | Every multiple carries the fields of a combination its fold built, and wins exactly when all its legs won |
| `BacktestOnFields.SingleOnFields` | src/sports_analytics/backtesting/engine.py:45-61 | When a single can be settled, what it returns, and with which error it cannot |
| `BacktestOnFields.MultipleOnFields` | src/sports_analytics/backtesting/engine.py:64-84 | When a leg set can be settled, and what it returns |
| `BacktestOnFields.RefusedOnFields` | src/sports_analytics/backtesting/engine.py:95-108 | Which runs are refused before any fold, and with which error |
| `BacktestCompletion.CompletesExactly` | src/sports_analytics/backtesting/engine.py:87-244 | A run completes if and only if its folds differ in identifier, test start, events and opportunities, every candidate respects the windows, and whatever is bet on was won or lost at odds above one |
| `BacktestSafety.EventsFollowFitting` | src/sports_analytics/backtesting/contracts.py:48-71 | With valid fold windows every event bet on starts after the training and calibration windows of its own fold |
| `BacktestSafety.FoldsShareNothing` | src/sports_analytics/backtesting/engine.py:97-129 | No opportunity and no event belongs to two folds |
| `BacktestSafety.RunDrawdown` | src/sports_analytics/backtesting/engine.py:150-335 | The drawdown of a run never exceeds its lost bets, and it stakes one unit a bet |
| `BacktestSafety.RunIgnoresFoldOrder` | src/sports_analytics/backtesting/engine.py:97-108 | The outcome, error included, does not depend on the order of the fold inputs |
| `BacktestTrail.RunConserves` | src/sports_analytics/backtesting/engine.py:110-250 | Every candidate of every fold gets one decision; eligible ones and rejections make them up; each eligible one is a single bet and each built combination a multiple bet |
| `BacktestTrail.RunRanksAcceptedExactly` | src/sports_analytics/artifact_schemas.py:1061-1082 | The rank check accepts the decisions of a completed run if and only if at most one of its folds accepted anything |
| `BacktestTrail.TwoFoldsRefused` | src/sports_analytics/backtesting/engine.py:142-147 | A concrete run of two folds that completes and whose decisions the rank check refuses |
| `BacktestIdentity.RunBetsDoNotTie` | src/sports_analytics/backtesting/engine.py:245-250 | The bets of one run never tie in their order unless content addresses collide |
| `BacktestIdentity.RunMetricsIgnoreOrder` | src/sports_analytics/backtesting/engine.py:297-380 | So the metrics of a run are the same for every arrangement of its bets |
| `ScoreBacktest.Classify` | src/sports_analytics/backtesting/football_scores.py:101-135 | The first loop counts the rows failing each threshold and keeps the others |
| `ScoreBacktest.SelectBest` | src/sports_analytics/backtesting/football_scores.py:136-149 | The second loop accepts the preferred row of each market and counts its other qualifying rows |
| `ScoreBacktest.Select` | src/sports_analytics/backtesting/football_scores.py:101-149 | Exactly one accepted row for every market with a qualifying row, preferred to all of them by expected value, edge and outcome |
| `ScoreBacktest.RejectionsAddUp` | src/sports_analytics/backtesting/football_scores.py:115-149 | Edge and expected-value rejections, less the rows failing both, plus the mutually exclusive ones are the rows not accepted |
| `ScoreBacktest.Buckets` | src/sports_analytics/backtesting/football_scores.py:297-342 | The bucket tables |
| `ScoreBacktest.BucketsAddUp` | src/sports_analytics/backtesting/football_scores.py:297-342 | Bucket counts and totals add up to the whole, whatever the bucketing |
| `ScoreBacktest.Coverage` | src/sports_analytics/backtesting/football_scores.py:163-174 | The events tested, and those with all three outcomes priced |
| `ScoreBacktest.Run` | src/sports_analytics/backtesting/football_scores.py:86-214 | Every field of the report is what its name says about the rows |
| `ScoreBacktest.SelectionUnique` | src/sports_analytics/backtesting/football_scores.py:101-149 | With each outcome of a market priced once there is only one such selection |
| `ScoresOnRows.AcceptedOnFields` | src/sports_analytics/backtesting/football_scores.py:136-145 | An accepted row meets both thresholds and none of its market that does has a greater expected value, or the same and a greater edge, or the same and an earlier outcome name |
| `ScoresOnRows.MarketsOnFields` | src/sports_analytics/backtesting/football_scores.py:101-149 | Every market with a row that meets both thresholds has one accepted row, in the order of competition, season, event and provider |
| `ScoresOnRows.ReportOnFields` | src/sports_analytics/backtesting/football_scores.py:113-185 | Rejections, profit, coverage and return on investment, on the fields of the rows |
| `ScoresOnRows.CompleteOnFields` | src/sports_analytics/backtesting/football_scores.py:163-174 | A market is complete exactly when home, draw and away are all priced |
| `ScoresOnRows.OddsLineOnFields` | src/sports_analytics/backtesting/football_scores.py:181-190 | The lines of the odds buckets: accepted rows below 2, from 2 below 3, and from 3 |
| `ScoresOnRows.EdgeLineOnFields` | src/sports_analytics/backtesting/football_scores.py:191-200 | The lines of the edge buckets: below 5 percent, below 10 percent, and from there |
| `ScoresOnRows.CalibrationLineOnFields` | src/sports_analytics/backtesting/football_scores.py:321-342 | The calibration lines: mean probability and hit frequency of all rows in a band of odds |
| `ScoresOnRows.NamesOnFields` | src/sports_analytics/backtesting/football_scores.py:202-203 | Competitions and seasons are listed once each, in order, exactly those that occur |
| `ScoreBacktest.ReportIgnoresOrder` | src/sports_analytics/backtesting/football_scores.py:86-214 | And the whole report is the same for every arrangement of the rows |
| `ScoreBacktest.AcceptedDrawdown` | src/sports_analytics/backtesting/football_scores.py:150-162 | The drawdown of the accepted rows never exceeds the lost ones, and the last equity is the profit |
| `ReconciliationGuard.BlockGroup` | src/sports_analytics/bookmakers/reconciliation.py:378-396 | The pair loops of one group find the identities of its incompatible pairs |
| `ReconciliationGuard.BlockIncompatible` | src/sports_analytics/bookmakers/reconciliation.py:357-396 | Grouping and pair loops together block exactly the identities of candidates that clash with another one |
| `ReconciliationGuard.RejectIncompatiblePairs` | src/sports_analytics/bookmakers/reconciliation.py:345-426 | The guard returns its input when nothing is blocked, else the sorted rewriting |
| `ReconciliationGuard.BlockedExactly` | src/sports_analytics/bookmakers/reconciliation.py:357-396 | With a unique identity: blocked if and only if in a same-key cross-provider pair with different competitions, a missing start, or starts further apart than the tolerance |
| `ReconciliationGuard.NoClashRemains` | src/sports_analytics/bookmakers/reconciliation.py:398-426 | Afterwards no such pair shares a key |
| `ReconciliationGuard.OnlyOccurrencesChange` | src/sports_analytics/bookmakers/reconciliation.py:401-426 | No candidate is lost or invented; exactly blocked identities lose their occurrence key and nothing else changes |
| `ReconciliationGuard.GuardIsIdempotent` | src/sports_analytics/bookmakers/reconciliation.py:345-426 | Applying the guard twice is applying it once |
| `ReconciliationGuard.GuardOnFields` | src/sports_analytics/bookmakers/reconciliation.py:345-426 | A candidate loses its occurrence exactly when another provider's one of the same sport, participants and occurrence disagrees on the competition, or a start is missing, or they start too far apart; on the fields |
| `ReconciliationGuard.GuardedInOrder` | src/sports_analytics/bookmakers/reconciliation.py:421-426 | The rewriting is sorted by provider and event |
| `NativeInventory.CheckIdentities` | src/sports_analytics/bookmakers/loader.py:306-341 | Identities present and unique, no orphaned market or selection |
| `NativeInventory.CheckEvents` | src/sports_analytics/bookmakers/loader.py:367-387 | Each event row refers to known captures and declares the counts it really has |
| `NativeInventory.CheckPrices` | src/sports_analytics/bookmakers/loader.py:392-417 | Priced selections carry odds above one, unpriced ones none; the running count of priced ones |
| `NativeInventory.VerifyNativeInventory` | src/sports_analytics/bookmakers/loader.py:294-460 | The verification accepts exactly the inventories that satisfy every modelled check, and returns their counts |
| `NativeInventory.EverySelectionHasOnePath` | src/sports_analytics/bookmakers/loader.py:310-341 | Every selection belongs to exactly one market, and through it to exactly one event |
| `InventoryOnFields.IdentitiesOnFields` | src/sports_analytics/bookmakers/loader.py:306-341 | Which identities pass, on the fields of the rows |
| `InventoryOnFields.CompletenessOnFields` | src/sports_analytics/bookmakers/loader.py:463-560 | Which completeness rows pass, on their counts and flags |
| `InventoryOnFields.RowsOnFields` | src/sports_analytics/bookmakers/loader.py:367-417 | Which rows pass: known captures, own counts, and odds exactly where priced |
| `InventoryOnFields.OrderOnFields` | src/sports_analytics/bookmakers/loader.py:420-440 | Which order passes: markets by event, order and identifier, selections by event, market, order and identifier |
| `NativeInventory.ParsedCountsAddUp` | src/sports_analytics/bookmakers/loader.py:380-387 | The parsed counts of the events add up to the global market and selection counts |
| `NativeInventoryWriter.ProviderNativeRows` | src/sports_analytics/bookmakers/native_inventory.py:127-266 | The nested loops and the two sorts emit the specified rows |
| `NativeInventoryWriter.EmittedOrderIsAccepted` | src/sports_analytics/bookmakers/native_inventory.py:247-261 | Whatever bundle is written, its rows are in the order that the loader demands |
| `NativeInventoryWriter.EmittedIsAccepted` | src/sports_analytics/bookmakers/native_inventory.py:127-266 | The loader accepts every inventory emitted for a bundle with unique identities and sound rows |
| `NativeInventoryWriter.EventRowCounts` | src/sports_analytics/bookmakers/native_inventory.py:194-246 | An event contributes exactly its own markets and selections to the rows |
| `NativeInventoryWriter.EventsOnFields` | src/sports_analytics/bookmakers/native_inventory.py:127-193 | One event row for each event, by start and identifier |
| `NativeInventoryWriter.MarketsOnFields` | src/sports_analytics/bookmakers/native_inventory.py:194-220 | The market rows are exactly those of the events' markets, each with its own order or else its position |
| `NativeInventoryWriter.SelectionsOnFields` | src/sports_analytics/bookmakers/native_inventory.py:221-246 | So are the selection rows |
| `DecimalIntegers.ParsePositiveExact` | src/sports_analytics/core/validation.py:160-176 | With a maximum, text is accepted if and only if it is the canonical print of an integer from 1 to the maximum |
| `DecimalIntegers.ParseUnboundedExact` | src/sports_analytics/core/validation.py:160-176 | Without a maximum, exactly the canonical prints of positive integers below 10^64 |
| `DecimalIntegers.ParseBoundedExact` | src/sports_analytics/core/validation.py:206-222 | Signed text is accepted if and only if it is the canonical print of an in-range integer of magnitude below 10^16 |
| `DecimalIntegers.PositiveErrors` | src/sports_analytics/core/validation.py:130-176 | Real integers, flags and other objects, and which refused text is out of bounds rather than no integer |
| `DecimalIntegers.BoundedErrors` | src/sports_analytics/core/validation.py:179-222 | The same for signed bounds |
| `DecimalIntegers.ParseUndoesPrint` | src/sports_analytics/core/validation.py:130-222 | Printing and then parsing returns every number in range |
| `DecimalIntegers.PrintRead` | src/sports_analytics/core/validation.py:160-176 | Reading and then printing returns every canonical digit string |
| `DecimalIntegers.LengthIsMonotone` | src/sports_analytics/core/validation.py:164-166 | A number in range never has more digits than the maximum, so the length check rejects none |

## Left out

- CombinationAgreement.ProducerAndVerifierAgree: requires at most one claim per scope for each leg, as the serialized keys are iterated in another order.
- AcquisitionService.IngestionService.Ingest: what the browser, the normaliser and the publisher return is an input; manifests, drift findings and warnings are not stored, and checkpoints are omitted.
- BacktestMetrics.CalculateMetrics: log loss, Brier scores, averages over selected opportunities and rejection counts by reason are not modelled.
- NativeInventory.VerifyNativeInventory: error kinds instead of messages; JSON shapes, optional decimal lines and canonical outcome keys are not checked.
- DecimalIntegers.ParseBoundedExact: bounds of 10^16 and beyond are accepted only up to 16 digits, as in the source; the interpreter's own limit on integer text is not reached by any length that is checked here except with a maximum of thousands of digits.
- Scheduler.BookmakerScheduler.CreateJob: priorities, attempt limits, job events and the later life of a job in the worker are not modelled.
- Backtest.RunBacktest: derived run and result identifiers, the fold models and the lineage are not modelled.
- OrchestrationRuns.DriveEnds: between attempts the lease is assumed to protect the terminal rows of the cycle; what happens without it is the subject of AcquisitionRaces. A worker killed in the middle is covered as an attempt whose next commit fails.
- Decimal context rounding and float error: proofs are over exact reals, including the tolerances of the artifact check.
- Overflow of timestamps, naive datetimes and time zones: all times are UTC integers.
- Field-by-field type and schema checks of persisted rows, and parsing of JSON, TOML and dotenv files.
- SQLite, Parquet and the file system: tables are values, a transaction is an atomic step, symbolic links and checksums of files are not modelled.
- The stop flag and the endless loop of the scheduler, signal handling, logging and process supervision.
- Verification of a cached snapshot directory: it is a function telling whose snapshot it is, assumed not to raise.
- Browser acquisition, source adapters, reconciliation of participants, normalisation of quotes and competition slugs.
- Logistic fitting, calibration and the other numerical code.
