# Toard: models and proofs of the web application's core logic

This project models the step-wise logic behind the web application's SQL and HTTP layers and proves what it is
meant to guarantee. Times are integers (milliseconds), sizes are integers (bytes), US dollars are exact reals.

- **Cost attribution.** `CostAccumulator` folds usage rows into per-model buckets, `CostDrivers` rebuilds each
  period's cost from five factors per model, `CostShapley` shares a cost change out over the factors.
- **History.** `TurnMatching` pairs assistant turns with usage events, `AgentGrouping` turns a session into a
  timeline of main turns and agent groups.
- **Historical pricing.** `PricingModel` states the naive rule (the latest snapshot at or before an instant).
  `PricingIntervals` is the interval algorithm, `PricingCandidates` the candidate table filled in restartable
  batches, `PricingTable` compares the two row by row. `PricingRecoveryJob` is the durable job with its retries and
  skips, `PricingRepository` the repository that updates the job row and the table. `SnapshotRepair` is the scanner
  that puts lost entry ends back into a price list.
- **From end-to-end encryption to managed keys.** `Utf16` is the text scanner and the UTF-8 codec, `SourceDigest`
  the hashed byte stream of a row, `ManagedMigration` the commit, block, resume and insert transactions,
  `MigrationLoop` the browser's event loop, `PayloadPacking` the packers. Encryption is ideal: what is sealed opens
  with the same key and context, and not otherwise. SHA-256 appears as a hash that collides nowhere.
- **Protocols over a shared store.** `WriteFence` moves key wrappers between providers, `DeviceControl` is desired
  and applied state and commands of a device, `LegacyRetirement` the retirement of the legacy key, `MfaRowLocks` and
  `AdminRoles` are row-lock transactions interleaved statement by statement under READ COMMITTED.

Where an algorithm updates things in place, a class or a loop does so here, and its contract equates the result with
a specification function; lemmas then state what the function guarantees. `Prelude` holds options and results.

## Findings

Each finding names a lemma with a concrete input, then the lemma with the exact condition under which the property
holds.

- `closePricingIntervals` drops an interval that was closed across the end of the range instead of clipping it
  (`PricingIntervals.PriceAcrossRangeIsLost`; `PricingIntervals.IntervalsFollowNaiveRuleIff`).
- A model whose first price comes at the very end of the range, which the listing includes, gets a row over the whole
  range in the batched table and no interval at all (`PricingTable.PriceAtRangeEndIsExtended`;
  `PricingTable.TableIsExtendedIntervalsIff`).
- The batched table depends on where a batch ends: two commits at the range start can delete a model's only row, which
  a batch in progress remembers and a restarted one does not (`PricingCandidates.RestartCanMatter`;
  `PricingCandidates.BatchingIsIrrelevantIff`, `PricingCandidates.SavedBatchesRecoverIff`).
- Skipping the last ref leaves open rows that promotion ignores, and where a batch forgot the model promotes a row that
  was not in force (`PricingCandidates.SkippedLastRefLosesPrice`, `PricingCandidates.ForgottenRowIsPromoted`;
  `PricingCandidates.SkippedEndRecoversIff`).
- `wellFormedUnicode` accepts a text that one lone high surrogate ends; its stored form then decrypts to another text
  (`Utf16.LoneHighIsLost`; `Utf16.WellFormedUnicode`, `Utf16.Utf8KeepsTextIff`). The hash comparison after encryption
  cannot see it, because both texts have the same bytes (`Utf16.Utf8OfComeBack`).
- The browser's decoder drops a leading byte order mark (`PayloadPacking.MarkIsDropped`;
  `PayloadPacking.BrowserKeepsPlaintextIff`).
- Neither a rewrap nor a completion reads the write fence. A rewrap still aimed at the old provider goes through after
  completion, and a completion goes through while a start back to the old provider sends new keys there
  (`WriteFence.StaleRewrapReturns`, `WriteFence.NewKeyAfterCompletion`; `WriteFence.CountNeverGrowsIff`,
  `WriteFence.ZeroAfterCompletionIff`).
- A passkey deletion that begins before the settings row exists locks nothing and can remove the last passkey although
  one is demanded (`MfaRowLocks.LastPasskeyIsTaken`; `MfaRowLocks.StaysProtectedIff`).
- A refused backup confirmation rolls back the observation made for it, so legacy rows it met leave no trace
  (`LegacyRetirement.RefusedConfirmationForgets`; `LegacyRetirement.AttemptIsKeptIff`,
  `LegacyRetirement.AlwaysSawZeroIff`).

## Model

| member | source | states |
|---|---|---|
| CostAccumulator.CostPeriodAccumulator.constructor | apps/web/lib/cost-drivers.ts:26-32 | a new period is empty in every count, profile and sum |
| CostAccumulator.CostPeriodAccumulator.Add | apps/web/lib/cost-drivers.ts:34-68 | the whole new period for any row: rejected, counted only, or added to its model; and exactly which error |
| CostAccumulator.CostPeriodAccumulator.AddToProfile | apps/web/lib/cost-drivers.ts:57-65 | the five-bucket loop adds the row's units and its costs scaled to the stored cost to its own model only |
| CostAccumulator.AddedIsValid | apps/web/lib/cost-drivers.ts:34-68 | any row keeps distinct models, non-negative buckets, no cost without units, and profiles that sum to the comparable cost |
| CostAccumulator.AccumulatedIsValid | apps/web/lib/cost-drivers.ts:26-75 | so after any list of rows |
| CostAccumulator.CostSplits | apps/web/lib/cost-drivers.ts:34-68 | total cost is the kept profiles' cost plus exactly the cost of the rows left out |
| CostAccumulator.TotalsAreSums | apps/web/lib/cost-drivers.ts:34-75 | after any list of rows the totals are sums and numbers over the rows that count: tokens, cost, each status, legacy evidence, attributable rows; the models left out are those of the other rows |
| CostAccumulator.ProfilesAreSums | apps/web/lib/cost-drivers.ts:50-68 | a model has a profile exactly if it has attributable rows that count; bucket by bucket the profile sums their units and their costs stretched to the stored cost |
| CostAccumulator.ComparableIff | apps/web/lib/cost-drivers.ts:51-56 | a row is attributed exactly if its parts are there, not negative, within 1e-8 of the stored cost, not all zero for a cost, and none stands for an empty bucket |
| CostAccumulator.RejectionMeans | apps/web/lib/cost-drivers.ts:35-48 | which of the three errors a row gets after any list of rows: unusable numbers, a token total that is no safe integer, an unknown status |
| CostDrivers.ComputeFactors | apps/web/lib/cost-drivers.ts:78-97 | the factor loop yields share, output, cache and rate of the model, borrowing from the other side only where this one has nothing |
| CostDrivers.UnitsRebuildCost | apps/web/lib/cost-drivers.ts:78-126 | units times the rebuilt cost per unit is the model's cost, whatever was borrowed |
| CostDrivers.TermRebuildsCost | apps/web/lib/cost-drivers.ts:117-126 | volume times a model's term, all factors from one side, is its cost on that side |
| CostDrivers.OldCostRebuilt | apps/web/lib/cost-drivers.ts:117-127 | subset value 0 is the old side's cost, also without any units |
| CostDrivers.ExchangedTable | apps/web/lib/cost-drivers.ts:109-127 | exchanging the periods reverses the subset table although the models are visited in another order |
| CostDrivers.DecomposeCostChange | apps/web/lib/cost-drivers.ts:104-145 | the report holds the drivers of the table of both sides' kept models, and all its sums and counts |
| CostDrivers.DriversExplainAnalyzedCost | apps/web/lib/cost-drivers.ts:99-145 | the five drivers add up exactly to the change of the analysed cost, one-sided models and empty periods included |
| CostDrivers.UnexplainedIsLeftOut | apps/web/lib/cost-drivers.ts:34-145 | for any two lists of rows, what the drivers leave unexplained is the change of the cost of the excluded rows |
| CostDrivers.ExchangeNegatesDrivers | apps/web/lib/cost-drivers.ts:104-145 | swapping the periods negates every driver |
| CostDrivers.SameRatesNoRatesDriver | apps/web/lib/cost-drivers.ts:99-138 | if every bucket seen on both sides costs the same, the rates driver is zero: borrowed rates invent no price change |
| CostDrivers.SameVolumeNoVolumeDriver | apps/web/lib/cost-drivers.ts:104-138 | if both periods have the same total of units, the volume driver is zero |
| CostDrivers.SameMixNoModelMixDriver | apps/web/lib/cost-drivers.ts:104-138 | if every model has the same share of the total on both sides, the model-mix driver is zero |
| CostDrivers.SameOutputNoOutputMixDriver | apps/web/lib/cost-drivers.ts:104-138 | if every model used on both sides has the same part of output, the output-mix driver is zero |
| CostDrivers.SameCacheNoCacheMixDriver | apps/web/lib/cost-drivers.ts:104-138 | if every model with input on both sides spreads it over the input buckets alike, the cache-mix driver is zero |
| CostDrivers.ReportIsOfItsRows | apps/web/lib/cost-drivers.ts:26-145 | for any two lists of rows: a model with a row that cannot be attributed in either list is out of both; costs, volumes and both event counts of the report are those of the remaining rows |
| CostDrivers.CacheIsDistribution | apps/web/lib/cost-drivers.ts:83-90 | the four cache shares are not negative and add up to one, whatever was borrowed |
| CostDrivers.DisplayedRowsBalance | apps/web/lib/cost-drivers.ts:147-154 | rounded rows plus residual equal the rounded delta exactly |
| CostDrivers.ResidualIsUnexplained | apps/web/lib/cost-drivers.ts:149-154 | the residual is within three display units of the unexplained amount |
| CostShapley.ComputeDriver | apps/web/lib/cost-drivers.ts:128-138 | the mask loop with its bit counting computes the weighted sum of marginal effects |
| CostShapley.Efficiency | apps/web/lib/cost-drivers.ts:128-138 | for any 32 subset values the five drivers sum to value 31 minus value 0 |
| CostShapley.Antisymmetry | apps/web/lib/cost-drivers.ts:128-138 | replacing every subset by its complement negates every driver |
| CostShapley.NullFactor | apps/web/lib/cost-drivers.ts:128-138 | a factor that never changes a subset's value gets nothing |
| CostShapley.DriversAdd | apps/web/lib/cost-drivers.ts:128-138 | the drivers of a sum of two subset tables are the sums of their drivers |
| CostShapley.Symmetry | apps/web/lib/cost-drivers.ts:128-138 | exchanging two factors in every subset exchanges their drivers |
| TurnMatching.MatchTurnUsage | apps/web/lib/history-grouping.ts:91-128 | the result is that of turns choosing in order the first nearest unused event within the tolerance |
| TurnMatching.NearestUnused | apps/web/lib/history-grouping.ts:103-112 | the inner loop finds the first of the nearest unused events, or that there is none |
| TurnMatching.PicksAreInjective | apps/web/lib/history-grouping.ts:100-114 | no event is given to two turns |
| TurnMatching.GreedyIsMaximal | apps/web/lib/history-grouping.ts:100-126 | at the end an unmatched assistant turn and an unused event are further apart than the tolerance |
| TurnMatching.AttachedAt | apps/web/lib/history-grouping.ts:113-125 | with distinct keys a turn has an entry exactly when matched, and it is its own event's usage |
| TurnMatching.GreedyIsUnique | apps/web/lib/history-grouping.ts:91-128 | there is one such choice of events and no other |
| TurnMatching.ExactTimesMatch | apps/web/lib/history-grouping.ts:100-126 | if no two assistant turns have the same time and each has an event at its own, every turn takes the first event of exactly its time |
| TurnMatching.LonePairMatchesIff | apps/web/lib/history-grouping.ts:91-98 | unless told otherwise, a lone assistant turn takes a lone event exactly if it is at most ten seconds away |
| TurnMatching.GreedyIsHalfOptimal | apps/web/lib/history-grouping.ts:91-128 | any one-to-one pairing within the tolerance has at most twice as many pairs |
| TurnMatching.HalfIsReached | apps/web/lib/history-grouping.ts:91-128 | the factor two is reached by a two-turn input |
| TurnMatching.ResultIsHalfOptimal | apps/web/lib/history-grouping.ts:91-128 | with distinct keys the returned map has at least half as many entries as any pairing has pairs |
| AgentGrouping.GroupHistoryAgents | apps/web/lib/history-grouping.ts:40-81 | the nested loops build the timeline of main turns and maximal agent stretches |
| AgentGrouping.GroupStretch | apps/web/lib/history-grouping.ts:51-78 | the inner loop consumes exactly one maximal stretch and builds its group |
| AgentGrouping.GroupIsOrdered | apps/web/lib/history-grouping.ts:51-78 | each run holds one agent's turns of the stretch in order; runs are sorted by first turn, ties by first appearance |
| AgentGrouping.GroupHasOneRunPerAgent | apps/web/lib/history-grouping.ts:57-68 | an agent id occurs once in a group |
| AgentGrouping.GroupTimesAreExtremes | apps/web/lib/history-grouping.ts:52-77 | first and latest time are the true minimum and maximum, also of unsorted turns |
| AgentGrouping.NoAdjacentGroups | apps/web/lib/history-grouping.ts:43-79 | two agent groups never follow one another |
| AgentGrouping.TimelineConserves | apps/web/lib/history-grouping.ts:40-81 | reading the timeline gives a permutation of the turns |
| AgentGrouping.MainTurnsKeepTheirPlace | apps/web/lib/history-grouping.ts:40-81 | a main turn has the same place in the timeline's reading as in the input |
| AgentGrouping.AgentsKeepTheirOrder | apps/web/lib/history-grouping.ts:40-81 | every agent's turns are read in their original order |
| PricingModel.SameQuote | apps/web/lib/pricing-history-intervals.ts:49-58 | two resolutions count as unchanged exactly when model and normalised price agree |
| PricingIntervals.ApplyPricingSnapshot | apps/web/lib/pricing-history-intervals.ts:68-114 | the new state or the exact error: unreadable time, late baseline, not chronological |
| PricingIntervals.ClosePricingIntervals | apps/web/lib/pricing-history-intervals.ts:116-134 | sorted by model and start; each model's rows are its closed ones plus its open one cut at the end, filtered to the range |
| PricingIntervals.RunSucceedsIff | apps/web/lib/pricing-history-intervals.ts:72-79 | a list is processed to its end exactly when its baseline is not after the range start and the rest is strictly later |
| PricingIntervals.RunFollowsHistory | apps/web/lib/pricing-history-intervals.ts:84-107 | models do not influence each other: each follows its own history of resolutions |
| PricingIntervals.HistoryQuotesInForce | apps/web/lib/pricing-history-intervals.ts:81-107 | open and closed candidates are ordered and disjoint and quote the naive rule at every instant from the range start on |
| PricingIntervals.CrossingIsLost | apps/web/lib/pricing-history-intervals.ts:128-130 | an interval closed across the range end is dropped, and its last instant inside the range loses its price |
| PricingIntervals.PriceAcrossRangeIsLost | apps/web/lib/pricing-history-intervals.ts:128-130 | a price in force from before the range until after it is in no interval |
| PricingIntervals.IntervalsFollowNaiveRuleIff | apps/web/lib/pricing-history-intervals.ts:68-134 | the returned intervals are a chain, and quote the naive rule all over the range exactly when none was closed across its end |
| PricingIntervals.IntervalsFollowNaiveRule | apps/web/lib/pricing-history-intervals.ts:68-134 | with all commits at or before the range end the intervals quote the naive rule at every instant of the range |
| PricingIntervals.RunIsValid | apps/web/lib/pricing-history-intervals.ts:68-134 | every state reached by applying snapshots meets what closing the range relies on |
| PricingCandidates.ApplyKeepsConsistent | apps/web/lib/pricing-history.ts:529-623 | throughout a batch the open row in memory is the one open row of the table, whatever the snapshots |
| PricingCandidates.ReloadIsIdentityIff | apps/web/lib/pricing-history.ts:643-659 | reading the batch state back from the table is the identity exactly when a model counts as seen only with rows |
| PricingCandidates.SavedKeepsOneOpen | apps/web/lib/pricing-history.ts:660-676 | a saved batch leaves at most one open row a model, the last one none |
| PricingCandidates.CloseKeepsOrdered | apps/web/lib/pricing-history.ts:544-562 | at a boundary the open row is closed, or deleted if it starts there; every row left ends by then and rows stay disjoint |
| PricingCandidates.ApplyQuotes | apps/web/lib/pricing-history.ts:529-623 | after any list in commit order, ties included, the rows quote all over the range the naive rule with the first price extended back |
| PricingCandidates.ForgottenIff | apps/web/lib/pricing-history.ts:552-659 | a batch in progress has seen a model of which the table holds nothing exactly when it was priced at the range start and every price inside the range was taken back at its own instant |
| PricingCandidates.BatchingIsIrrelevantIff | apps/web/lib/pricing-history.ts:529-692 | for every list in commit order and every cut with restarts between, the table is that of one single batch exactly when no batch begins at such a point and prices the model again after the range start |
| PricingCandidates.LaterChangesForgetNothing | apps/web/lib/pricing-history.ts:529-692 | no cut forgets anything when only the baseline comes into force with the range start |
| PricingCandidates.RestartCanMatter | apps/web/lib/pricing-history.ts:552-564 | two commits at the range start, the second without the model, make the table depend on the cut |
| PricingCandidates.SavedBatchesRecoverIff | apps/web/lib/pricing-history.ts:625-692 | for every list in commit order and every cut all rows are closed and disjoint after the last batch, and they quote that rule at every instant exactly when no batch forgets |
| PricingCandidates.FinishedIsPromoted | apps/web/lib/pricing-history.ts:663-776 | after a saved last batch promotion copies every row |
| PricingCandidates.SkippedEndRecoversIff | apps/web/lib/pricing-history.ts:694-776 | after a skipped last ref promotion recovers every price exactly when the model has no open row, or, if a batch forgot it, when its row from the range start is open and every price was taken back |
| PricingCandidates.SkippedLastRefLosesPrice | apps/web/lib/pricing-history.ts:694-776 | one priced snapshot and a skipped last ref promote nothing, though the price is in force all over the range |
| PricingCandidates.ForgottenRowIsPromoted | apps/web/lib/pricing-history.ts:694-776 | a forgotten model's new row, closed before a skipped last ref, is promoted from the range start, where nothing was in force |
| PricingTable.TableIsExtendedIntervalsIff | apps/web/lib/pricing-history.ts:529-692 | for every list the interval algorithm accepts the table has exactly its rows, with price, commit, start and end, the first one extended back if the model is first priced after the range start, exactly when none was closed across the range end and the first price is in force before it |
| PricingTable.ListedTableIsExtendedIntervalsIff | apps/web/lib/pricing-history.ts:529-692 | with all commits at or before the range end, as they are listed, only the first price decides |
| PricingTable.PriceAtRangeEndIsExtended | apps/web/lib/pricing-history.ts:564-566 | a first price at the very end of the range becomes a row over the whole range and no interval |
| PricingRecoveryJob.UniqueIsDistinct | apps/web/lib/pricing-history.ts:256-266 | merging pages keeps each sha once, loses none, and keeps the baseline first |
| PricingRecoveryJob.ExecutionOrderIsReversal | apps/web/lib/pricing-history.ts:268-274 | refs run baseline first, then the listed changes from last to first, no sha twice |
| PricingRecoveryJob.ExecutionIsOldestFirst | apps/web/lib/pricing-history.ts:268-274 | changes listed newest first are executed oldest first |
| PricingRecoveryJob.RunIsInOrder | apps/web/lib/pricing-history.ts:296-358 | so in every run whose source names a baseline not after the range start and pages newest first |
| PricingRecoveryJob.HandledInSequence | apps/web/lib/pricing-history.ts:296-384 | in such a run the refs are dealt with in the order they come into force |
| PricingRecoveryJob.ResumeReturnsWhereWaitLeft | apps/web/lib/pricing-history.ts:276-280 | `resumeState` gives back exactly the state the wait left, with nothing but times and failures changed |
| PricingRecoveryJob.RetryIsBounded | apps/web/lib/pricing-history.ts:291-294 | an untimed retry comes after 60 s, twice as long for every failure before it, and never after more than 3600 s |
| PricingRecoveryJob.FetchPrefixIsLongest | apps/web/lib/pricing-history.ts:360-380 | a step fetches the longest leading run of refs the source answers |
| PricingRecoveryJob.StepKeepsValid | apps/web/lib/pricing-history.ts:296-406 | every step keeps fields, cursor, handled refs and failure count consistent |
| PricingRecoveryJob.RunIsValid | apps/web/lib/pricing-history.ts:296-406 | in every run what was applied or skipped is, in order, exactly the refs before the cursor, no sha twice; the failure count is the failures since progress |
| PricingRecoveryJob.SkipNeedsTwoFailures | apps/web/lib/pricing-history.ts:368-378 | a skip needs two failures since the last progress and a snapshot that is invalid now |
| PricingRecoveryJob.AppliedWasFetched | apps/web/lib/pricing-history.ts:367-382 | what is applied is what the source returned for that sha in that step |
| PricingRecoveryJob.FailedStepWaits | apps/web/lib/pricing-history.ts:313-406 | a failed step waits until the source's reset time or 60 s to 3600 s, changes nothing before, and resumes where it was |
| PricingRecoveryJob.CursorOnlyGrows | apps/web/lib/pricing-history.ts:663-686 | once refs are listed they stay; the cursor never moves back nor past their number |
| PricingRecoveryJob.ListingIsComplete | apps/web/lib/pricing-history.ts:323-358 | in every run a job past listing works on exactly the shas of the baseline and of every page the source replied with, the baseline first; every page but the last had at least 100 refs, the last fewer |
| PricingRecoveryJob.ListingAsksOn | apps/web/lib/pricing-history.ts:340-355 | while it lists, a job asks for the page after those it was replied |
| PricingRecoveryJob.FetchStepOutcome | apps/web/lib/pricing-history.ts:357-406 | a step takes the next four refs up to the first without an answer: it fails on a missing answer, an early invalid one or an unreadable time, and else applies what was answered, skips the invalid ref and promotes when none is left |
| PricingRecoveryJob.RunTellsTruly | apps/web/lib/pricing-history.ts:296-406 | in every run times stand only while the job waits, and its error is that of what happened last |
| PricingRecoveryJob.PromotedIsDone | apps/web/lib/pricing-history.ts:383-390 | a promoted job completes with its next step, and after that nothing changes |
| PricingRecoveryJob.PromotionHandledAll | apps/web/lib/pricing-history.ts:296-406 | at promotion every ref of the list was dealt with once, and their shas are the baseline's and those of every page the source replied with |
| PricingRecoveryJob.InvalidSnapshotsDelayBoundedly | apps/web/lib/pricing-history.ts:358-384 | if the source answers, five steps a ref reach promotion however many snapshots are invalid, and one more completes the job |
| PricingRecoveryJob.AppliedInSequence | apps/web/lib/pricing-history.ts:358-384 | applied snapshots come into force one after the other if the refs do, with or without skips |
| PricingRepository.ApplySnapshot | apps/web/lib/pricing-history.ts:529-623 | the loop over models changes rows, open rows and seen models of each listed model as specified and of no other |
| PricingRepository.LoadBatch | apps/web/lib/pricing-history.ts:643-659 | a new batch starts from the open row and the seen mark of every model in the table |
| PricingRepository.PricingHistoryRepository.SaveSnapshots | apps/web/lib/pricing-history.ts:625-692 | saved exactly when fetching, cursor and shas match and times are readable; then table and cursor are as specified, else nothing changes |
| PricingRepository.PricingHistoryRepository.SkipSnapshot | apps/web/lib/pricing-history.ts:694-733 | skipped exactly when the ref is at the cursor; only the job row moves |
| PricingRepository.PricingHistoryRepository.RunStep | apps/web/lib/pricing-history.ts:296-406 | one step leaves the job, log and table of the specification and keeps the table that of the saved batches |
| PricingRepository.PromotionRecoversIff | apps/web/lib/pricing-history.ts:296-776 | in every run whose source answers in order: at promotion every ref the source named was dealt with once, and what is promoted quotes the applied snapshots' recovered prices at every instant exactly when no batch forgot the model, if the last ref was saved, and exactly under the condition of SkippedEndRecoversIff, if it was skipped |
| PricingRepository.PromotionRecovers | apps/web/lib/pricing-history.ts:296-776 | if moreover the source names no change at the range start or before it, a saved last ref or no open row is all it takes |
| SnapshotRepair.ScanLine | apps/web/lib/pricing-history-source.ts:36-45 | the character loop ends in the scanner state of the line |
| SnapshotRepair.RepairMissingModelBoundaries | apps/web/lib/pricing-history-source.ts:19-50 | the line loop returns the repaired text, or nothing if nothing was repaired |
| SnapshotRepair.RepairInsertsBoundaries | apps/web/lib/pricing-history-source.ts:21-50 | only boundary lines are inserted, exactly where an entry starts inside another; without them the text is the input |
| SnapshotRepair.LostBoundariesComeBack | apps/web/lib/pricing-history-source.ts:21-50 | a text that lost such lines is repaired to what it was |
| SnapshotRepair.RepairedNeedsNoRepair | apps/web/lib/pricing-history-source.ts:21-50 | nothing is returned exactly when no entry starts inside another; the repaired text has none and is left alone |
| SnapshotRepair.RepairKeepsStringState | apps/web/lib/pricing-history-source.ts:21-50 | rescanned from the start, the output ends in the input's string state, one level lower per repair |
| SnapshotRepair.ModelStartIff | apps/web/lib/pricing-history-source.ts:19 | a line starts an entry exactly when it is four spaces, a non-empty quoted key, a colon and an opening brace with white space after each |
| SnapshotRepair.StringIsSkipped | apps/web/lib/pricing-history-source.ts:36-45 | a string leaves the scanner where it was, whatever quotes, backslashes and braces it holds |
| SnapshotRepair.LostEndsComeBack | apps/web/lib/pricing-history-source.ts:21-50 | a list of whole entries is left alone; with the closing lines of any entries taken out, those of all but the last entry are put back where they stood |
| Utf16.WellFormedUnicode | apps/web/lib/e2ee-to-managed-contract.ts:235-247 | accepts exactly the well-formed texts and those that one lone high surrogate ends (section 3.9 of the Unicode Standard) |
| Utf16.DecodeEncode | apps/web/lib/managed-content-crypto.ts:80-130 | decoding UTF-8 takes back every sequence of code points |
| Utf16.EncodeDecode | apps/web/lib/managed-content-crypto.ts:129-131 | what the strict decoder accepts is what encoding its result gives: no two byte sequences decode alike |
| Utf16.StandardExamples | apps/web/lib/managed-content-crypto.ts:80-131 | the first and last code point of every length and the examples of section 7 of RFC 3629 |
| Utf16.Utf8KeepsTextIff | apps/web/lib/e2ee-to-managed-contract.ts:224-233 | a text survives UTF-8 exactly when it is well formed |
| Utf16.LoneHighIsLost | apps/web/lib/e2ee-to-managed-contract.ts:235-247 | the unit D800 alone is within what the scanner accepts and comes back as FFFD |
| Utf16.Utf8OfComeBack | apps/web/lib/e2ee-to-managed-migration.ts:352-357 | what comes back has the bytes that were written, so comparing hashes finds no difference |
| Utf16.BoundedText | apps/web/lib/e2ee-to-managed-contract.ts:224-233 | accepted exactly when not empty, passed by the scanner and at most 1 MiB; then kept by UTF-8 unless a lone surrogate ends it |
| SourceDigest.E2eeSourceDigest | apps/web/lib/e2ee-to-managed-migration.ts:246-270 | a digest exactly for rows validation accepts, of the stream of all digested fields |
| SourceDigest.FeedHash | apps/web/lib/e2ee-to-managed-migration.ts:359-365 | field by field the hash is fed exactly the stream |
| SourceDigest.StreamIsInjective | apps/web/lib/e2ee-to-managed-migration.ts:359-365 | length prefixes make the stream readable in one way only |
| SourceDigest.ValidFits | apps/web/lib/e2ee-to-managed-migration.ts:323-333 | no length of a valid row overflows its four bytes |
| SourceDigest.DecimalIff | apps/web/lib/e2ee-to-managed-migration.ts:386 | an id is accepted exactly if it is a number from 1 to 2^63-1 written in decimal digits |
| SourceDigest.UuidIff | apps/web/lib/e2ee-to-managed-migration.ts:17 | an owner is accepted exactly if it is five dashed groups of hexadecimal digits with a version from 1 to 8 and the variant of RFC 9562 |
| SourceDigest.FieldLayout | apps/web/lib/e2ee-to-managed-migration.ts:359-365 | a field is its name, its type and its value, each after four bytes of length |
| SourceDigest.SameStreamSameRow | apps/web/lib/e2ee-to-managed-migration.ts:246-270 | two valid stored rows have the same stream exactly when they are the same row, a null session told apart by its tag |
| SourceDigest.SameDigestSameRow | apps/web/lib/e2ee-to-managed-migration.ts:246-270 | so with a hash that collides nowhere equal digests name one row |
| ManagedMigration.ReplaceSource | apps/web/lib/e2ee-to-managed-migration.ts:272-301 | one item: the row sealed under the user's key, or the exact error; the round-trip check never fails |
| ManagedMigration.Database.CommitBatch | apps/web/lib/e2ee-to-managed-migration.ts:131-207 | all items and both state changes, or an error and the whole database unchanged |
| ManagedMigration.Database.SetMigrationState | apps/web/lib/e2ee-to-managed-migration.ts:209-244 | block from any state but complete, resume from blocked only, else unchanged |
| ManagedMigration.Database.SaveE2eeRecord | migrations/1700000036_managed_content_migration_state.sql:193-237 | a new encrypted row reopens a complete migration and a migrated account; a known key inserts nothing |
| ManagedMigration.ParseE2eeManagedCommit | apps/web/lib/e2ee-to-managed-contract.ts:37-60 | accepted exactly with 1 to 25 items, no id twice and every part acceptable; else the first item that fails decides the error |
| ManagedMigration.MigratedDecryptsIff | apps/web/lib/e2ee-to-managed-migration.ts:272-301 | a replaced row opens, and to the supplied text exactly when that is well formed |
| ManagedMigration.CommittedRowIsRowRead | apps/web/lib/e2ee-to-managed-migration.ts:341-350 | a commit whose digest matches replaces the very row the client read |
| ManagedMigration.CommitConserves | apps/web/lib/e2ee-to-managed-migration.ts:131-207 | record set and metadata are kept, exactly the items' rows are replaced, and complete means none is left and the account is migrated |
| ManagedMigration.CommitGoesThroughIff | apps/web/lib/e2ee-to-managed-migration.ts:131-207 | told from the database as it was: a commit goes through exactly with a 32-byte key of a valid version, a migration pending or running, distinct rows of the user under the digests supplied, and an account that can be closed if these are all |
| ManagedMigration.CommitLeaves | apps/web/lib/e2ee-to-managed-migration.ts:131-196 | the named rows sealed under their own metadata, nothing else touched, migration and account completed exactly if all rows were named, and as many remaining as there were without them |
| ManagedMigration.CommitFails | apps/web/lib/e2ee-to-managed-migration.ts:131-207 | what a refused commit says: the key, then the migration, then the first item in order that does not apply, then the account |
| ManagedMigration.OpensOnlyInItsPlace | apps/web/lib/e2ee-to-managed-migration.ts:272-301 | sealed content opens exactly under its key and installation in a row of the same owner, keys, role, time and version |
| ManagedMigration.RowIsWholeIff | apps/web/lib/e2ee-to-managed-migration.ts:246-270 | exactly which encrypted rows a digest is taken of |
| ManagedMigration.ColumnsAreDigested | apps/web/lib/e2ee-to-managed-migration.ts:246-266 | the digest covers every column but the agent, each under its own name and type |
| ManagedMigration.BlockAndResume | apps/web/lib/e2ee-to-managed-migration.ts:209-244 | a migration is blocked exactly unless it is complete, and resumed to pending exactly from blocked |
| ManagedMigration.InsertLeaves | migrations/1700000036_managed_content_migration_state.sql:193-237 | what a saved row leaves of rows, migrations and accounts; who may not save |
| ManagedMigration.RunKeepsTracked | apps/web/lib/e2ee-to-managed-migration.ts:131-244 | in every run a row still encrypted end to end has an open migration and an active account: none is forgotten |
| ManagedMigration.LastRowsComplete | apps/web/lib/e2ee-to-managed-migration.ts:131-207 | from every such state a commit of all rows left goes through and completes migration and account, unless the migration is blocked |
| ManagedMigration.BlockedStaysBlocked | apps/web/lib/e2ee-to-managed-migration.ts:131-244 | in every run a blocked migration stays blocked and its rows stay as they are until it is resumed |
| ManagedMigration.RunKeepsConsistent | apps/web/lib/e2ee-to-managed-migration.ts:131-244 | in every run of commits, blocks, resumes and inserts a complete migration leaves no encrypted row and a migrated account is complete |
| ManagedMigration.RunKeepsRows | apps/web/lib/e2ee-to-managed-migration.ts:131-301 | in every run each row is untouched, or replaced by exactly one commit and sealed over its item's text; none is lost |
| MigrationLoop.OneMore | apps/web/lib/e2ee-to-managed-worker.ts:178-311 | one more log entry moves the sums on and stays safe if they permit it |
| MigrationLoop.ApplyKeepsValid | apps/web/lib/e2ee-to-managed-worker.ts:178-311 | every event, with callbacks that dispose or throw, keeps the closure variables what the log adds up to |
| MigrationLoop.EveryRunIsSafe | apps/web/lib/e2ee-to-managed-worker.ts:178-311 | in every interleaving every entry was allowed when it happened |
| MigrationLoop.EveryMomentIsSafe | apps/web/lib/e2ee-to-managed-worker.ts:178-311 | at most one run, timer and key; no run starts under a timer; one completion; nothing called after disposal; at most three retries between successes; keys zeroed when runs end |
| MigrationLoop.FailureIsReported | apps/web/lib/e2ee-to-managed-worker.ts:224-236 | a failed request reaches the page as one error and frees the loop |
| MigrationLoop.ConflictIsRetriedOrReported | apps/web/lib/e2ee-to-managed-worker.ts:212-222 | a conflict is retried after 50, 100 or 200 ms, and reported once three retries are used up |
| MigrationLoop.BatchLeadsOn | apps/web/lib/e2ee-to-managed-worker.ts:238-287 | after a batch the loop reports, zeroes the key and goes on at once, or completes and stops |
| MigrationLoop.StatusLeadsOn | apps/web/lib/e2ee-to-managed-worker.ts:238-262 | a complete status completes and stops; one blocked or without rows, or a page that is not ready, ends the run; any other copies the key for a batch, or reports that it could not |
| MigrationLoop.BatchFollowsStatus | apps/web/lib/e2ee-to-managed-worker.ts:238-287 | whenever in any interleaving a key is copied, the page was last told of a migration pending or running with rows left |
| MigrationLoop.ThrowingCompletionIsReported | apps/web/lib/e2ee-to-managed-worker.ts:224-252 | completing is reported once even if the callback throws, which is reported as an error |
| MigrationLoop.DisposedIsQuiet | apps/web/lib/e2ee-to-managed-worker.ts:178-311 | after disposal an event zeroes a key or ends a run and does nothing else that shows |
| MigrationLoop.WakeStartsRun | apps/web/lib/e2ee-to-managed-worker.ts:200-236 | being woken starts a run exactly when nothing is in flight, pending or finished and the page is ready |
| MigrationLoop.WholeMigration | apps/web/lib/e2ee-to-managed-worker.ts:178-311 | for any number of rounds a loop that is answered tells the page before and after every batch, uses and zeroes a key a batch, and completes with the last |
| MigrationLoop.E2eeToManagedLoop.constructor | apps/web/lib/e2ee-to-managed-worker.ts:188-198 | a loop begins with nothing started, running, complete or scheduled |
| MigrationLoop.E2eeToManagedLoop.ScheduleRun | apps/web/lib/e2ee-to-managed-worker.ts:200-236 | a run starts exactly when the loop is runnable and none is in flight |
| MigrationLoop.E2eeToManagedLoop.StartLoop | apps/web/lib/e2ee-to-managed-worker.ts:289-295 | starts once, and not after disposal |
| MigrationLoop.E2eeToManagedLoop.DisposeNow | apps/web/lib/e2ee-to-managed-worker.ts:296-309 | disposes once and clears a pending timer |
| MigrationLoop.E2eeToManagedLoop.StatusReply | apps/web/lib/e2ee-to-managed-worker.ts:238-250 | the state after a status: told, then finished, stopped, failed, or a key copied for a batch |
| MigrationLoop.E2eeToManagedLoop.BatchReply | apps/web/lib/e2ee-to-managed-worker.ts:268-286 | the state after a batch: told, finished or to be repeated, the key zeroed in every case |
| MigrationLoop.E2eeToManagedLoop.BatchConflicts | apps/web/lib/e2ee-to-managed-worker.ts:212-266 | the state after a conflict: a timer set with its delay, or a failed run |
| MigrationLoop.E2eeToManagedLoop.RequestFails | apps/web/lib/e2ee-to-managed-worker.ts:224-286 | a request that fails leaves a failed run, the key zeroed if a batch was under way |
| MigrationLoop.E2eeToManagedLoop.RunSettles | apps/web/lib/e2ee-to-managed-worker.ts:228-232 | an error is reported only if the run failed and the loop is not disposed |
| MigrationLoop.E2eeToManagedLoop.RunEnds | apps/web/lib/e2ee-to-managed-worker.ts:232-235 | the loop is free again and repeats only if runnable |
| MigrationLoop.E2eeToManagedLoop.RetryTimerFires | apps/web/lib/e2ee-to-managed-worker.ts:216-221 | the timer's mark is taken away and a run scheduled unless disposed or complete |
| MigrationLoop.CompletionBoundary.Finish | apps/web/lib/e2ee-to-managed-worker.ts:70-75 | completion is reported by the first call only |
| MigrationLoop.CompletionBoundary.Unlock | apps/web/lib/e2ee-to-managed-worker.ts:79-87 | a key is handed on exactly while not complete, and every byte is zeroed afterwards |
| MigrationLoop.CompletionBoundary.AcceptInitialStatus | apps/web/lib/e2ee-to-managed-worker.ts:91-102 | a first status is passed on exactly when neither it nor the boundary says complete |
| PayloadPacking.BoundLegacyMigrationPage | apps/web/lib/e2ee-legacy-contract.ts:54-76 | counting as it goes yields the longest non-empty prefix that fits; an error exactly when the first record alone does not |
| PayloadPacking.ManagedMigrationPage | apps/web/lib/e2ee-to-managed-migration.ts:97-129 | so does serialising every candidate anew |
| PayloadPacking.PagersAgree | apps/web/lib/e2ee-to-managed-migration.ts:117-127 | both come to the same page |
| PayloadPacking.BodyGrows | apps/web/lib/e2ee-legacy-contract.ts:58-73 | one more element costs its bytes and a comma unless it is the first |
| PayloadPacking.LongestIsUnique | apps/web/lib/e2ee-legacy-contract.ts:54-76 | there is one longest prefix, and then the first element fits alone |
| PayloadPacking.FillsFourMiB | apps/web/lib/e2ee-legacy-contract.ts:54-76 | unless told otherwise the longest prefix is what four MiB hold, and one element more would not fit |
| PayloadPacking.PackBatch | apps/web/lib/e2ee-to-managed-worker.ts:143-175 | the counted bytes are the exact length of the message sent, which fits, and one more item would not; it fails exactly when the loop reaches an item it cannot convert or a first one too large |
| PayloadPacking.PackedIsLongest | apps/web/lib/e2ee-legacy-worker.ts:42-70 | what was packed is the longest prefix of the sources that fits |
| PayloadPacking.FailsAtOnce | apps/web/lib/e2ee-to-managed-worker.ts:143-175 | a batch fails at one source at most |
| PayloadPacking.BrowserKeepsPlaintextIff | apps/web/lib/e2ee-to-managed-worker.ts:147-153 | a plaintext is sent on unchanged exactly when it does not start with a byte order mark |
| PayloadPacking.MarkIsDropped | apps/web/lib/e2ee-to-managed-worker.ts:147-153 | the plaintext EF BB BF 41 is sent on as 41 |
| WriteFence.RunKeepsExact | migrations/1700000039_managed_key_distribution.sql:39-100 | in every run the trigger-kept distribution is the one counting the rows gives, without empty groups |
| WriteFence.RewrapActiveCount | apps/web/lib/provider-rewrap.ts:224-286 | a rewrap takes one active wrapper from the old provider and gives one to the target |
| WriteFence.StepAddsActiveIff | apps/web/lib/managed-user-keys.ts:142-199 | a step adds an active wrapper under a provider exactly when it is a rewrap to it that goes through or a new key the fence, or else the process, puts there |
| WriteFence.CountNeverGrowsIff | apps/web/lib/managed-user-keys.ts:142-199 | in every interleaving a provider's active count grows at no step exactly when no rewrap to it goes through and no new key is made under it |
| WriteFence.OldCountNeverGrowsIff | apps/web/lib/managed-user-keys.ts:142-199 | after a start elsewhere, and until one names it again, exactly when no rewrap back goes through |
| WriteFence.CompletionFindsNoOld | scripts/toard-admin.ts:329-389 | when completion is recorded no old active and no pending wrapper is left, and all active ones are the target's |
| WriteFence.ZeroAfterCompletionIff | scripts/toard-admin.ts:329-389 | from any recorded completion on the old count stays zero exactly when no rewrap back goes through and no new key is made there |
| WriteFence.FencedZeroAfterCompletionIff | scripts/toard-admin.ts:329-389 | with the fence elsewhere at completion and no start back, exactly when no rewrap back goes through |
| WriteFence.NewKeyAfterCompletion | scripts/toard-admin.ts:329-389 | from an empty store: with a start back to the old provider in force a completion goes through, and the next key is made under the old provider |
| WriteFence.StaleRewrapReturns | apps/web/lib/provider-rewrap.ts:43-112 | from an empty store: a key is made and read, a migration to the old provider and then one to the new one start, the latter completes, and the former's rewrap goes through |
| WriteFence.RewrapsEmptyOld | scripts/toard-admin.ts:299-313 | when every user's rewrap goes through at some time, whatever runs between, no active wrapper is left under the old provider unless a rewrap or a new key goes there |
| WriteFence.StepKeepsOneActive | apps/web/lib/provider-rewrap.ts:224-286 | a user has at most one active wrapper after every transaction |
| WriteFence.EvaluateReadiness | apps/web/lib/managed-key-distribution.ts:131-165 | the five counters are the sums of their shares, and removal is ready exactly when no listed group is pending or active elsewhere |
| WriteFence.ListingDecides | apps/web/lib/managed-key-distribution.ts:131-165 | any listing of the distribution decides what its groups say |
| WriteFence.CountersCountRows | apps/web/lib/managed-key-distribution.ts:131-165 | over a listing of the distribution the five counters are the numbers of the rows they are named after |
| WriteFence.ReadyIffRowsReady | apps/web/lib/managed-key-distribution.ts:131-165 | removal is ready exactly when no row is pending and every active row is the target's |
| WriteFence.KeyStore.Write | migrations/1700000039_managed_key_distribution.sql:39-93 | a write and the trigger's counts |
| WriteFence.KeyStore.LatestMigrationTarget | migrations/1700000040_managed_content_write_fence.sql:17-35 | the target of the latest start, whatever completed since |
| WriteFence.KeyStore.LoadOrCreateActive | apps/web/lib/managed-user-keys.ts:142-199 | the user's active key, made under the fence's target if there was none; the lost-race error exactly when its place is taken and no key is active |
| WriteFence.KeyStore.RecordMigrationStarted | scripts/toard-admin.ts:391-411 | a start moves the fence and nothing else |
| WriteFence.KeyStore.PromotePendingWrapper | apps/web/lib/provider-rewrap.ts:224-286 | the swap happens exactly when the wrapper read before is still active and the target's place is free |
| WriteFence.KeyStore.CompleteProviderMigration | scripts/toard-admin.ts:329-389 | completion is recorded exactly when no row is pending, every active row is the target's and their number is a safe integer |
| WriteFence.KeyStore.RewrapUser | apps/web/lib/provider-rewrap.ts:43-112 | already current exactly if the active wrapper is the target's, migrated exactly if it is elsewhere and no other wrapper is pending; then it retires in favour of a new one of the same key version |
| WriteFence.KeyStore.RewrapUsers | scripts/toard-admin.ts:299-313 | exactly the users that could be moved before the first rewrap are moved and counted, exactly the entries of users neither movable nor at the target are failures, and nobody else's rows change; if all users with an old wrapper are listed and none fails, none is left |
| DeviceControl.SyncOutcome | apps/web/lib/device-control-repository.ts:163-280 | the whole command a sync leaves: the first result of a claim, expiry, a hand-out of what is free for exactly five minutes, else nothing; and no command added or lost |
| DeviceControl.FirstResultCounts | apps/web/lib/device-control-repository.ts:163-181 | a claimed command takes the first result for it; results change nothing else |
| DeviceControl.StepEvolves | apps/web/lib/device-control-repository.ts:141-424 | no transaction loses a command or moves one other than forward, and one open command a kind remains |
| DeviceControl.ClosedStaysClosed | apps/web/lib/device-control-repository.ts:163-181 | a succeeded, failed or expired command never changes again, so each completes at most once |
| DeviceControl.HandOutsAreApart | apps/web/lib/device-control-repository.ts:238-266 | between two hand-outs of a command lie at least the five minutes of its lease |
| DeviceControl.LimitNeverCuts | apps/web/lib/device-control-repository.ts:244-256 | the limit of eight never cuts off a candidate |
| DeviceControl.EnqueueFindsOpen | apps/web/lib/device-control-repository.ts:366-424 | an enqueue always finds an open, unexpired command of the kind to answer with |
| DeviceControl.AppliedIsWholeReport | apps/web/lib/device-control-repository.ts:183-221 | the stored applied triple is one whole report: the latest among those of the greatest generation |
| DeviceControl.GenerationCountsChanges | apps/web/lib/device-control-repository.ts:303-364 | the generation counts the mode changes, plus one if a sync came first; mode and start time are those last asked for, or those the first sync reported |
| DeviceControl.ReplyIsWantedPolicy | apps/web/lib/device-control-repository.ts:141-301 | after any run a sync answers with the policy stored: the generation, mode and start time of the last change asked for |
| DeviceControl.LastReportIsKept | apps/web/lib/device-control-repository.ts:183-221 | the last report is kept whole but for an applied triple of an older generation |
| DeviceControl.NewCommandIsHandedOut | apps/web/lib/device-control-repository.ts:238-424 | a command added can be claimed for ten minutes, and the next sync hands it out for five |
| DeviceControl.DeviceControlRepository.SyncDevice | apps/web/lib/device-control-repository.ts:141-301 | the transaction's whole effect and reply, nothing for a device of another owner |
| DeviceControl.DeviceControlRepository.SetDesiredContentMode | apps/web/lib/device-control-repository.ts:303-364 | the next generation with the mode and its start time |
| DeviceControl.DeviceControlRepository.EnqueueCommand | apps/web/lib/device-control-repository.ts:366-424 | expiry, a new command unless one of the kind is open, and an answer that is open |
| LegacyRetirement.LogTellsRow | apps/web/lib/e2ee-legacy-retirement.ts:127-193 | in every run folding the event log gives exactly the three stored times |
| LegacyRetirement.StatusMeans | apps/web/lib/e2ee-legacy-retirement.ts:69-193 | exactly when each state is reported after an observation; a zero observation is never asked for |
| LegacyRetirement.ObservationLeaves | apps/web/lib/e2ee-legacy-retirement.ts:127-193 | with rows no time stands, without them the first zero does, and a missing key is noted once it may be missing |
| LegacyRetirement.ConfirmGoesThroughIff | apps/web/lib/e2ee-legacy-retirement.ts:95-115 | a confirmation goes through exactly if somebody makes it, no row is left, the retention since the zero is over and none was made yet; and all it leaves |
| LegacyRetirement.ReadyIsBacked | apps/web/lib/e2ee-legacy-retirement.ts:69-193 | ready or retired is reported only if every committed observation since the recorded one saw zero and the confirmation waited out the retention then configured; refused ones saw zero too exactly when nobody tried to confirm while there were rows |
| LegacyRetirement.AlwaysSawZeroIff | apps/web/lib/e2ee-legacy-retirement.ts:95-193 | since a recorded zero every observation, committed or refused, saw zero exactly when no confirmation was tried while there were legacy rows |
| LegacyRetirement.AttemptIsKeptIff | apps/web/lib/e2ee-legacy-retirement.ts:95-115 | for any row: what a confirmation attempt observes is kept unless it would invalidate the recorded zero, or is the first zero and cannot be confirmed at once |
| LegacyRetirement.RetirementCompletes | apps/web/lib/e2ee-legacy-retirement.ts:69-193 | waiting, confirming and removing the key leads to ready and then retired |
| LegacyRetirement.RefusedConfirmationForgets | apps/web/lib/e2ee-legacy-retirement.ts:95-115 | a run in which only a refused confirmation met seven legacy rows ends with the key reported removable |
| LegacyRetirement.RetirementStore.ReconcileStatus | apps/web/lib/e2ee-legacy-retirement.ts:127-193 | row and log after an observation, and the state reported |
| LegacyRetirement.RetirementStore.ConfirmLegacyBackupPurge | apps/web/lib/e2ee-legacy-retirement.ts:95-115 | the confirmation with both reconciliations, or everything as it was |
| MfaRowLocks.RunIsValid | apps/web/lib/mfa-store.ts:96-226 | in every interleaving a passkey implies a settings row |
| MfaRowLocks.CommitRaisesVersion | apps/web/lib/mfa-store.ts:96-226 | every change of passkeys or settings raises the version by exactly one; a row begins with version 1, made by a policy with 2 |
| MfaRowLocks.RegistrationAlone | apps/web/lib/mfa-store.ts:82-119 | with nobody in the way a registration stores its passkey and demands nothing |
| MfaRowLocks.PolicyAlone | apps/web/lib/mfa-store.ts:172-204 | with nobody in the way a policy is stored exactly if there is a passkey or it demands none |
| MfaRowLocks.DeletionAlone | apps/web/lib/mfa-store.ts:206-226 | with nobody in the way a deletion takes its passkey exactly unless it is the last one and one is demanded |
| MfaRowLocks.PasskeyIsRemovedOnce | apps/web/lib/mfa-store.ts:206-226 | in every interleaving a passkey that is being removed is still there, and one client alone removes it |
| MfaRowLocks.OthersWait | apps/web/lib/mfa-store.ts:96-226 | while another client has the settings row nobody changes passkeys or settings, and who needs the row waits |
| MfaRowLocks.RequiredMeansProtected | apps/web/lib/mfa-store.ts:172-226 | if every deletion finds the settings row as it begins, a demanded passkey is always there |
| MfaRowLocks.ExistingPasskeyFindsRow | apps/web/lib/mfa-store.ts:206-212 | a deletion of a passkey that exists when it begins does find the row |
| MfaRowLocks.DeletionWithoutRowBreaksProtection | apps/web/lib/mfa-store.ts:206-220 | from every state without the settings row a deletion that begins can go on, without any other deletion, to take the last demanded passkey |
| MfaRowLocks.StaysProtectedIff | apps/web/lib/mfa-store.ts:172-226 | in everything that can follow the beginning of a deletion a demanded passkey is there, as long as later deletions find the row, exactly when this one does |
| MfaRowLocks.LastPasskeyIsTaken | apps/web/lib/mfa-store.ts:206-220 | such a run from nothing |
| AdminRoles.StepKeepsValid | apps/web/lib/admin-members.ts:39-58 | whatever a client has locked and counted stays an admin's until it ends |
| AdminRoles.NeverZeroAdmins | apps/web/lib/admin-members.ts:28-66 | no interleaving of any number of clients takes the last admin's role |
| AdminRoles.SoloDemotion | apps/web/lib/admin-members.ts:28-66 | with nobody in the way a demotion goes through exactly when another admin remains, and frees its locks |
| AdminRoles.CountDecides | apps/web/lib/admin-members.ts:39-58 | who counts can always come to a decision: the demotion goes on exactly if more than one admin is found |
| AdminRoles.SoloAssignment | apps/web/lib/admin-members.ts:28-66 | with nobody in the way any change but a demotion is made at once, and none to a user there is not |
| AdminRoles.UserTable.AssignUserRole | apps/web/lib/admin-members.ts:28-66 | run alone: each refusal exactly in its case, otherwise exactly the one role changed |

## Left out

- Floating-point rounding in cost arithmetic and display; amounts are exact reals, never NaN, infinite or negative zero.
- SQL text, connection pools, HTTP handlers, fetch, the GitHub API and real timers; they appear as stores, events and parameters.
- Database failures in the middle of a transaction, except as a client that aborts in the two row-lock models.
- Real cryptography, key derivation, randomness, secrecy, and the zeroing of buffers other than the loop's key copy and the boundary's.
- `resolvePricingEntry`: a snapshot gives any partial map from models to prices; `pricingDetails` is an opaque text compared for equality.
- Dropping blank model names and sorting model names in `createPricingIntervalState`; the models keep their first-seen order, which changes no result because closing sorts anew.
- `localeCompare`: models are ordered by an arbitrary rank.
- The choice of a job's range and models (`jobInput`, time zones), `findCompleted`, status views, and the copy into `pricing_revisions` where an older row of the same key wins.
- Two recovery workers at once: each step runs alone, so superseded updates do not occur.
- JSON itself: `parseSnapshot` tries the parser before and after the repair, and the parser is not part of this model.
- Lone surrogates in a price list: its text is a sequence of Unicode characters, as the response decoder yields.
- JavaScript object-descriptor checks, base64url form and the text forms of dates; a digest is its 32 bytes, a time its ISO text or its milliseconds.
- The progress view, source markers and timestamps of the migration tables, and the conversion of other rows to end-to-end encryption.
- The adaptive batch limits, the round-trip check of the legacy worker, and aborted requests (they fail like others).
- `loadVersion`, provider health, canaries, the administrator check and the key cache; key bytes and wrapping are opaque.
- Device inventory, host names in it, audit rows and the list view of device control; other owners' devices are untouched by construction.
- Passkey ceremonies, counters and challenges; two registrations of one credential id do not wait for each other here.
- Deletion of users, and deadlocks other than as an aborted client, in the two row-lock models.
- DeviceControl.GenerationCountsChanges: takes transactions one after the other; a first mode change racing a first sync is not covered.
- WriteFence.KeyStore.RewrapUsers: runs with no other transaction between two users; WriteFence.RewrapsEmptyOld takes any interleaving.
