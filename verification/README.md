# Flagsmith's stateful cores, modelled and proved in Dafny

Flagsmith serves feature flags and runs experiments on them. This project models the parts of its API
whose correctness rests on long runs, on concurrency or on arithmetic, and proves what they promise.

- **Warehouse event delivery** (`DeliveryProtocol`, `WarehouseDelivery`, `PartitionKeys`, `AtLeastOnce`). Workers list the
  objects under `events/`, insert each into a customer's warehouse, copy it to `archive/` or `failed/`,
  delete the original and log the outcome. The protocol interleaves any number of workers, crashes between
  any two steps and arrivals; the class `Connection` is the sequential code, and an undisturbed run of it
  is shown to be a run of the protocol. What the inserts leave in the warehouse is carried on to the results.
- **Cohort memberships** (`CohortLedger`, `CohortCounts`, `CohortTasks`). A ledger of pending and applied rows is
  kept in step with a trait store in batches of reads, writes and guarded updates, with a protocol for
  draining before deletion.
- **Feature states** (`FeatureStates`, `FlagResolution`, `ChangeRequests`, `HashingSeeds`, `FeatureTable`,
  `Bucketing`, `ExpectedShares`, `Rollouts`, `TestedSplit`). The comparison of feature states, the resolution of
  an identity's flags, the publishing of change requests, and the partition of hash percentages among multivariate options, whose seed and order
  must survive cloning and recreation; and the split that sample-ratio checks test against, next to the one
  that is served. Version 1 versioning.
- **Usage analytics** (`LabelSets`, `Tallies`, `UsageCache`, `UsageRollup`, `UsageSchedule`, `SdkTables`). Counts go
  through write-back caches to raw rows, and from there by overlapping re-aggregation into aligned buckets.
- **Experiment results** (`ResultsQuery`, `RowTotals`, `ExposureCounts`, `Redelivery`, `ExposureBuckets`, `ExposureSeries`,
  `ResultColumns`, `Statistics`, `SampleRatio`, `ResultsSummary`). The warehouse queries read as operations on lists of rows and compared
  with a definition that looks at one identity at a time; the statistics over the real numbers.
- **Experiment lifecycle** (`ExperimentLifecycle`). Status and timestamps, and the cached computations that
  tasks refresh and freeze.

`Options`, `Sequences` and `Strings` hold what several modules need. Protocols are total step functions folded over lists of steps,
where a step that is not enabled leaves the state alone, so a theorem about all lists of steps is one about
all runs. Objects that the code updates are classes, and each method is tied to a function of the old state.

Where the code and its documentation disagree, the model follows the code. The docstring of `deliver_object`
(api/experimentation/warehouse_delivery_service.py:232-235) says that the distinct-aware aggregates of the
results queries absorb redelivered rows. That holds for exposures, `n` and occurrence metrics
(`ExposureCounts.CopiesDoNotMatter`, `AtLeastOnce.ResultsAreOfArrivedRows`). For the other aggregations
`Redelivery.CopiesKeepTotalsIff` says exactly when it does, and `Redelivery.CopyCanChangeTotals` gives an input
where it does not.

`_expected_variant_shares` takes the live default with the highest id for the current version
(api/experimentation/services.py:490-493), while identities are served the one with the latest `live_from`
(api/features/models.py:571-600): `TestedSplit.TestedIsServedIff` and `TestedSplit.SplitsCanDiffer`. Its comment
also names the split of the rollout's segment override as the one to read: `TestedSplit.RolloutLeavesCheckIff`
says what reading the default leaves of the check.

Properties that turned out to hold only under a condition are stated with exactly that condition: these are the
rows that say "exactly if". Where the failing case is a run, a lemma gives one.

## Model

| member | source | states |
|---|---|---|
| `DeliveryProtocol.KeyInjective` | api/experimentation/warehouse_delivery_service.py:33-35 | keys of `events/`, `archive/` and `failed/` never collide: equal keys have the same area and path |
| `DeliveryProtocol.MoveKeepsPath` | api/experimentation/warehouse_delivery_service.py:150-166 | the key a move builds is the same path under `archive/` or `failed/` |
| `DeliveryProtocol.StepKeepsObjects` | api/experimentation/warehouse_delivery_service.py:150-166 | every single step of any worker, crash or arrival loses no object and keeps what is filed backed by an answer of the warehouse |
| `DeliveryProtocol.StepKeepsWorkers` | api/experimentation/services.py:964-1017 | what each worker knows stays true whatever the others do: settled means answered, copied means filed, deleted means moved |
| `DeliveryProtocol.NoEventObjectIsLost` | api/experimentation/services.py:947-1017 | over every interleaving of any number of workers, crashes and arrivals: every object ever in `events/` is in `events/`, `archive/` or `failed/` with its bytes; archived means inserted, failed means rejected; a log row implies the move already happened |
| `DeliveryProtocol.SettleIff` | api/experimentation/warehouse_delivery_service.py:245-248 | an object is rejected exactly on a server error with one of the ten codes for bad bytes, and delivered exactly if it was written; on any other reply, a lost connection among them, nothing is settled |
| `DeliveryProtocol.FiledAsTheWarehouseSaid` | api/experimentation/warehouse_delivery_service.py:86-99 | over every interleaving: an archived object is one the warehouse said it wrote, a failed one is one it answered with one of those ten codes, and an object it said neither of is still in `events/` |
| `AtLeastOnce.ActionsAreSteps` | api/experimentation/services.py:947-1017 | the runs considered below are runs of the protocol, with the rows that reached the warehouse added |
| `AtLeastOnce.TableBetween` | api/experimentation/services.py:947-1017 | over every run of the protocol, whatever failed inserts and lost answers wrote: every row of the warehouse is a row of an object that arrived, and every row of an archived object is in the warehouse |
| `AtLeastOnce.TableIsArrived` | api/experimentation/services.py:947-1017 | once everything that arrived is archived, the rows of the warehouse are exactly those that arrived, up to copies and order |
| `AtLeastOnce.ResultsAreOfArrivedRows` | api/experimentation/warehouse_delivery_service.py:232-235 | then the sizes of the variants and all occurrence metrics are those of the arrived rows, however workers overlapped, crashed and delivered again |
| `WarehouseDelivery.ObjectStepsMove` | api/experimentation/warehouse_delivery_service.py:150-166 | a worker left alone for one object has moved it, recorded the answer and logged it |
| `WarehouseDelivery.MoveAllEffect` | api/experimentation/services.py:971-1017 | after several moves each moved object is filed once under its outcome's area, and no other object changed |
| `WarehouseDelivery.RunIsProtocolRun` | api/experimentation/services.py:964-1017 | the loop of a run, undisturbed, is a run of the concurrent protocol: same bucket, same log, same remaining list |
| `WarehouseDelivery.ListedRunIsProtocolRun` | api/experimentation/services.py:1032-1086 | so is a whole run from its listing on |
| `WarehouseDelivery.RunEndsBeforeTimeout` | api/experimentation/services.py:959-966 | every visit begins within 210 seconds, so that a run whose last insert takes no longer than it may is over half a minute before its task times out |
| `WarehouseDelivery.DescriptionExplains` | api/experimentation/warehouse_delivery_service.py:102-122 | the detail a customer sees for each reply that ends a run |
| `WarehouseDelivery.FailedVisitIsCrash` | api/experimentation/warehouse_delivery_service.py:150-166 | a visit that S3 fails between copy and deletion leaves the bucket as a crash there does in the protocol |
| `WarehouseDelivery.Connection.DeliverObject` | api/experimentation/services.py:971-1011 | one object is inserted, moved and logged exactly if S3 does not fail and the warehouse wrote it or found its bytes bad, and filed under `failed/` only then; on any other error of the warehouse bucket and log stay as they were; an S3 error leaves at most a copy of it and logs nothing |
| `WarehouseDelivery.Connection.DeliverPendingObjects` | api/experimentation/services.py:962-1017 | exactly a prefix of the list is moved, each object of it written or refused for its bytes as its log row says, within the deadline; delivered plus rejected is its length and the row total is the sum over its DELIVERED rows; the run stops at the first other error of the warehouse or at the deadline, with the rest in place, and an S3 error leaves at most a copy of the next object |
| `WarehouseDelivery.Connection.MarkDeliveryFailed` | api/experimentation/services.py:929-935 | status ERRORED with the first 255 characters of the detail |
| `WarehouseDelivery.Connection.MarkDeliverySucceeded` | api/experimentation/services.py:938-944 | status CONNECTED; the detail is cleared unless it already was connected |
| `WarehouseDelivery.Connection.DeliverWarehouseEvents` | api/experimentation/services.py:1032-1086 | the status a run leaves says what it met: nothing pending changes nothing, an S3 failure of the listing or of an object fails the task and leaves the status alone, an unusable warehouse is an error whose detail explains the reply, a run that only rejected is an error, anything else is a success; and a prefix was moved |
| `PartitionKeys.KeyOrderIsChronological` | api/experimentation/ingestion_infra_service.py:28-32 | zero-padded partition keys of one environment sort in the order of time, and within an hour by file name |
| `PartitionKeys.PrefixIsOldest` | api/experimentation/warehouse_delivery_service.py:134-147 | whatever prefix of the sorted listing a run handles, nothing it leaves behind is of an older hour |
| `CohortLedger.PendingIdsSpec` | api/cohorts/services.py:31-38 | the pending rows are read in id order, and they are exactly those not APPLIED |
| `CohortLedger.BatchIsOldest` | api/cohorts/services.py:35-38 | a batch holds pending rows only, at most 100, and leaves a pending row out only if it is full of older ones |
| `CohortLedger.StepKeepsInv` | api/cohorts/services.py:35-76 | with one applier at work, every database statement, trait write, new row, deletion request and crash keeps the ledger invariant |
| `CohortLedger.LedgerTellsTheTruth` | api/cohorts/services.py:111-137 | over every run with one applier at a time: APPLIED rows hold the trait, a held trait has a ledger row, after the deletion request all rows are PENDING_REMOVE, and a deleted cohort leaves no identity holding its trait |
| `CohortLedger.TasksAreBounded` | api/cohorts/tasks.py:24-36 | over every run with any number of appliers: a task reads at most ten batches, and gives up with rows pending exactly after its tenth |
| `CohortCounts.EachRowIsCountedOnce` | api/cohorts/services.py:56-67 | for any number of appliers, crashes and replays: the rows that became APPLIED are each counted once as reported, held by an applier or lost in a crash before the report; likewise the removed rows |
| `CohortCounts.TwoAppliersCanLeaveATrait` | api/cohorts/tasks.py:19-36 | why one applier per cohort is needed: a run with two in which the cohort is deleted and an identity still holds the trait |
| `CohortCounts.DeletedIsSafeIff` | api/cohorts/services.py:35-76 | whatever number of appliers there were: after a cohort is deleted no identity ever holds its trait again exactly if none does now and no applier has a trait left to write |
| `CohortTasks.BatchOutcome` | api/cohorts/services.py:45-61 | a whole undisturbed batch: its additions are applied and hold the trait, its removals are gone and do not, nothing else changes, and the rest of the queue stays in order |
| `CohortTasks.DoneDropsBatch` | api/cohorts/services.py:36-38 | what is pending after a batch is what was pending before without the batch |
| `CohortTasks.Cohort.SplitBatch` | api/cohorts/services.py:41-51 | the four lists built by the loop are the batch's additions and removals and their identifiers |
| `CohortTasks.Cohort.ApplyPendingMemberships` | api/cohorts/services.py:35-76 | the oldest 100 pending rows are settled and counted, and the result says whether any are left |
| `CohortTasks.Cohort.ApplyMembershipDeltas` | api/cohorts/tasks.py:24-36 | a run takes at most ten batches: with n pending it applies ceil(n/100) of them or ten, re-enqueues exactly when n is over 1000, and finalises a requested deletion exactly when it drained |
| `CohortTasks.Cohort.FinaliseDeletion` | api/cohorts/services.py:128-132 | a cohort is finalised only when no identity holds its trait |
| `CohortTasks.Cohort.RequestDeletion` | api/cohorts/services.py:111-125 | every row becomes PENDING_REMOVE, whatever its state |
| `CohortTasks.Cohort.Drain` | api/cohorts/tasks.py:25-36 | undisturbed, n pending memberships take ceil(n/1000) runs (one if there are none) and ceil(n/100) batches, and a cohort awaiting deletion is gone with no trait left |
| `FeatureStates.GtIsPrecedes` | api/features/models.py:532-604 | the hand-written comparison is: a higher tier, else the newer live state of the same override |
| `FeatureStates.GtRaises` | api/features/models.py:539-554 | exactly when the comparison raises: different environment, feature or identity |
| `FeatureStates.GtIsStrictWeakOrder` | api/features/models.py:532-604 | over one flag's states, on distinct states, the comparison is asymmetric and transitive, incomparability is transitive, and of two live states one is greater |
| `FeatureStates.BeatsItselfIff` | api/features/models.py:549-600 | a state is greater than itself exactly if it is an identity override |
| `FeatureStates.BothBeat` | api/features/models.py:549-569 | two comparable states are each greater than the other exactly if they are versions of one identity override, or override for two segments of one priority; so these must not meet |
| `FeatureStates.LiveTotal` | api/features/models.py:532-604 | of two different live states one is greater |
| `FeatureStates.LiveOrderIsStable` | api/features/models.py:642-655 | the order of two live states does not depend on when they are compared |
| `FlagResolution.LiveStatesSpec` | api/features/managers.py:54-64 | the live filter keeps exactly the environment's versioned states whose live_from has come |
| `FlagResolution.KeepHighest` | api/features/versioning/versioning_service.py:110-121 | the loop keeps, per key, the greatest state, however the clock moves between comparisons |
| `FlagResolution.CurrentKeepsHighest` | api/features/versioning/versioning_service.py:612-629 | excluding superseded versions does not change who wins |
| `FlagResolution.CurrentIsOnePerOverride` | api/features/versioning/versioning_service.py:612-629 | what the window keeps is one state per default, segment override and identity override |
| `FlagResolution.ResolveFlags` | api/environments/identities/models.py:99-128 | both passes together give every feature with a live state its greatest one, and nothing else |
| `FlagResolution.FirstPassByColumns` | api/features/versioning/versioning_service.py:85-121 | the first pass keeps, for every live state, one of the same feature, identity and segment that is it or precedes it, and no two for the same |
| `FlagResolution.ResolvedByColumns` | api/features/models.py:532-604 | in terms of the columns: every feature with a live state gets the one served before all others, by identity, then segment priority, then live_from, then version |
| `FlagResolution.ResolutionIsUnique` | api/environments/identities/models.py:113-128 | the resolved flags are the same for any order the rows come in |
| `FlagResolution.WinnerByPrecedence` | api/environments/identities/models.py:61-71 | the winner is the identity override if there is one, else the override of the lowest segment priority, else the environment default |
| `ChangeRequests.MaxVersionSpec` | api/features/models.py:988-1006 | the version lookup finds the highest version of the lineage, if it has one |
| `ChangeRequests.PublishableIff` | api/features/models.py:988-1006 | a request can be published exactly if each of its states has a version in its lineage to follow |
| `ChangeRequests.PublishedRows` | api/core/workflows_services.py:54-70 | every state of a request gets the highest version of its lineage plus one, and its own time if that is later than the commit, else the commit's; nothing else changes |
| `ChangeRequests.PublishedIsLiveIff` | api/core/workflows_services.py:59-60 | a published state is live exactly from its own time on, or from the commit on if that is later or it has none |
| `ChangeRequests.CommitKeepsVersionsDistinct` | api/core/workflows_services.py:54-70 | versions stay distinct within lineages exactly if the request holds at most one state per lineage |
| `ChangeRequests.UnscheduledWins` | api/core/workflows_services.py:54-70 | an unscheduled published state is live and above all other states of its lineage, even on equal live_from |
| `ChangeRequests.ScheduledWaits` | api/core/workflows_services.py:54-70 | before its live_from a scheduled state changes no winner of its lineage |
| `ChangeRequests.ScheduledYieldsOnlyToLater` | api/features/models.py:571-600 | from the commit and its own time on it is live, and of the states there are it loses exactly to the live ones with a live_from later than its own time and the commit |
| `ChangeRequests.ChangeRequest.PublishFeatureStates` | api/core/workflows_services.py:54-70 | all the request's states are published with their times and next versions, or none if a lineage has no version yet |
| `ChangeRequests.ChangeRequest.Commit` | api/core/workflows_services.py:27-52 | both refusals change nothing; otherwise states are published and the request is stamped |
| `HashingSeeds.SupersededIsHighest` | api/features/models.py:781-806 | the superseded state is the latest of the lineage's live candidates, and found whenever there is one |
| `HashingSeeds.SupersededByColumns` | api/features/models.py:781-806 | in terms of the columns: of the live states of the same environment, feature and segment, the one with the latest live_from, and of those the highest version |
| `HashingSeeds.CloneValues` | api/features/models.py:703-710 | a clone's option values are the source's in id order, with ascending new ids |
| `HashingSeeds.CloneChoosesAlike` | api/features/models.py:675-712 | for every hash function and identity key, a clone falls on the same position as its source, and that position holds the same option |
| `FeatureTable.VersionsStayDistinct` | api/features/models.py:838-864 | over every run of creations, clones, commits and deletions, with the check for duplicates before every save: versions stay pairwise distinct within lineages throughout exactly if every commit, which writes past the check, publishes at most one state per lineage |
| `FeatureTable.RefusedIff` | api/features/models.py:838-864 | a row is refused exactly if its id is taken or a state of its environment, feature and override has its version |
| `FeatureTable.RemovedRow` | api/features/models.py:838-864 | a deletion takes the rows of its id and no other |
| `FeatureTable.CloneIsSavedIff` | api/features/models.py:838-864 | a clone of a versioned state in its own environment is saved exactly if it is a draft or is given a version that no state of the lineage has; a plain clone is refused |
| `FeatureTable.ClonedRow` | api/features/models.py:661-712 | every column of a saved clone |
| `FeatureTable.SeedIsConstant` | api/features/models.py:866-881 | over every such run, the bucketing seed of a lineage is constant throughout exactly if every state put into it is given the seed (as its salt, or as its id if nothing else seeds it), supersedes a live state, or is cloned within the lineage or from a state with the seed; commits and deletions never change it |
| `FeatureTable.RecreationKeepsSeedIff` | api/features/models.py:771-806 | a recreated state keeps the lineage's seed exactly if it is refused or a state of the lineage is live at that moment |
| `Bucketing.GetMultivariateOption` | api/features/models.py:808-836 | the loop returns the option in whose interval the percentage lies, and control if it lies in none |
| `Bucketing.FallsIsUnique` | api/features/models.py:825-831 | the intervals of the options do not overlap |
| `Bucketing.ControlGetsTheRest` | api/features/models.py:833-836 | control gets exactly the percentages from the sum of the allocations on |
| `Bucketing.LengthsAreAllocations` | api/features/models.py:820-831 | each option's interval is as long as its allocation exactly if the allocations sum to at most 100 |
| `Bucketing.IntervalsOfPercentages` | api/features/models.py:820-836 | for every list of allocations, over 100 or not: the option's interval starts where the allocations before it end, cut off at 100, and control has what is left at the top |
| `Bucketing.FirstOptionsAreStable` | api/features/models.py:825-831 | changing allocations after the first k options moves no identity that is bucketed in those |
| `ExpectedShares.ExpectedVariantShares` | api/experimentation/services.py:472-525 | the shares of the live environment default with the highest id; empty exactly if there is no such state, no option, an unkeyed option or over-allocation |
| `ExpectedShares.LatestDefaultSpec` | api/experimentation/services.py:478-493 | the state read is a live default, and no live default has a higher id |
| `ExpectedShares.LatestDefaultColumns` | api/experimentation/services.py:478-493 | that state in terms of the columns: of the environment and feature, no override, with a version, its time come, and no such one with a higher id |
| `ExpectedShares.SharesAre` | api/experimentation/services.py:495-525 | there are shares exactly if all options are keyed and allocate at most 100 together; each is its allocation in hundredths, and control's is the rest |
| `ExpectedShares.SharesSumToOne` | api/experimentation/services.py:495-525 | the shares sum to 1 exactly if no option with traffic carries control's own key |
| `ExpectedShares.SharesAreLengths` | api/experimentation/services.py:495-525 | for one list of options: every share is the length of that option's interval of hash percentages, and control's is the length of the rest |
| `TestedSplit.TestedIsServedIff` | api/experimentation/services.py:478-493 | the state the check reads is the one an identity is served exactly if the identity has no override for the feature and no live default with a lower id has a later live_from, or the same one and a higher version |
| `TestedSplit.TestedSplitIsServedSplit` | api/experimentation/services.py:472-525 | where that holds, every share that is tested against is the length of the interval identities get |
| `TestedSplit.SplitsCanDiffer` | api/experimentation/services.py:478-493 | a run of two commits, the first scheduled, after which the check tests against the options of a state that identities without overrides are not served, and the shares differ |
| `TestedSplit.CheckedIff` | api/experimentation/stats.py:95-103 | the floor on traffic aside, a p-value is computed exactly if control and every option have traffic, there is an option besides control, and some identity of an expected variant was counted |
| `TestedSplit.RolloutLeavesCheckIff` | api/experimentation/services.py:774-838 | the first rollout resets the served default to control; after it a p-value is computed exactly if one was before and some live default with a lower id is newer than the state the check reads |
| `TestedSplit.CohortIsNotTested` | api/experimentation/services.py:805-838 | an identity with a segment override for the feature, as a rollout's cohort has, is never served the default that is tested |
| `Rollouts.ValidateRolloutSpec` | api/experimentation/services.py:690-705 | a rollout is accepted exactly if its options are unique, of the feature and sum to at most 100, and each refusal names its reason |
| `Rollouts.LimitIsExact` | api/experimentation/services.py:701-705 | the limit of 100 is exactly what lets every option have all of its allocation |
| `Rollouts.ResetGivesControl` | api/experimentation/services.py:774-803 | whoever is served the reset default gets control, for every hash and in whatever order the options are |
| `Rollouts.ResetCoversOptions` | api/experimentation/services.py:774-803 | after the reset every option of the feature has exactly one row, which gives it nothing |
| `LabelSets.SameKeyIffSameLabels` | api/app_analytics/cache.py:49-54 | cache keys are equal exactly if the label dictionaries are, whatever order the labels were inserted in |
| `LabelSets.SortedIsSameMap` | api/app_analytics/cache.py:35-53 | the dictionary rebuilt from a key is the one that was tracked |
| `UsageCache.RequestsAreConserved` | api/app_analytics/cache.py:27-63 | at every point of every run, for each resource, host, environment and label dictionary: counts sent plus the cached count are the requests tracked |
| `UsageCache.SubjectsAreCachedOnce` | api/app_analytics/cache.py:49-59 | no subject is cached under two keys, so a flush sends at most one count for it |
| `UsageCache.APIUsageCache.Flush` | api/app_analytics/cache.py:27-40 | every cached count is sent, in order, and the cache is emptied and stamped |
| `UsageCache.APIUsageCache.TrackRequest` | api/app_analytics/cache.py:42-63 | the count goes up by one, and the cache is flushed exactly if the seconds part of its age is over the limit |
| `UsageCache.DueWithinADay` | api/app_analytics/cache.py:60-63 | within a day of the last flush a cache is due exactly from one second after the limit on |
| `UsageCache.DaysDoNotCount` | api/app_analytics/cache.py:60-63 | a whole number of days later it is due exactly if it was: days do not count towards the age |
| `UsageCache.OneGroupPerEnvironment` | api/app_analytics/mappers.py:195-218 | each environment has one group, holding what the cache has for it in order |
| `UsageCache.GroupingIsUndone` | api/app_analytics/mappers.py:195-218 | the rows written from all groups are the cached counts, each once |
| `UsageCache.EvaluationsAreConserved` | api/app_analytics/cache.py:72-102 | at every point of every run, for each feature, environment and label dictionary: counts in the rows of the flushed tasks plus the cached count are the evaluations tracked |
| `UsageCache.FeatureEvaluationCache.GroupByEnvironment` | api/app_analytics/mappers.py:195-218 | the grouping loop computes the groups |
| `UsageCache.FeatureEvaluationCache.TrackFeatureEvaluation` | api/app_analytics/cache.py:81-102 | the count goes up by the evaluations, and the cache is flushed exactly if the seconds part of its age is over the limit |
| `UsageRollup.StartIsAligned` | api/app_analytics/tasks.py:151-159 | with a bucket size that divides 60 the current bucket starts at a multiple of its width |
| `UsageRollup.SpansAddUp` | api/app_analytics/tasks.py:225-241 | adjacent spans, open at their start and closed at their end, add up |
| `UsageRollup.SpanSumIs` | api/app_analytics/tasks.py:225-241 | a span's sum is that of the counts of the key's rows later than its start and no later than its end |
| `UsageRollup.KeysInSpec` | api/app_analytics/tasks.py:235-241 | the aggregate lists every key that occurs in the span, once |
| `UsageRollup.RefusedIff` | api/app_analytics/models.py:77-92 | a bucket that is not there is refused exactly if one of its environment and subject that starts in its span has all of its label entries |
| `UsageRollup.OrderOfLabelsMatters` | api/app_analytics/models.py:77-92 | both orders of a bucket without labels and one with a label: the bare one is refused after the labelled one, and the labelled one is written after the bare one |
| `UsageRollup.NestedLabelsStopTheRun` | api/app_analytics/models.py:77-92 | a span cannot be written exactly if all label entries of some new key are among those of a bucket of its environment and subject that is there in the span or is written before it |
| `UsageRollup.IncomparableLabelsNeverFail` | api/app_analytics/models.py:77-92 | with label sets that are not contained in one another, the overlap check never stops a run |
| `UsageRollup.RunWrites` | api/app_analytics/tasks.py:180-197 | a run replaces exactly the buckets of its spans by the raw sums and keeps all others |
| `UsageRollup.Rollup.PopulateSpan` | api/app_analytics/tasks.py:186-197 | one span is written key by key; a refused key stops it with the keys before written |
| `UsageRollup.Rollup.Populate` | api/app_analytics/tasks.py:180-217 | the nested loops write all spans, newest first; oversized and zero bucket sizes and overlaps are the errors, and where an overlap leaves the buckets is stated |
| `UsageSchedule.StartsAreGridPoints` | api/app_analytics/tasks.py:162-177 | a run's spans are all the aligned spans of the stretch before the current bucket |
| `UsageSchedule.BucketsAreUpToDate` | api/app_analytics/tasks.py:180-217 | over every schedule, whenever rows are stored and runs are made: a bucket is there exactly if its key occurred when its span was last covered, and holds the sum of the rows stored by then |
| `UsageSchedule.CountedIffCovered` | api/app_analytics/tasks.py:162-197 | over every schedule: a row is counted exactly if some run after it was stored reached over its time, from run_every minutes before the current bucket to its start |
| `UsageSchedule.ScheduleKeepsInv` | api/app_analytics/tasks.py:180-217 | when rows are stored before the runs that cover them and runs are at most run_every apart, the buckets are exactly the raw sums of every aligned span covered |
| `UsageSchedule.BucketTotalsAreRawTotals` | api/app_analytics/tasks.py:220-265 | in such a schedule, per key, the buckets of the whole covered stretch add up to its raw rows |
| `UsageSchedule.CountedExactlyOnce` | api/app_analytics/tasks.py:220-265 | in such a schedule every raw row of the covered stretch lies in exactly one bucket of its key |
| `UsageSchedule.SpansEqualOrDisjoint` | api/app_analytics/tasks.py:162-177 | two aligned spans that share a time are the same |
| `UsageSchedule.RunIsIdempotent` | api/app_analytics/tasks.py:186-197 | running again changes nothing |
| `UsageSchedule.NextRunSucceeds` | api/app_analytics/tasks.py:180-217 | at any point of any schedule with incomparable label sets the next run succeeds |
| `SdkTables.BuildTables` | api/app_analytics/constants.py:133-141 | the nested loops fill both tables from the entries they visit, later ones overwriting |
| `SdkTables.NormaliseSpec` | api/app_analytics/mappers.py:31-37 | a known version of a known SDK stays as it is, any other version of it becomes `unknown`, and an unknown SDK is dropped |
| `SdkTables.TablesAreInversesIff` | api/app_analytics/constants.py:133-141 | with non-overlapping id ranges, the tables are mutual inverses exactly if no SDK lists a version twice |
| `SdkTables.NormaliseIsIdempotent` | api/app_analytics/mappers.py:31-37 | normalising a user agent twice is normalising it once |
| `SdkTables.NormalisedHasId` | api/app_analytics/mappers.py:31-37 | every user agent that normalisation lets through has an id |
| `SdkTables.NormalisedIffTabled` | api/app_analytics/mappers.py:31-37 | the user agents with an id are exactly those that normalisation leaves alone |
| `SdkTables.MapLabelsToRecordValues` | api/app_analytics/mappers.py:64-72 | the loop copies labels and replaces a known user agent by its id |
| `SdkTables.MapRecordValuesToLabels` | api/app_analytics/mappers.py:75-89 | the loop reads labels back, dropping empty values and ids without a user agent |
| `SdkTables.LabelIff` | api/app_analytics/mappers.py:75-89 | a value comes back as a label exactly if it is there and neither empty nor 0, and a user agent exactly if it is an integer with an entry, whose text comes back |
| `SdkTables.RoundTripIff` | api/app_analytics/mappers.py:64-89 | labels to record values and back is the identity exactly if all values are non-empty and the user agent is a known one |
| `SdkTables.ShippedTables` | api/app_analytics/constants.py:21-130 | for the versions and ids in the code: the tables are mutual inverses and normalised user agents are those with an id |
| `ResultsQuery.IdentifiersSpec` | api/experimentation/results_query.py:28-42 | the exposures list every exposed identity once |
| `ResultsQuery.JoinKeys` | api/experimentation/results_query.py:53-58 | the joined rows group into exactly the identities that are not quarantined: the left join drops and duplicates none |
| `ResultsQuery.JoinRows` | api/experimentation/results_query.py:129-140 | each identity's group holds the rows its own exposure joined and no others |
| `ResultsQuery.MatchesAreAttributed` | api/experimentation/results_query.py:76-83 | the filter on metric events changes no count and no sum |
| `ResultsQuery.UnmatchedCountsNothingIff` | api/experimentation/results_query.py:85-100 | an identity without events counts as nothing exactly if the metric's event is named or its first exposure is after the epoch |
| `ResultsQuery.QueryIsPerIdentity` | api/experimentation/results_query.py:122-145 | per variant and metric, the query's n, sum and sum of squares are those of the values each identity of the variant has on its own |
| `RowTotals.VariantIff` | api/experimentation/results_query.py:26-42 | who is in a variant, in terms of the columns: some row of the environment with the exposure event, for the feature and in the window, shows the identity that value, and all such rows do |
| `RowTotals.SizeIsNumberOfIdentities` | api/experimentation/results_query.py:141-145 | the query's n of a variant is the number of those identities |
| `RowTotals.AfterFirstIff` | api/experimentation/results_query.py:76-83 | a time is not before an identity's first exposure exactly if some row had exposed it by then |
| `RowTotals.CountsIff` | api/experimentation/results_query.py:76-83 | which rows count for a metric and a variant, in terms of the columns: the metric's event in the environment and the window, of an identity of the variant that some row had exposed by then |
| `RowTotals.TotalsAreRowSums` | api/experimentation/results_query.py:85-105 | the sum of a count metric is the number of those rows, and that of a sum metric the sum of their numbers, each row once |
| `RowTotals.OtherRowsDoNotMatter` | api/experimentation/results_query.py:26-58 | a row that fails one of the conditions on exposures and one of those on the metric's events changes no statistic |
| `ResultsQuery.QueryVariance` | api/experimentation/stats.py:38-42 | the spread computed from the query's totals is the sample variance of those values |
| `ExposureCounts.VariantIsOnlyValue` | api/experimentation/results_query.py:32-33 | an identity counts for a variant exactly if that is the only value it was exposed to |
| `ExposureCounts.ExposureIgnoresCopies` | api/experimentation/results_query.py:28-42 | variant, quarantine flag and first exposure depend only on which rows there are, not on order or copies |
| `ExposureCounts.OccurrenceCountsIdentities` | api/experimentation/results_query.py:89-90 | an occurrence metric counts sets of identities: n is the size of the variant and sum and sum of squares are the number of its identities with an event, at most n |
| `ExposureCounts.CopiesDoNotMatter` | api/experimentation/results_query.py:26-42 | copies and reorderings of rows change neither n nor an occurrence metric |
| `ExposureCounts.CopyRaisesCountIff` | api/experimentation/warehouse_delivery_service.py:232-235 | what a redelivered row does to a count metric: it goes up by one exactly if the row is attributed to the identity |
| `Redelivery.CopiesChangeTotals` | api/experimentation/warehouse_delivery_service.py:232-235 | copies of any number of rows leave the number of identities of a variant as it is, and change its sum by the sum of the changes of its identities' values |
| `Redelivery.CopiesKeepTotalsIff` | api/experimentation/warehouse_delivery_service.py:232-235 | for occurrences, counts, sums of numbers that are not negative, and for any metric if the copies are of one identity: the totals of a variant stay exactly if none of its identities notices the copies; counts notice any, sums those that do not sum to 0, means those with another mean, occurrences none |
| `Redelivery.UnnoticedKeepsTotals` | api/experimentation/warehouse_delivery_service.py:232-235 | for any metric, copies that no identity of the variant notices change no total |
| `Redelivery.CountsAreKeptIff` | api/experimentation/warehouse_delivery_service.py:232-235 | a count metric is unchanged exactly if no copied row counts for an identity of the variant |
| `Redelivery.CopyCanChangeTotals` | api/experimentation/warehouse_delivery_service.py:232-235 | one table and one copied row that change the totals of a count, of a sum and of a mean |
| `Redelivery.ChangesCanCancel` | api/experimentation/warehouse_delivery_service.py:232-235 | one table and two copied rows, one with a negative number, where two identities' sums change and the totals do not |
| `ExposureBuckets.TimeseriesPoints` | api/experimentation/services.py:314-328 | the points are the buckets of the rows that are not quarantined, in ascending order, each with its counts per variant |
| `ExposureBuckets.BucketsAddUp` | api/experimentation/services.py:260-272 | the bucket rows add up to the identities of each variant, and to the quarantined ones |
| `ExposureBuckets.BucketsAgreeWithQueries` | api/experimentation/services.py:298-311 | a variant's points add up to its n in the results query and in the count-only query, and the excluded identities are the quarantined ones |
| `ExposureSeries.PointsListRows` | api/experimentation/services.py:314-328 | a bucket has a point exactly if it has a row that is not quarantined, and a variant is in it exactly if it has a row there, with that row's count |
| `ExposureSeries.PointCountsFirstExposures` | api/experimentation/services.py:260-272 | a point counts the identities that were shown the variant and nothing else and whose earliest exposing row falls in the point's bucket |
| `ExposureSeries.ExcludedSawTwoValues` | api/experimentation/services.py:298-311 | the excluded identities are those that two exposing rows show different values |
| `ResultColumns.NamesDiffer` | api/experimentation/results_query.py:72-74 | no two of the query's columns share a name |
| `ResultColumns.DigitsDenote` | api/experimentation/results_query.py:68-74 | a slot's number is in its columns' names in decimal, without leading zeros |
| `ResultColumns.DecodingIgnoresColumnOrder` | api/experimentation/results_query.py:155-174 | decoding gives back the row for any order of the columns and any columns besides |
| `ResultColumns.DecodeRows` | api/experimentation/results_query.py:155-174 | the loops fill both dictionaries from the decoded rows, or fail if a column is missing |
| `ResultColumns.DecodedAt` | api/experimentation/results_query.py:165-174 | each row's statistics are found under its metric and its variant |
| `ResultColumns.DecodedKeys` | api/experimentation/results_query.py:163-174 | every metric has its dictionary, even without rows, and a variant is in it exactly if the result has a row for it |
| `Statistics.VarianceIsSampleVariance` | api/experimentation/stats.py:38-42 | the variance from the three totals is the sum of squared deviations over n-1, is not negative before the cut-off, and n times the sum of squares is at least the square of the sum |
| `Statistics.NoSpreadIffConstant` | api/experimentation/stats.py:38-42 | it is zero exactly if all values equal their mean |
| `Statistics.StatsScale` | api/experimentation/stats.py:20-32 | values in another unit have the totals scaled by the unit and its square |
| `Statistics.ComparisonIsScaleFree` | api/experimentation/stats.py:53-84 | the whole comparison, lift, interval and chance to win, is the same in any unit |
| `Statistics.ComparedIff` | api/experimentation/stats.py:53-62 | there is a comparison exactly if both arms have two identities and control's total is positive |
| `Statistics.ComparisonIs` | api/experimentation/stats.py:60-84 | what it is: with v the variance whose root is taken, v times the square of control's mean is the treatment's variance over its own n plus control's over its own n times the square of one plus the lift; the interval is centred on the lift, 1.96 standard errors wide to each side |
| `Statistics.ChanceFollowsMeans` | api/experimentation/stats.py:70-84 | for an increasing distribution function with value 1/2 at 0, the chance to win is above 1/2 exactly if the treatment's mean is higher |
| `SampleRatio.StatisticIsRatios` | api/experimentation/stats.py:104-107 | with shares that sum to 1 the statistic is the sum of O squared over E less N |
| `SampleRatio.StatisticSpec` | api/experimentation/stats.py:104-107 | the statistic is never negative, and zero exactly if every count is as expected |
| `SampleRatio.ChiSquaredSurvival` | api/experimentation/stats.py:111-130 | the loop terminates with a = df/2 and returns Q(df/2, y) of the stated recurrence, for odd and even degrees of freedom |
| `SampleRatio.SurvivalIsPoisson` | api/experimentation/stats.py:111-130 | with an even number 2k of degrees of freedom, and by the laws of `exp`, `log` and `lgamma`, it is the chance of fewer than k events of a Poisson distribution with mean y |
| `SampleRatio.SurvivalStep` | api/experimentation/stats.py:118-130 | with any number, two more degrees add y^a e^-y / Gamma(a + 1) for a half of them, from erfc(sqrt y) and e^-y on |
| `SampleRatio.SrmPValue` | api/experimentation/stats.py:87-108 | meaningless, an error for lists of different length, or the survival of the statistic, in that order |
| `SampleRatio.CheckedIff` | api/experimentation/stats.py:95-103 | a p-value is computed exactly on two or more lists of one length with some traffic and no share of zero or less |
| `SampleRatio.PValueSpec` | api/experimentation/stats.py:98-115 | the p-value is 1 if the split is exactly as configured, and else the survival of a positive statistic |
| `ResultsSummary.CheckRatio` | api/experimentation/services.py:412-420 | the check runs on the expected variants' counts in the order of the shares, and is skipped without shares or below 100 identities |
| `ResultsSummary.CountOfIs` | api/experimentation/services.py:414-416 | a variant's count is the one the dictionary has for it, and 0 if it has none |
| `ResultsSummary.AllCountsAdd` | api/experimentation/services.py:412-413 | the total is that of all counts of the dictionary |
| `ResultsSummary.InferenceShownIff` | api/experimentation/services.py:540-558 | an inference is shown exactly if control is there, both arms have 50 identities and, for an occurrence metric, five conversions, and control's total is positive |
| `ResultsSummary.ShownInference` | api/experimentation/services.py:559-563 | what is shown is the comparison with control, with the chance to win turned round if lower is better, so that it is above 1/2 exactly if the treatment's mean is on the better side |
| `ResultsSummary.LowerIsBetterFlips` | api/experimentation/services.py:559-563 | for a lower-is-better metric the chance to win is that of the opposite lift, with lift and interval unchanged |
| `ExperimentLifecycle.TimestampsAndPayloads` | api/experimentation/models.py:232-243 | over every run of transitions and requests, taken as single steps, and any number of overlapping tasks, statement by statement: started_at is set exactly after CREATED, ended_at exactly in COMPLETED, and a payload is the one for the window from started_at to as_of; when final, as_of is ended_at exactly if the task did not read the running experiment and take its time after the end |
| `ExperimentLifecycle.TimestampsNeverChange` | api/experimentation/services.py:628-648 | timestamps that are set stay, and a completed experiment stays as it is |
| `ExperimentLifecycle.OnlySuccessChangesThePayload` | api/experimentation/models.py:239-251 | failures, requests and transitions keep the last good payload and its time |
| `ExperimentLifecycle.FrozenIffIdle` | api/experimentation/tasks.py:168-204 | a final computation is safe in every future exactly if no task on it is past its check or has fetched a row that will pass it |
| `ExperimentLifecycle.LateTaskUnfreezes` | api/experimentation/tasks.py:179-204 | a task that records on a final computation leaves it final exactly if its window ends no earlier than the experiment |
| `ExperimentLifecycle.SomeRunUnfreezes` | api/experimentation/tasks.py:168-204 | a run of two overlapping tasks in which a final computation is replaced by an earlier one |
| `ExperimentLifecycle.SomeRunFreezesPastTheEnd` | api/experimentation/tasks.py:168-204 | a run of one task that reads the running experiment and takes its time after the end: a window that reaches past the end is frozen |
| `ExperimentLifecycle.OneTaskAtATime` | api/experimentation/tasks.py:168-241 | with tasks one at a time a computation's time never decreases, it never ends after the experiment, and once final it never changes |
| `ExperimentLifecycle.FinalIsWholeWindow` | api/experimentation/tasks.py:168-241 | with tasks one at a time final means that as_of is ended_at |
| `ExperimentLifecycle.TransitionStep` | api/experimentation/services.py:628-648 | in the system too, exactly the five transitions of the table happen, stamping the first start and the completion |
| `ExperimentLifecycle.RequestStep` | api/experimentation/views.py:509-582 | and a refresh request is noted exactly if the experiment has started, the row is not final and the last request is old enough |
| `ExperimentLifecycle.TaskIsPerform` | api/experimentation/tasks.py:168-204 | a whole task run on its own has in the system the effect it has on its row |
| `ExperimentLifecycle.ComputeTask` | api/experimentation/tasks.py:168-241 | an experiment that has not started and a final row are left alone; else the window up to ended_at or now is recorded, or the failure |
| `ExperimentLifecycle.Refresh` | api/experimentation/views.py:509-582 | a refresh request is accepted exactly if the experiment started, the row is not final and the last request is old enough, and each refusal names its reason |
| `ExperimentLifecycle.Experiment.Transition` | api/experimentation/services.py:628-648 | exactly the five transitions of the table happen; the first start and the completion are stamped, and nothing else changes |
| `ExperimentLifecycle.Computation.RecordRefresh` | api/experimentation/models.py:239-243 | payload and time are replaced and the error cleared, nothing else |
| `ExperimentLifecycle.Computation.RecordFailure` | api/experimentation/models.py:245-247 | only the time of the last error changes |
| `ExperimentLifecycle.Computation.RecordRefreshRequest` | api/experimentation/models.py:249-251 | only the time of the last request changes |

## Left out

- Services outside the process: S3, ClickHouse, Redis, DynamoDB and Influx appear only as maps, answers and lists of calls. An S3 listing comes back complete and sorted.
- Expiry: event objects expire in their bucket 30 days after they arrive (api/experimentation/ingestion_infra_service.py:120-132), also under `archive/` and `failed/`. The delivery protocol has no expiry; `NoEventObjectIsLost` speaks of what the workers do.
- Names of event objects are taken to be fresh: the pipeline never writes the same key twice.
- Version 2 versioning: environment feature versions, their publishing and scheduled change sets, and the segments of a change request.
- Segment evaluation and `FeatureSegment.update_priorities`: which segments an identity is in is given.
- Soft-deleted rows: the lists of feature states are those that are not deleted.
- Clones of feature states do not run the hooks of creation alone, because the copy's `_state.adding` stays false: the model's clones neither inherit a salt nor are given a `live_from`. They meet the check for duplicates, which also runs before every save (api/features/models.py:838-839). A clone's new segment row in another environment is given. Saves of rows that exist already are not modelled.
- Hashing: the hash of seed and identity key into percentages is an arbitrary function.
- Floating point: `erfc`, `lgamma`, `exp`, `log`, `sqrt` and the normal distribution are arbitrary functions, and all numbers are real. Where a lemma needs a law of one of them, the law is among its premises.
- Roll-ups with `source_bucket_size`: their filter over bucket start times does not line up with that over raw rows.
- UsageSchedule.BucketTotalsAreRawTotals: for schedules with rows in time and no gaps between runs, as `UsageSchedule.CountedExactlyOnce`; `UsageSchedule.CountedIffCovered` says what is counted in any other. A run that an overlap stops is not part of a schedule.
- UsageRollup.Rollup.Populate: when a run stops at an overlap, the spans written are stated for one order of the keys within a span, because the query that lists them has none.
- Retention: the clean-ups of raw rows, buckets and delivery logs.
- Prompt flushing of the caches: the age is compared by `timedelta.seconds`, which starts again every day (`UsageCache.DaysDoNotCount`), and only when something is tracked.
- Downstream of a flush: a flushed count for an environment that is gone is dropped by the task that receives it. Locks and threads are modelled by atomic calls.
- CohortLedger.LedgerTellsTheTruth: assumes one applier at a time, because the code needs it; `CohortCounts.TwoAppliersCanLeaveATrait` is the run that shows it.
- Throttling of the trait store aborts a task as a crash does, and the retry is a new start.
- ResultsQuery.AnyValue: `any(value)` is the value of the first row, because any choice is the same when there is one value and unused when there are more.
- The queries are modelled from their text. Columns are never null, an unmatched row of the join has the default values of the column types, and `toFloat64OrZero` is an arbitrary function.
- The order of bucket rows within a bucket, the choice between hourly and daily buckets, and the format of times in payloads.
- Status transitions and refresh requests are single steps. The code checks an instance it read before and then saves it (api/experimentation/services.py:628-648), so two that overlap could both pass.
- The computation of a summary is given by its outcome and its window; the rows it reads may change between two computations of the same window.
- Monte Carlo simulation in `app_analytics/experiments.py`, billing periods and usage charts.
- Permissions, serializers, audit logs, webhooks, metrics other than the cohort counts, the user interface, imports and exports.
