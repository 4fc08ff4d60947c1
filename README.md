# Model registry, A/B experiments and score normalization of auto-grader

This project models three parts of the auto-grader's machine-learning back end:

- **The model registry** (`ModelManager`). It keeps the versions of each model type, newest first. It also records which version of each type is active, and the active-version marker file that names it.
- **The A/B experiment engine** (`ABTestManager`). It runs two-arm tests between two registered versions, keeps running statistics per arm and metric, and freezes them when a test ends. It then picks a winner by the ±5% rule on the first tracked metric and can promote that winner to the active version.
- **The score normalizer** (`ScoreNormalizer`). It keeps running statistics of the grades added to it. It also has three list transforms: linear rescaling onto the normalizer's range, a mean-shifting curve with clamping, and percentile-based letter grading.

The modules:

- `Common`: option, result and error types.
- `Sorting`: Python's stable `sort`/`sorted` by a real key, as insertion sort from the left. `reverse=True` is the ascending sort by the negated key. Elements with equal keys keep their original order, as in Python, so `{'A': 90, 'A+': 90}` grades a percentile of 95 as `A`.
- `Metrics`: `difference` and `percent_change` with their infinite case.
- `Statistics`: sums, sums of squares and the mean/variance read off them.
- `Registry`: `ModelVersion` and the `ModelManager` class.
- `Experiments`: the test records and the `ABTestManager` class.
- `Scoring`: the `ScoreNormalizer` class and the functions that specify its transforms.

Each method that changes state is specified against a pure function of the old state. Those functions carry the lemmas: invariants preserved, order and membership of results, the winner rule, round trips of batched updates, and the meaning of a rank and a percentile.

How the model represents the source:

- Python floats are exact `real`s. Creation dates are integers, so newer means larger.
- A dictionary whose key order matters is a `map` plus a `seq` of its keys in insertion order.
- The clock, the file system and the marker files enter as parameters: the stamp, the ISO date, the found versions, and the marker file's content.

## Model

| member | source | states |
|---|---|---|
| Sorting.InsertAsc | backend/ml/utils/model_manager.py:472-478 | inserting one version adds exactly that element to the multiset of the list |
| Sorting.InsertAscSorted | backend/ml/utils/model_manager.py:472-478 | inserting into a list sorted by the key leaves it sorted |
| Sorting.SortAscSorted | backend/ml/utils/model_manager.py:164-169 | `sort(key=...)` yields a list in non-decreasing key order |
| Sorting.SortAscPermutes | backend/ml/utils/model_manager.py:164-169 | the sort returns the same elements with the same multiplicities |
| Sorting.SortedElement | backend/ml/utils/feedback_generator.py:508 | an element is in the sorted list exactly when it is in the input |
| Sorting.SortAscOfSorted | backend/ml/utils/model_manager.py:474-478 | a list already in key order is returned unchanged |
| Sorting.WithKeyAppend | backend/ml/utils/model_manager.py:164-169 | the elements with a given key of a concatenation are those of the first part followed by those of the second |
| Sorting.WithKeyInsert | backend/ml/utils/model_manager.py:472-478 | inserting into a sorted list puts the new element behind every element with the same key |
| Sorting.SortAscStable | backend/ml/utils/model_manager.py:164-169 | the sort is stable: for every key, the elements with that key come out in their input order |
| Sorting.SortAfterAppend | backend/ml/utils/model_manager.py:472-478 | appending to a sorted list and sorting again equals one insertion behind every element with a key not above its own |
| Metrics.PercentChange | backend/ml/utils/model_manager.py:406 | the change is infinite exactly when the base is not positive; otherwise change × base = (other − base) × 100 |
| Metrics.Compare | backend/ml/utils/model_manager.py:402-407 | difference is second − first; the percent change is finite exactly when the first value is positive |
| Metrics.PercentChangeThreshold | backend/ml/utils/model_manager.py:748-751 | for a positive base, the change exceeds t exactly when other × 100 > base × (100 + t), and is below −t exactly when other × 100 < base × (100 − t) |
| Statistics.Moments | backend/ml/utils/model_manager.py:704-714 | for a positive count: mean × count = sum, and the clamped variance is never negative |
| Statistics.DeviationsExpand | backend/ml/utils/model_manager.py:708 | the sum of squared deviations from m equals Σx² − 2m·Σx + n·m² |
| Statistics.VarianceOfSamples | backend/ml/utils/model_manager.py:704-709 | the variance read off the sums of a non-empty list, times its length, is the sum of squared deviations from its mean, so the clamp at zero never fires |
| Statistics.SumsAppend | backend/ml/utils/feedback_generator.py:399-401 | the running sum and sum of squares fold over an appended sample |
| Statistics.MeanBounds | backend/ml/utils/model_manager.py:706 | the mean of samples lying in [lo, hi] lies in [lo, hi] |
| Registry.MetricValue | backend/ml/utils/model_manager.py:89-103 | a non-zero metric comes from the metadata's metrics when the metadata has them, else from the metrics file |
| Registry.MetadataShadowsMetricsFile | backend/ml/utils/model_manager.py:91-95 | once the metadata has a metrics entry, the metrics file is never consulted; a metric missing there reads 0 |
| Registry.FirstIndex | backend/ml/utils/model_manager.py:218-219 | the result is the first position with that id; none means no version has it |
| Registry.LastIndex | backend/ml/utils/model_manager.py:380-384 | the result is the last position with that id; none means no version has it |
| Registry.FindFirst | backend/ml/utils/model_manager.py:307-308 | the search loop with `break` returns the first index of the id |
| Registry.RemoveAtKeeps | backend/ml/utils/model_manager.py:320 | deleting one entry keeps every other version |
| Registry.RemoveAtSorted | backend/ml/utils/model_manager.py:320 | deleting one entry keeps the list newest first |
| Registry.RemoveAtElement | backend/ml/utils/model_manager.py:320 | deleting adds no version |
| Registry.InsertKeepsGroup | backend/ml/utils/model_manager.py:469-478 | registering into a type's newest-first list keeps it newest first, of that type, and keeps every old version |
| Registry.RegisterKeepsInvariant | backend/ml/utils/model_manager.py:469-478 | registration preserves the grouping invariant (keys match key order, distinct keys, each list newest first and of its type) and keeps every active version registered |
| Registry.DeleteKeepsInvariant | backend/ml/utils/model_manager.py:307-323 | deleting a non-active version preserves the grouping invariant and keeps every active version registered |
| Registry.Resolve | backend/ml/utils/model_manager.py:187-199 | a type with versions always resolves to one of its versions; a type with none resolves to nothing |
| Registry.ResolveAll | backend/ml/utils/model_manager.py:176-199 | exactly the types with versions get an active version, and it is one of theirs |
| Registry.DefaultIsNewest | backend/ml/utils/model_manager.py:196-199 | without a valid marker entry the active version is the first and newest of the type's versions |
| Registry.ExplicitPointerWins | backend/ml/utils/model_manager.py:187-192 | a marker entry naming an existing version makes the first version with that id active |
| Registry.ExplicitStep | backend/ml/utils/model_manager.py:187-192 | one marker entry of the first loop adds its type exactly when its version exists |
| Registry.DefaultStep | backend/ml/utils/model_manager.py:197-199 | one type of the second loop gets its newest version exactly when it has none yet and has versions |
| Registry.DefaultDone | backend/ml/utils/model_manager.py:176-199 | after both loops the chosen map is the resolved active map |
| Registry.OfType | backend/ml/utils/model_manager.py:143-159 | the versions collected for a type are found versions of that type |
| Registry.TypesIn | backend/ml/utils/model_manager.py:156-157 | every found version's type is a key |
| Registry.OfTypeAbsent | backend/ml/utils/model_manager.py:156-157 | a type without found versions has no list |
| Registry.TypeOrder | backend/ml/utils/model_manager.py:156-157 | the dictionary's key order lists each found type exactly once |
| Registry.GroupStep | backend/ml/utils/model_manager.py:156-159 | appending one found version keeps the dictionary grouped by type and adds the type to the key order exactly when it is new |
| Registry.GroupsAreByType | backend/ml/utils/model_manager.py:143-159 | the grouping loop leaves each type's found versions in directory order |
| Registry.SortStep | backend/ml/utils/model_manager.py:165-169 | sorting one more type's list moves that type from unsorted to sorted |
| Registry.SortedExceptNothing | backend/ml/utils/model_manager.py:165-169 | after every list is sorted the dictionary is the loaded grouping |
| Registry.Grouped | backend/ml/utils/model_manager.py:137-169 | the loaded dictionary has exactly the found types as keys |
| Registry.GroupedWellFormed | backend/ml/utils/model_manager.py:164-169 | each loaded list is newest first and holds only versions of its type |
| Registry.GroupedInvariant | backend/ml/utils/model_manager.py:132-169 | the loaded registry satisfies the grouping invariant |
| Registry.DefaultActiveScenario | backend/ml/utils/model_manager.py:164-199 | two versions of one type and no marker: the later one becomes active |
| Registry.ScenarioGrouped | backend/ml/utils/model_manager.py:143-169 | two versions of one type load as a single list, the later one first |
| Registry.ScenarioTypes | backend/ml/utils/model_manager.py:156-157 | two versions of one type give one key |
| Registry.ScenarioOfType | backend/ml/utils/model_manager.py:159 | two versions of one type are collected in directory order |
| Registry.ScenarioSorted | backend/ml/utils/model_manager.py:166-169 | newest-first sorting swaps an older-then-newer pair |
| Registry.ListingOf | backend/ml/utils/model_manager.py:274-277 | one entry per version, in order, flagged active exactly when it is the type's active version |
| Registry.ListingFlagsActive | backend/ml/utils/model_manager.py:272-277 | some entry is flagged active exactly when the type has an active version, and only that version is flagged |
| Registry.HistoryOf | backend/ml/utils/model_manager.py:346-357 | the history is no longer than the list of versions |
| Registry.HistoryContents | backend/ml/utils/model_manager.py:346-357 | the history holds a data point exactly for each version with metrics |
| Registry.HistoryChronological | backend/ml/utils/model_manager.py:346 | when the versions are in creation order, the history is in creation order |
| Registry.ModelManager.Load | backend/ml/utils/model_manager.py:120-172 | loading groups the found versions by type, each list newest first, keeps the key order of first appearance, and resolves the active versions; the invariant holds |
| Registry.ModelManager.GroupByType | backend/ml/utils/model_manager.py:143-159 | the loop builds the grouping of the found versions and its key order |
| Registry.ModelManager.SortGroups | backend/ml/utils/model_manager.py:164-169 | the loop sorts every type's list newest first |
| Registry.ModelManager.DetermineActiveVersions | backend/ml/utils/model_manager.py:176-199 | the active map becomes the resolved map: the marker's version where it exists, else the newest; the invariant holds |
| Registry.ModelManager.GetActiveVersion | backend/ml/utils/model_manager.py:245-255 | none exactly when the type has no active version; otherwise a registered version of that type |
| Registry.ModelManager.SetActiveVersion | backend/ml/utils/model_manager.py:201-243 | succeeds exactly when the type and the id exist; then the first version with the id is active and the marker names it; on failure nothing changes |
| Registry.ModelManager.DeleteVersion | backend/ml/utils/model_manager.py:290-329 | succeeds exactly when the type and id exist and the id is not the active version's; then only the first version with the id is removed; on failure nothing changes |
| Registry.ModelManager.RegisterExternalModel | backend/ml/utils/model_manager.py:421-485 | the new version has id "v" + stamp and is inserted behind every version at least as new; a new type is appended to the key order; the active map is untouched; the invariant holds |
| Registry.ModelManager.ListVersions | backend/ml/utils/model_manager.py:257-288 | a given type lists its versions in order with active flags, an unknown type lists nothing, no type lists every type in key order |
| Registry.ModelManager.ListOne | backend/ml/utils/model_manager.py:274-277 | the inner loop yields the listing of one type |
| Registry.ModelManager.GetModelPerformanceHistory | backend/ml/utils/model_manager.py:331-359 | an unknown type gives an empty history; otherwise the history of the versions sorted oldest first |
| Registry.ModelManager.CollectHistory | backend/ml/utils/model_manager.py:346-357 | the loop skips versions without metrics and keeps the order |
| Registry.ModelManager.CompareVersions | backend/ml/utils/model_manager.py:361-419 | an unknown type is an error; the result is a comparison of the last versions with each id exactly when both exist and differ, otherwise "version1 not found" or "version2 not found" in that priority |
| Experiments.ScanFinds | backend/ml/utils/model_manager.py:546-553 | the first flag is set exactly when version a is registered; the second exactly when b is registered and differs from a |
| Experiments.CreateAccepts | backend/ml/utils/model_manager.py:542-559 | a test is accepted exactly when the type exists, both versions exist and they differ; the same version twice is refused |
| Experiments.NewTest | backend/ml/utils/model_manager.py:561-588 | a new test is running, has no end date, no final metrics, no samples, and at least one tracked metric |
| Experiments.AddSamplesSplit | backend/ml/utils/model_manager.py:672-676 | adding a value with count a then count b equals adding it once with count a + b |
| Experiments.RecordedSplits | backend/ml/utils/model_manager.py:660-676 | two updates of an arm with the same metrics combine into one update with the summed sample count |
| Experiments.BatchIsRepeatedUnits | backend/ml/utils/model_manager.py:660-676 | an update with sample count n ≥ 1 equals n updates with sample count 1 |
| Experiments.ZeroBatch | backend/ml/utils/model_manager.py:664-670 | an update with sample count 0 changes the arm exactly when it reports a metric the arm has not seen |
| Experiments.RecordSample | backend/ml/utils/model_manager.py:672-676 | one unit update turns the sums of a sample list into the sums of the list with the sample appended |
| Experiments.Summarize | backend/ml/utils/model_manager.py:704-714 | mean × count = sum and the variance is never negative |
| Experiments.SummaryVariance | backend/ml/utils/model_manager.py:704-709 | the summarized variance of unit samples, times their count, is the sum of their squared deviations from the summarized mean |
| Experiments.SummaryMeanBounds | backend/ml/utils/model_manager.py:704-706 | the summarized mean of samples in [lo, hi] lies in [lo, hi] |
| Experiments.SummaryOfConstant | backend/ml/utils/model_manager.py:706-709 | n equal samples v summarize to mean v and variance 0 |
| Experiments.NoPrimaryNoWinner | backend/ml/utils/model_manager.py:744-752 | without samples of the first tracked metric in both arms there is no winner |
| Experiments.WinnerRule | backend/ml/utils/model_manager.py:744-752 | B wins exactly when A's mean is not positive or B's mean is over 5% higher; A wins exactly when A's mean is positive and B's is over 5% lower |
| Experiments.WinnerIgnoresOtherMetrics | backend/ml/utils/model_manager.py:744-752 | the winner depends only on the first tracked metric's sums in the two arms |
| Experiments.ClearImprovementScenario | backend/ml/utils/model_manager.py:748-749 | mean 0.70 against 0.78 makes B the winner |
| Experiments.SmallChangeScenario | backend/ml/utils/model_manager.py:748-751 | mean 0.75 against 0.76 gives no winner |
| Experiments.EndedResultsFrozen | backend/ml/utils/model_manager.py:753-761 | after ending, the results are the frozen final metrics computed from the statistics just before, which equal the summaries then shown |
| Experiments.PromoteAfterEnd | backend/ml/utils/model_manager.py:864-871 | an ended test has a version to promote exactly when it has a winner, and it is the winning arm's version |
| Experiments.RecordArmSplits | backend/ml/utils/model_manager.py:651-676 | two updates of the same arm combine into one, and status, tracked metrics and final metrics are unchanged |
| Experiments.ListingMembers | backend/ml/utils/model_manager.py:619-620 | a test is listed exactly when it is in the table and has the requested status |
| Experiments.ListingUnfiltered | backend/ml/utils/model_manager.py:621 | without a filter every test is listed, in table order |
| Experiments.InsertionOrderPut | backend/ml/utils/model_manager.py:591 | storing a test keeps the key order an exact, duplicate-free list of the keys |
| Experiments.ListingLength | backend/ml/utils/model_manager.py:609-621 | the key order has as many entries as the table |
| Experiments.ABTestManager.constructor | backend/ml/utils/model_manager.py:491-510 | the manager starts with the stored table and its key order |
| Experiments.ABTestManager.CreateTest | backend/ml/utils/model_manager.py:521-595 | fails with the validation error and changes nothing, or stores the new running test under "test_" + stamp and returns it |
| Experiments.ABTestManager.GetTest | backend/ml/utils/model_manager.py:597-607 | the stored test, or "test not found" exactly when the id is unknown |
| Experiments.ABTestManager.ListTests | backend/ml/utils/model_manager.py:609-621 | a listing no longer than the table |
| Experiments.ABTestManager.UpdateTestMetrics | backend/ml/utils/model_manager.py:623-679 | succeeds exactly when the test exists, is running and the version is one of its arms; then only that arm is updated; otherwise nothing changes |
| Experiments.ABTestManager.RecordAll | backend/ml/utils/model_manager.py:661-676 | the loop over the reported metrics performs one arm update |
| Experiments.ABTestManager.EndTest | backend/ml/utils/model_manager.py:681-766 | unknown and non-running tests are errors that change nothing; a running test is completed with its final metrics and winner |
| Experiments.ABTestManager.SummarizeArm | backend/ml/utils/model_manager.py:704-726 | the loop summarizes exactly the metrics with a positive count |
| Experiments.ABTestManager.CompareArms | backend/ml/utils/model_manager.py:732-742 | the loop compares exactly the tracked metrics summarized in both arms |
| Experiments.ABTestManager.GetTestResults | backend/ml/utils/model_manager.py:768-841 | an error exactly for an unknown id; a completed test shows its frozen final metrics, a running one its current summaries |
| Experiments.ABTestManager.PromoteWinner | backend/ml/utils/model_manager.py:843-879 | succeeds exactly when the test exists, is completed, has a winner, and the winning version is registered; then the first registered entry with the winning id becomes the type's active version, the marker names it, and no other type changes; otherwise nothing changes |
| Scoring.Lower | backend/ml/utils/feedback_generator.py:402 | the running minimum keeps the old value or takes the score, never exceeds the score, and never rises |
| Scoring.Upper | backend/ml/utils/feedback_generator.py:403 | the running maximum keeps the old value or takes the score, is never below the score, and never falls |
| Scoring.ExtremesAppend | backend/ml/utils/feedback_generator.py:402-403 | the running extremes of a list with a score appended are the running min and max with that score |
| Scoring.Min | backend/ml/utils/feedback_generator.py:438 | `min(scores)` is one of the scores and at most each of them |
| Scoring.Max | backend/ml/utils/feedback_generator.py:439 | `max(scores)` is one of the scores and at least each of them |
| Scoring.ScoreNormalizer.constructor | backend/ml/utils/feedback_generator.py:369-390 | the range and passing threshold as given (defaults 0, 10, 6), no scores, min +∞, max −∞ |
| Scoring.ScoreNormalizer.AddScore | backend/ml/utils/feedback_generator.py:392-403 | count, sum, sum of squares, min and max are updated by the score, and stay the statistics of all scores added |
| Scoring.ScoreNormalizer.GetStatistics | backend/ml/utils/feedback_generator.py:405-422 | the stored statistics, plus mean and variance 0 without scores, else mean × count = sum and a non-negative variance |
| Scoring.ScoreNormalizer.VarianceOfScores | backend/ml/utils/feedback_generator.py:414-417 | with scores added, the reported variance times the count is the sum of the scores' squared deviations from the reported mean |
| Scoring.ScoreNormalizer.MeanWithinExtremes | backend/ml/utils/feedback_generator.py:412-415 | with scores added, the reported mean lies between the reported min and max |
| Scoring.Normalized | backend/ml/utils/feedback_generator.py:434-451 | the result has one score per input score |
| Scoring.RescaleMonotone | backend/ml/utils/feedback_generator.py:448 | rescaling maps [lo, hi] into [low, high] and keeps order |
| Scoring.RescaleEnds | backend/ml/utils/feedback_generator.py:448 | the lowest score maps to the range minimum and the highest to the range maximum |
| Scoring.NormalizedRange | backend/ml/utils/feedback_generator.py:438-449 | every normalized score lies in the range, the top score maps to the maximum, the bottom one to the minimum when the scores differ, and order is kept |
| Scoring.NormalizedConstant | backend/ml/utils/feedback_generator.py:441-443 | equal scores all become the range maximum |
| Scoring.ScoreNormalizer.NormalizeScores | backend/ml/utils/feedback_generator.py:424-451 | the loop returns the normalized list |
| Scoring.Clamp | backend/ml/utils/feedback_generator.py:476 | never above the maximum, never below the minimum of a non-empty range, unchanged inside it |
| Scoring.ClampMonotone | backend/ml/utils/feedback_generator.py:476 | clamping keeps order |
| Scoring.Shifted | backend/ml/utils/feedback_generator.py:475-476 | one score per input, each within the range |
| Scoring.Curved | backend/ml/utils/feedback_generator.py:464-476 | one score per input, each within the range |
| Scoring.CurvedKeepsOrder | backend/ml/utils/feedback_generator.py:475-476 | curving keeps the order of scores |
| Scoring.SumShift | backend/ml/utils/feedback_generator.py:468-476 | shifting every score by c adds n × c to the sum |
| Scoring.ShiftedUnclamped | backend/ml/utils/feedback_generator.py:476 | when no shifted score leaves the range, each curved score is the score plus the shift |
| Scoring.CurvedHitsTarget | backend/ml/utils/feedback_generator.py:468-476 | when nothing is clamped, the curved scores have exactly the target mean |
| Scoring.ScoreNormalizer.ApplyCurve | backend/ml/utils/feedback_generator.py:453-478 | scores stay within the range; the target is passing threshold + 1 by default, else the given one |
| Scoring.ByThreshold | backend/ml/utils/feedback_generator.py:518 | the thresholds sorted highest first: the same entries as often as before, and entries with equal thresholds in their input order |
| Scoring.TiedThresholdsKeepOrder | backend/ml/utils/feedback_generator.py:518-521 | for `{'A': 90, 'A+': 90}` the order is kept and a percentile of 95 grades `A` |
| Scoring.LetterIsLargestReached | backend/ml/utils/feedback_generator.py:516-521 | "F" when no threshold is reached; otherwise the grade of a reached threshold at least as high as every reached one |
| Scoring.Percentile | backend/ml/utils/feedback_generator.py:514 | within [0, 100] for a rank in a list of two or more; 100 for a list of one |
| Scoring.PercentileMonotone | backend/ml/utils/feedback_generator.py:514 | a higher rank never gives a lower percentile |
| Scoring.ZeroPercentile | backend/ml/utils/feedback_generator.py:514 | rank 0 in a list of two or more is percentile 0 |
| Scoring.FullPercentile | backend/ml/utils/feedback_generator.py:514 | the last rank in a list of two or more is percentile 100 |
| Scoring.IndexOf | backend/ml/utils/feedback_generator.py:513 | `list.index` returns the first position holding the value |
| Scoring.CountBelowPermutation | backend/ml/utils/feedback_generator.py:508 | sorting does not change how many scores lie below a value |
| Scoring.SortedIndexIsCount | backend/ml/utils/feedback_generator.py:513 | in a sorted list the first position of a value is the count of smaller values |
| Scoring.RankIsCountBelow | backend/ml/utils/feedback_generator.py:508-513 | a score's rank is the number of scores strictly below it, so equal scores share a rank |
| Scoring.MinRank | backend/ml/utils/feedback_generator.py:513 | the smallest score has rank 0 |
| Scoring.UniqueMaxRank | backend/ml/utils/feedback_generator.py:513 | a strictly largest score has the last rank |
| Scoring.HigherScoreHigherPercentile | backend/ml/utils/feedback_generator.py:513-514 | a higher score never gets a lower percentile |
| Scoring.DefaultsOrdered | backend/ml/utils/feedback_generator.py:498-505 | the default thresholds are already in descending order |
| Scoring.DefaultLetters | backend/ml/utils/feedback_generator.py:498-521 | with the defaults, percentile 0 grades "F" and percentile 100 grades "A" |
| Scoring.DefaultExtremeGrades | backend/ml/utils/feedback_generator.py:498-521 | with the defaults and two or more scores, the lowest score gets "F" and a strictly highest one gets "A" |
| Scoring.Grades | backend/ml/utils/feedback_generator.py:511-523 | one graded pair per input score |
| Scoring.GradesKeepScores | backend/ml/utils/feedback_generator.py:523 | the graded pairs carry the input scores in order |
| Scoring.NothingToGrade | backend/ml/utils/feedback_generator.py:494-495 | no scores give no grades |
| Scoring.RankInSorted | backend/ml/utils/feedback_generator.py:508-513 | a score is found in the sorted list, at its rank |
| Scoring.GradeStep | backend/ml/utils/feedback_generator.py:523 | appending the next graded pair extends the prefix of the result |
| Scoring.ScoreNormalizer.ApplyPercentileBasedGrading | backend/ml/utils/feedback_generator.py:480-525 | the result grades each score by the thresholds sorted highest first (the defaults when none are given) at its percentile |
| Scoring.ScoreNormalizer.GradeEach | backend/ml/utils/feedback_generator.py:511-523 | the loop grades every score in input order |
| Scoring.ScoreNormalizer.GradeScore | backend/ml/utils/feedback_generator.py:512-521 | the letter of the first threshold reached by the score's percentile, else "F" |

## Left out

- Files and directories are not modelled: model directories, metadata and metrics files, the marker file, and `ab_tests.json` with its load and save. The file contents enter as parameters: the found versions, the marker map and the stored table. Copying model files is left out too.
- Directory-name parsing (`name.split('_v')`, the version id taken from the path) and skipping directories whose metadata did not load. The found versions are the ones that loaded.
- Error paths caused by I/O exceptions are left out: a failed `rmtree`, an unreadable marker, a failed write.
- The clock: `datetime.now()` enters as the stamp and ISO strings given to the methods. A creation date is an integer, and the fallback to the file's creation time is not modelled.
- Python floats are modelled as exact reals, without rounding, NaN, or infinities in scores.
- Scoring.ScoreNormalizer.GetStatistics: reports the variance, not its square root (`np.sqrt` is not modelled).
- Experiments.Summarize: reports the variance, not its square root (`np.sqrt` is not modelled).
- `to_dict` and the result dictionaries are datatypes. Their key names and copying are not modelled.
- Version identity: `list_versions` compares versions with `==` on objects, which is identity. The model compares version values, so two versions with equal type, id, date and metrics would both be flagged.
- Statuses other than running and completed are not modelled; `list_tests` with an empty status is `None`.
- `register_external_model` does not update `active_versions`. The source resolves a default active version only in `determine_active_versions` (backend/ml/utils/model_manager.py:176-199), which runs when the registry loads. So a type registered for the first time has no active version until the next load. A type that already has versions keeps its old active version, even when that was only the default newest one.
- `apply_percentile_based_grading` sorts the thresholds inside its loop, once per score. The model sorts them once; the sort is pure, so every score sees the same order.
- A threshold dictionary is a sequence of entries in insertion order, which may repeat a grade where a dictionary cannot. A dictionary is the duplicate-free special case.
- Locating `ab_tests.json` under the registry's `model_dir` (the file I/O itself is left out), and the command-line `main`.
