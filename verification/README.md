# Feature-group QC filter and bound estimator (OpenMS MRMFeatureFilter)

A Dafny model of the quality-control engine of OpenMS's `MRMFeatureFilter`.
The engine checks a list of feature groups (a peptide or metabolite and the
transitions measured for it, its sub-features) against acceptance criteria:
ranges on retention time, intensity and quality, six counts derived from
label tags and a transition table, ion ratios between named pairs of
sub-features, and ranges on arbitrary numeric annotations. It gives every
group and sub-feature a score, a pass flag and a sorted list of failure
reasons, and then either annotates the input ("flag" mode) or keeps only the
passing items ("filter" mode). The estimator walks the same traversal over
many samples and, instead of checking ranges, widens them to the observed
values.

Modules, in dependency order:

- `Ranges` (`ranges.dfy`): `checkRange`, `updateRange`.
- `Features` (`features.dfy`): groups, sub-features, transitions, criteria.
- `Messages` (`messages.dfy`): the string order and `getUniqueSorted`.
- `Labels` (`labels.dfy`): `countLabelsAndTransitionTypes`.
- `IonRatios` (`ionratio.dfy`): `calculateIonRatio`, with division by zero as
  a non-finite result.
- `MetaValues` (`metavalues.dfy`): `checkMetaValue`, `updateMetaValue`.
- `Checks` (`checks.dfy`): the individual checks run by the filter, each
  giving the failure messages it appends and the tests it counts.
- `FeatureFilter` (`featurefilter.dfy`): `FilterFeatureMap`, both as the
  source's loops and as a per-item verdict, with the proof that they agree.
- `FilterProperties` (`filterproperties.dfy`): scores, messages, mode
  agreement, worked scenarios.
- `Estimation` (`estimation.dfy`): `EstimateDefaultMRMFeatureQCValues` as a
  fold, with widening, coverage and "untouched" lemmas.
- `EstimationLeast` (`estimationleast.dfy`): the estimate is the least
  widening of the template that covers the samples.
- `EstimationProperties` (`estimationproperties.dfy`): criteria estimated
  from samples accept those samples under the filter.

The filter runs the group criteria inside the sub-feature loop, so a group
with n sub-features is checked n times and its failures and test counts
accumulate n times; a group without sub-features is never checked. The
ion-ratio check runs over every ordered pair of sub-features, self-pairs
included. While sub-feature i is visited, the sub-features before it already
carry their `QC_transition_score` annotation; the model keeps all three
behaviours (`FeatureFilter.ScoredView`).

In `calculateIonRatio`, dividing by zero gives an infinite or NaN ratio,
modelled as `NonFinite` (`IonRatios.Divide`). The model's ranges have real
end points, so a `NonFinite` ratio lies in none of them (`IonRatios.CheckRatio`).

## Model

| member | source | states |
|---|---|---|
| Ranges.CheckRange | src/openms/source/ANALYSIS/OPENSWATH/MRMFeatureFilter.cpp:597-601 | a value passes exactly when it is at least the lower end and at most the upper end, both ends included |
| Ranges.InvertedRejectsAll | src/openms/source/ANALYSIS/OPENSWATH/MRMFeatureFilter.cpp:597-601 | checkRange is inclusive on both ends, so a range whose lower end exceeds its upper end rejects every value |
| Ranges.UpdateRange | src/openms/source/ANALYSIS/OPENSWATH/MRMFeatureFilter.cpp:602-607 | the widened range holds the value, never narrows, has ends min(lo, v) and max(hi, v), and is unchanged for a value already inside |
| Ranges.WidensKeepsMembers | src/openms/source/ANALYSIS/OPENSWATH/MRMFeatureFilter.cpp:597-607 | a value inside a range stays inside after any widening |
| Ranges.UpdateRangeIdempotent | src/openms/source/ANALYSIS/OPENSWATH/MRMFeatureFilter.cpp:602-607 | widening twice with the same value is widening once |
| Ranges.UpdateRangeIsLeast | src/openms/source/ANALYSIS/OPENSWATH/MRMFeatureFilter.cpp:602-607 | any range that contains the old range and the value also contains the widened range |
| Ranges.UpdateRangeFromInverted | src/openms/source/ANALYSIS/OPENSWATH/MRMFeatureFilter.cpp:602-607 | from [100, -100] the value 15 gives [15, 15] and 30 then gives [15, 30] |
| Messages.BelowTotal | src/openms/source/ANALYSIS/OPENSWATH/MRMFeatureFilter.cpp:592 | the string order std::sort uses is total on distinct strings |
| Messages.BelowTransitive | src/openms/source/ANALYSIS/OPENSWATH/MRMFeatureFilter.cpp:592 | the string order is transitive |
| Messages.Insert | src/openms/source/ANALYSIS/OPENSWATH/MRMFeatureFilter.cpp:592-593 | inserting a message into a strictly sorted list keeps it strictly sorted and adds exactly that message |
| Messages.UniqueSorted | src/openms/source/ANALYSIS/OPENSWATH/MRMFeatureFilter.cpp:589-595 | getUniqueSorted returns a strictly increasing list with exactly the messages of its input |
| Messages.StrictlySortedUnique | src/openms/source/ANALYSIS/OPENSWATH/MRMFeatureFilter.cpp:589-595 | two strictly sorted lists with the same messages are equal, so the result is determined by the set of messages |
| Messages.UniqueSortedIdempotent | src/openms/source/ANALYSIS/OPENSWATH/MRMFeatureFilter.cpp:589-595 | applying getUniqueSorted twice gives the same list as once |
| Messages.UniqueSortedEmpty | src/openms/source/ANALYSIS/OPENSWATH/MRMFeatureFilter.cpp:589-595 | the result is empty exactly when the input is |
| Labels.FindTransition | src/openms/source/ANALYSIS/OPENSWATH/MRMFeatureFilter.cpp:462-471 | a transition is found only for a sub-feature with a native id, and it carries that id |
| Labels.FindTransitionIsFirst | src/openms/source/ANALYSIS/OPENSWATH/MRMFeatureFilter.cpp:462-471 | the transition a sub-feature matches is the first one with its native id; none matches when there is no such entry or the sub-feature has no native id |
| Labels.CountLabels | src/openms/source/ANALYSIS/OPENSWATH/MRMFeatureFilter.cpp:452-507 | n_transitions is the number of sub-features, n_heavy + n_light is at most n_transitions, and each type count is at most n_transitions |
| Labels.CountLabelsAppend | src/openms/source/ANALYSIS/OPENSWATH/MRMFeatureFilter.cpp:459-496 | the counts of a concatenation are the sums of the counts of its parts |
| Labels.CountOne | src/openms/source/ANALYSIS/OPENSWATH/MRMFeatureFilter.cpp:473-495 | one sub-feature adds one transition, one to n_heavy if tagged "Heavy", else one to n_light if tagged "Light", and one to each type count its matched transition has |
| Labels.UnmatchedCountsFallback | src/openms/source/ANALYSIS/OPENSWATH/MRMFeatureFilter.cpp:462-495 | a sub-feature that matches no transition is counted with the fallback transition's types: one more transition, quantifying and detecting, not identifying |
| Labels.LabelCountsByTag | src/openms/source/ANALYSIS/OPENSWATH/MRMFeatureFilter.cpp:474-482 | n_heavy and n_light are the number of sub-features tagged exactly "Heavy" and exactly "Light" |
| Labels.TypeCountsByFlag | src/openms/source/ANALYSIS/OPENSWATH/MRMFeatureFilter.cpp:483-494 | each type count is the number of sub-features whose matched transition has that type |
| Labels.CountLabelsExample | src/openms/source/ANALYSIS/OPENSWATH/MRMFeatureFilter.cpp:452-507 | tags Heavy, Light, Light with transitions (quantifying and detecting), (identifying) and none give counts 1, 2, 2, 1, 2, 3, the unmatched third counting as quantifying and detecting |
| IonRatios.Divide | src/openms/source/ANALYSIS/OPENSWATH/MRMFeatureFilter.cpp:519-531 | a division is finite exactly when the divisor is non-zero, and then multiplies back to the dividend |
| IonRatios.IonRatio | src/openms/source/ANALYSIS/OPENSWATH/MRMFeatureFilter.cpp:509-550 | with the "intensity" selector and both native ids present, the ratio is finite exactly when the second intensity is non-zero and then multiplied by it gives the first; with only the first native id it is the first intensity; without the first it is 0. Any other selector does the same with the annotation values, keyed on the annotation's presence. Partner: IonRatios.IonRatioReciprocal |
| IonRatios.IonRatioReciprocal | src/openms/source/ANALYSIS/OPENSWATH/MRMFeatureFilter.cpp:509-550 | when both sides have the attribute and both ratios are finite, swapping the two sub-features inverts the ratio |
| IonRatios.IonRatioExamples | src/openms/source/ANALYSIS/OPENSWATH/MRMFeatureFilter.cpp:509-524 | intensities 12 and 8 give 1.5, 12 when the second has no native id, and 0 when the first has none |
| IonRatios.CheckRatio | src/openms/source/ANALYSIS/OPENSWATH/MRMFeatureFilter.cpp:196-198 | an ion ratio passes only when it is finite and inside the range |
| IonRatios.UpdateRatio | src/openms/source/ANALYSIS/OPENSWATH/MRMFeatureFilter.cpp:400-404 | the ion-ratio range never narrows and holds every finite ratio it is widened with |
| MetaValues.CheckMetaValue | src/openms/source/ANALYSIS/OPENSWATH/MRMFeatureFilter.cpp:552-573 | the key-exists flag is exactly the key's presence; an absent key passes; a failure always comes with an existing key |
| MetaValues.UpdateMetaValue | src/openms/source/ANALYSIS/OPENSWATH/MRMFeatureFilter.cpp:575-587 | the range never narrows, holds the annotation when it exists, and is untouched when it does not |
| Checks.Score | src/openms/source/ANALYSIS/OPENSWATH/MRMFeatureFilter.cpp:272-297 | with no more failures than tests the score lies in [0, 1], is 1 with no tests, and is 1 exactly when nothing failed |
| Checks.RangeFail | src/openms/source/ANALYSIS/OPENSWATH/MRMFeatureFilter.cpp:113-119 | a range check appends its name exactly when the value is out of range |
| Checks.GroupRangeFails | src/openms/source/ANALYSIS/OPENSWATH/MRMFeatureFilter.cpp:112-180 | the nine group range checks append nothing exactly when retention time, intensity, quality and the six counts are all in range |
| Checks.IonRatioTally | src/openms/source/ANALYSIS/OPENSWATH/MRMFeatureFilter.cpp:185-205 | the ion-ratio checks over ordered pairs fail at most once per counted test and count at most one test per partner |
| Checks.IonRatioTallyPasses | src/openms/source/ANALYSIS/OPENSWATH/MRMFeatureFilter.cpp:185-205 | the ion-ratio checks pass exactly when the ratio of every selected partner passes the ion-ratio range check |
| Checks.IonRatioFailureRecorded | src/openms/source/ANALYSIS/OPENSWATH/MRMFeatureFilter.cpp:185-205 | a selected partner whose ratio is non-finite or outside the range records a failure |
| Checks.MetaTally | src/openms/source/ANALYSIS/OPENSWATH/MRMFeatureFilter.cpp:207-216 | meta-value checks fail at most once per counted test and count at most one test per criterion |
| Checks.MetaTallyPasses | src/openms/source/ANALYSIS/OPENSWATH/MRMFeatureFilter.cpp:207-216 | the meta-value checks pass exactly when every named annotation that exists lies in its range |
| Checks.GroupCriterionTally | src/openms/source/ANALYSIS/OPENSWATH/MRMFeatureFilter.cpp:110-217 | a matching group criterion counts at least its nine range tests and never fails more often than it counts |
| Checks.GroupTallyAt | src/openms/source/ANALYSIS/OPENSWATH/MRMFeatureFilter.cpp:108-218 | the group criteria run at one sub-feature never fail more often than they count |
| Checks.GroupTallyAtPasses | src/openms/source/ANALYSIS/OPENSWATH/MRMFeatureFilter.cpp:108-218 | the group checks at one sub-feature pass exactly when every criterion named after the group passes |
| Checks.UnmatchedGroupTally | src/openms/source/ANALYSIS/OPENSWATH/MRMFeatureFilter.cpp:108-110 | the group criteria count nothing at a sub-feature when no criterion names the group |
| Checks.SubCriterionTally | src/openms/source/ANALYSIS/OPENSWATH/MRMFeatureFilter.cpp:224-269 | a matching sub-feature criterion counts at least its three range tests and never fails more often than it counts |
| Checks.SubTally | src/openms/source/ANALYSIS/OPENSWATH/MRMFeatureFilter.cpp:222-270 | a sub-feature's checks never fail more often than they count |
| Checks.SubTallyPasses | src/openms/source/ANALYSIS/OPENSWATH/MRMFeatureFilter.cpp:222-270 | a sub-feature's checks pass exactly when every criterion named after it passes |
| Checks.UnmatchedSubTally | src/openms/source/ANALYSIS/OPENSWATH/MRMFeatureFilter.cpp:222-224 | a sub-feature's checks count nothing when no criterion names it |
| FeatureFilter.Annotate | src/openms/source/ANALYSIS/OPENSWATH/MRMFeatureFilter.cpp:272-293 | the inner loop writes the sub-feature score in both modes, and in flag mode also the pass flag and the sorted, de-duplicated messages |
| FeatureFilter.VisitSubs | src/openms/source/ANALYSIS/OPENSWATH/MRMFeatureFilter.cpp:100-294 | after the inner loop has visited n sub-features, exactly those n carry their annotation and the rest are as given |
| FeatureFilter.VisitGroup | src/openms/source/ANALYSIS/OPENSWATH/MRMFeatureFilter.cpp:89-323 | one pass of the outer loop: counts once, runs the inner loop, writes the group score, then flags the group or adds it, cut to its kept sub-features, when it passes and kept one |
| FeatureFilter.VisitGroups | src/openms/source/ANALYSIS/OPENSWATH/MRMFeatureFilter.cpp:87-324 | after the outer loop has visited n groups, exactly those n are rewritten and the rest are as given |
| FeatureFilter.FilterFeatureMap | src/openms/source/ANALYSIS/OPENSWATH/MRMFeatureFilter.cpp:78-331 | flag mode keeps the map's size and order and gives each group its flagged form; filter mode gives exactly the retained groups, in order, each cut to its passing sub-features |
| FeatureFilter.GroupVerdictUpToPasses | src/openms/source/ANALYSIS/OPENSWATH/MRMFeatureFilter.cpp:100-218 | the group passes its first n visits exactly when it passes the group checks at each of them |
| FeatureFilter.VisitSubsGroup | src/openms/source/ANALYSIS/OPENSWATH/MRMFeatureFilter.cpp:100-218 | the group tally the inner loop accumulates is the group verdict, in either mode, although earlier sub-features have been scored in between |
| FeatureFilter.VisitSubsReadings | src/openms/source/ANALYSIS/OPENSWATH/MRMFeatureFilter.cpp:100-297 | after n visits the sub-features the inner loop holds carry the same ids, intensities and annotations as the first n scored and the rest untouched |
| FeatureFilter.GroupTallyAtReadings | src/openms/source/ANALYSIS/OPENSWATH/MRMFeatureFilter.cpp:108-218 | the group checks read only native ids, intensities and annotations of the sub-features |
| FeatureFilter.VisitSubsKept | src/openms/source/ANALYSIS/OPENSWATH/MRMFeatureFilter.cpp:272-279 | filter mode collects exactly the passing sub-features, scored, in order |
| FeatureFilter.PassingSubsNonEmpty | src/openms/source/ANALYSIS/OPENSWATH/MRMFeatureFilter.cpp:300-309 | some sub-feature is kept exactly when some sub-feature passes |
| FeatureFilter.VisitGroupFlag | src/openms/source/ANALYSIS/OPENSWATH/MRMFeatureFilter.cpp:296-323 | in flag mode a visited group is its flagged form |
| FeatureFilter.VisitGroupFilter | src/openms/source/ANALYSIS/OPENSWATH/MRMFeatureFilter.cpp:296-309 | in filter mode a visited group adds itself, cut to its passing sub-features, exactly when it is retained |
| FeatureFilter.FilteredMap | src/openms/source/ANALYSIS/OPENSWATH/MRMFeatureFilter.cpp:84-330 | the map filter mode builds is the retained groups in order |
| FilterProperties.FlagScoresInUnitInterval | src/openms/source/ANALYSIS/OPENSWATH/MRMFeatureFilter.cpp:272-297 | every group and sub-feature score flag mode writes lies in [0, 1] |
| FilterProperties.FilterScoresAreOne | src/openms/source/ANALYSIS/OPENSWATH/MRMFeatureFilter.cpp:276-305 | every group and sub-feature filter mode keeps carries score 1 |
| FilterProperties.NoSubFeaturesNoGroupTests | src/openms/source/ANALYSIS/OPENSWATH/MRMFeatureFilter.cpp:100-297 | a group without sub-features counts no tests, scores 1 and is flagged passing with no message |
| FilterProperties.UnmatchedGroupScoresOne | src/openms/source/ANALYSIS/OPENSWATH/MRMFeatureFilter.cpp:110-297 | a group no criterion names counts no tests, scores 1 and is flagged passing |
| FilterProperties.UnmatchedSubScoresOne | src/openms/source/ANALYSIS/OPENSWATH/MRMFeatureFilter.cpp:224-273 | a sub-feature no criterion names scores 1 and is flagged passing |
| FilterProperties.FlagMessages | src/openms/source/ANALYSIS/OPENSWATH/MRMFeatureFilter.cpp:280-323 | in flag mode each item's message is empty exactly when it passes and is strictly sorted |
| FilterProperties.FlagKeepsData | src/openms/source/ANALYSIS/OPENSWATH/MRMFeatureFilter.cpp:273-322 | flag mode keeps size, order, names, measurements and every annotation of each group and each sub-feature other than the score it writes |
| FilterProperties.ModesAgree | src/openms/source/ANALYSIS/OPENSWATH/MRMFeatureFilter.cpp:275-323 | filter mode keeps a group exactly when flag mode marks it and one of its sub-features passing, and keeps exactly the sub-features flag mode marks passing |
| FilterProperties.RetentionTimeInRangePasses | src/openms/source/ANALYSIS/OPENSWATH/MRMFeatureFilter.cpp:112-182 | a group at retention time 15 against [10, 20] with one sub-feature passes with nine tests |
| FilterProperties.RetentionTimeOutOfRangeFails | src/openms/source/ANALYSIS/OPENSWATH/MRMFeatureFilter.cpp:100-182 | at retention time 25 with two sub-features the group collects "retention_time" twice in 18 tests and flag mode reports it once |
| Estimation.UpdateMetaQcs | src/openms/source/ANALYSIS/OPENSWATH/MRMFeatureFilter.cpp:408-412 | every meta-value range keeps its key, never narrows, covers the item's annotation, and is untouched for an absent key |
| Estimation.UpdateIonRatios | src/openms/source/ANALYSIS/OPENSWATH/MRMFeatureFilter.cpp:390-406 | the ion-ratio range never narrows, holds every finite selected ratio with the visited sub-feature first, and is unchanged when no pair is selected |
| Estimation.UpdateGroupQc | src/openms/source/ANALYSIS/OPENSWATH/MRMFeatureFilter.cpp:353-413 | a matching group criterion keeps its names, never narrows, and afterwards accepts the group's values, counts, annotations and finite ion ratios |
| Estimation.UpdateSubQc | src/openms/source/ANALYSIS/OPENSWATH/MRMFeatureFilter.cpp:419-445 | a matching sub-feature criterion keeps its name, never narrows, and afterwards accepts the sub-feature's values and annotations |
| Estimation.VisitSub | src/openms/source/ANALYSIS/OPENSWATH/MRMFeatureFilter.cpp:344-446 | visiting a sub-feature widens exactly the criteria named after its group or after it, and they then accept it |
| Estimation.EstimateGroupUpTo | src/openms/source/ANALYSIS/OPENSWATH/MRMFeatureFilter.cpp:344-446 | the sub-feature loop never narrows a range |
| Estimation.EstimateGroup | src/openms/source/ANALYSIS/OPENSWATH/MRMFeatureFilter.cpp:341-447 | one group never narrows the template, and a group without sub-features leaves it unchanged |
| Estimation.EstimateSample | src/openms/source/ANALYSIS/OPENSWATH/MRMFeatureFilter.cpp:337-447 | the group loop over a sample never narrows a range |
| Estimation.EstimateSamples | src/openms/source/ANALYSIS/OPENSWATH/MRMFeatureFilter.cpp:335-449 | the sample loop never narrows a range |
| Estimation.EstimateDefaults | src/openms/source/ANALYSIS/OPENSWATH/MRMFeatureFilter.cpp:333-450 | the estimate has the template's shape, names and keys, and no range is narrower than the template's; EstimationLeast.EstimateDefaultsLeast shows it is no wider than needed |
| Estimation.CriteriaWidenTransitive | src/openms/source/ANALYSIS/OPENSWATH/MRMFeatureFilter.cpp:333-450 | widening over successive samples composes |
| Estimation.GroupCoveredWidens | src/openms/source/ANALYSIS/OPENSWATH/MRMFeatureFilter.cpp:333-450 | values a template accepts stay accepted after any later widening |
| Estimation.EstimateGroupUpToCovers | src/openms/source/ANALYSIS/OPENSWATH/MRMFeatureFilter.cpp:344-446 | after the sub-feature loop every matching criterion accepts the group's values and each visited sub-feature's ion ratios and own values |
| Estimation.EstimateDefaultsCovers | src/openms/source/ANALYSIS/OPENSWATH/MRMFeatureFilter.cpp:333-450 | every criterion named after a group with sub-features accepts its retention time, intensity, quality, six counts, annotations and finite ion ratios, and every criterion named after a sub-feature accepts its values and annotations, over all samples |
| Estimation.EstimateKeepsUnnamedGroupQc | src/openms/source/ANALYSIS/OPENSWATH/MRMFeatureFilter.cpp:351-353 | a group criterion naming no group with sub-features in any sample is returned as given |
| Estimation.EstimateKeepsUnnamedSubQc | src/openms/source/ANALYSIS/OPENSWATH/MRMFeatureFilter.cpp:417-419 | a sub-feature criterion naming no sub-feature in any sample is returned as given |
| Estimation.EstimateFromEmptyTemplate | src/openms/source/ANALYSIS/OPENSWATH/MRMFeatureFilter.cpp:335-356 | from the empty range [100, -100], groups at retention time 15 and 30 in two samples give [15, 30] |
| EstimationLeast.MetaQcsLeast | src/openms/source/ANALYSIS/OPENSWATH/MRMFeatureFilter.cpp:408-412 | the meta-value ranges move no further than any wider ranges that hold the item's annotations |
| EstimationLeast.IonRatiosLeast | src/openms/source/ANALYSIS/OPENSWATH/MRMFeatureFilter.cpp:390-406 | the ion-ratio range moves no further than any wider range that holds every finite selected ratio |
| EstimationLeast.GroupQcLeast | src/openms/source/ANALYSIS/OPENSWATH/MRMFeatureFilter.cpp:353-413 | a widened group criterion stays inside any wider criterion that accepts the group's values, counts, annotations and finite ratios |
| EstimationLeast.SubQcLeast | src/openms/source/ANALYSIS/OPENSWATH/MRMFeatureFilter.cpp:419-445 | a widened sub-feature criterion stays inside any wider criterion that accepts the sub-feature |
| EstimationLeast.VisitSubLeast | src/openms/source/ANALYSIS/OPENSWATH/MRMFeatureFilter.cpp:344-446 | visiting a sub-feature stays inside any wider criteria set that covers the group |
| EstimationLeast.EstimateGroupUpToLeast | src/openms/source/ANALYSIS/OPENSWATH/MRMFeatureFilter.cpp:344-446 | the sub-feature loop stays inside any wider criteria set that covers the group |
| EstimationLeast.EstimateSampleLeast | src/openms/source/ANALYSIS/OPENSWATH/MRMFeatureFilter.cpp:337-447 | the group loop stays inside any wider criteria set that covers the sample's groups |
| EstimationLeast.EstimateSamplesLeast | src/openms/source/ANALYSIS/OPENSWATH/MRMFeatureFilter.cpp:335-449 | the sample loop stays inside any wider criteria set that covers every sample |
| EstimationLeast.EstimateDefaultsLeast | src/openms/source/ANALYSIS/OPENSWATH/MRMFeatureFilter.cpp:333-450 | any criteria set that widens the template and accepts every group and sub-feature of every sample widens the estimate, so the estimate is the least such set: every end point is the template's or an observed value |
| EstimationProperties.SubPassesIffCovered | src/openms/source/ANALYSIS/OPENSWATH/MRMFeatureFilter.cpp:222-270 | a sub-feature passes its own checks exactly when every criterion named after it accepts its retention time, intensity, quality and annotations |
| EstimationProperties.SubFailsWhenUncovered | src/openms/source/ANALYSIS/OPENSWATH/MRMFeatureFilter.cpp:222-270 | a value outside a criterion named after the sub-feature makes it fail |
| EstimationProperties.VisitFailsGroup | src/openms/source/ANALYSIS/OPENSWATH/MRMFeatureFilter.cpp:100-218 | a group that fails its checks at one visited sub-feature fails |
| EstimationProperties.GroupFailsWhenUncovered | src/openms/source/ANALYSIS/OPENSWATH/MRMFeatureFilter.cpp:108-218 | a group with sub-features fails when its retention time, intensity, quality, a count or an annotation lies outside a criterion named after it |
| EstimationProperties.GroupFailsOnRatio | src/openms/source/ANALYSIS/OPENSWATH/MRMFeatureFilter.cpp:185-205 | a group fails when a criterion named after it selects a pair of its sub-features whose ratio is non-finite or out of range, provided the ratio does not read the score the filter writes |
| EstimationProperties.MetaTallyCovered | src/openms/source/ANALYSIS/OPENSWATH/MRMFeatureFilter.cpp:207-216 | meta-value checks whose ranges hold every present annotation record no failure |
| EstimationProperties.IonRatioTallyCovered | src/openms/source/ANALYSIS/OPENSWATH/MRMFeatureFilter.cpp:185-205 | ion-ratio checks whose range holds every finite selected ratio record no failure when every selected ratio is finite |
| EstimationProperties.GroupVerdictUpToCovered | src/openms/source/ANALYSIS/OPENSWATH/MRMFeatureFilter.cpp:100-218 | a group whose matching criteria accept all its values passes its group checks at every visited sub-feature |
| EstimationProperties.EstimatedSubsPass | src/openms/source/ANALYSIS/OPENSWATH/MRMFeatureFilter.cpp:222-270 | every sub-feature of every sample passes its own checks under the criteria estimated from those samples |
| EstimationProperties.EstimatedGroupsPass | src/openms/source/ANALYSIS/OPENSWATH/MRMFeatureFilter.cpp:100-218 | every group of every sample passes its own checks under the estimated criteria when its selected ion ratios are finite and do not read the sub-feature score |
| EstimationProperties.FlagAcceptsEstimationSample | src/openms/source/ANALYSIS/OPENSWATH/MRMFeatureFilter.cpp:275-323 | flag mode with the estimated criteria marks every group and sub-feature of a training sample passing with score 1, provided every ion ratio the template selects in that sample is finite and no criterion that selects a pair of its sub-features reads QC_transition_score as its ratio attribute |

## Left out

- Numbers are Dafny reals, not doubles: rounding in the score and in the ion-ratio division is not modelled; comparisons are exact.
- The six counts are `int` criteria in the source; here they are reals holding whole numbers, which compare the same way.
- IonRatios.UpdateRatio: an infinite ion ratio leaves the ion-ratio range unchanged, whereas the source's updateRange would move an end point to infinity (a NaN ratio leaves it unchanged in both); a real-valued range cannot hold infinity.
- EstimationProperties.EstimatedGroupsPass: assumes the selected ion ratios are finite. The model's real-valued ranges cannot hold an infinite end, so an infinite ratio is excluded; in the source the estimator would move an end to infinity and the ratio would then pass. A NaN ratio (0 / 0) fails every range check in the source too. It also assumes that no criterion that selects a pair of the group's sub-features reads `QC_transition_score` as its ratio attribute, because the filter writes that score between visits, so the ratio it reads can differ from the one the estimator saw.
- EstimationProperties.FlagAcceptsEstimationSample: assumes, for every group of the sample, that the ion ratios its criteria select are finite and that no criterion that selects a pair of the group's sub-features reads `QC_transition_score` as its ratio attribute. The first is the restriction above. The second is needed because the filter writes that score between visits, so the ratio it reads can differ from the one the estimator saw.
- The parameter handling (`getDefaultParameters`, `updateMembers_`) is replaced by the two-valued `Features.Mode`; the source restricts the parameter to "flag" and "filter".
- Debug logging is left out; it has no effect on results.
- Annotations are a map from key to real. The pass flag and message list written in flag mode are kept in a separate `qc` field rather than among the annotations, so a criterion cannot read them back; the scores are stored among the annotations under the source's keys.
- A sub-feature without a `native_id` is taken to be matched against criteria under the empty string. This is an assumption: the source converts the absent annotation with a `String` cast, and that conversion is not part of this model (it may instead throw).
- A group without a `PeptideRef` annotation and a sub-feature without a `LabelType` annotation are likewise outside the model: `peptideRef` and `labelType` are plain strings that are always present. The source reads both with a `String` cast of an annotation that may be absent (MRMFeatureFilter.cpp lines 89, 341 and 474). What that cast does with an absent annotation is not part of this model; it may yield the empty string or throw.
- A sub-feature the transition table lacks is counted against a default-constructed transition. `ReactionMonitoringTransition` is not part of this model. Its default is taken to be detecting and quantifying but not identifying (`Labels.Unmatched`); this is an assumption about that class. `Labels.UnmatchedCountsFallback` states the counts in terms of the fallback's flags, so it holds whatever the flags are.
- Messages.Below: orders strings by code point, one character at a time. `std::string`'s `<` compares bytes. The two orders agree for strings whose characters are single bytes (and, since UTF-8 keeps code-point order, for valid UTF-8); the model does not cover other byte strings.
- `meta_value_qc` is an ordered map in the source; here it is a sequence of (key, range) entries, so duplicate keys are representable but are never produced by the source.
- `MRMFeatureQC`, `TargetedExperiment`, `Feature` and `FeatureMap` are reduced to the fields the core reads.
- FeatureFilter.FilterFeatureMap: a feature map is modelled as its sequence of groups only. In filter mode the source builds a new, empty map, adds the kept groups to it and assigns it over the input, so every map-level field (protein and unassigned peptide identifications, data processing, the document id and the map's own annotations) is dropped; flag mode edits the map in place and keeps them. The model does not represent these fields, so it does not state either behaviour.
- The other files of the repository (isotope labelling, contaminants, experimental design, the visualiser) are not part of this model.
