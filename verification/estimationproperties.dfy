/** The estimator and the filter fit together: criteria estimated from a
    set of samples accept every group and sub-feature of those samples. */
module EstimationProperties {
  import opened Ranges
  import opened Features
  import opened Labels
  import opened IonRatios
  import opened Messages
  import opened Checks
  import opened FeatureFilter
  import opened Estimation

  // ---------------------------------------------------------------------
  // Covered values pass the checks

  lemma {:induction false} MetaTallyCovered(meta: map<string, real>, mqs: seq<MetaCriterion>)
    requires MetaCovered(meta, mqs)
    ensures Passed(MetaTally(meta, mqs))
    decreases |mqs|
  {
    if |mqs| > 0 {
      var p := mqs[..|mqs| - 1];
      assert forall k :: 0 <= k < |p| ==> p[k] == mqs[k];
      MetaTallyCovered(meta, p);
      assert mqs[|mqs| - 1].key in meta ==> CheckRange(meta[mqs[|mqs| - 1].key], mqs[|mqs| - 1].bounds);
    }
  }

  lemma SubCriterionCovered(s: SubFeature, q: SubQc)
    requires SubCovered(s, q)
    ensures Passed(SubCriterionTally(s, q))
  {
    MetaTallyCovered(s.meta, q.metaQc);
  }

  /** A sub-feature that every criterion named after it covers passes its
      own checks. */
  lemma {:induction false} SubTallyCovered(s: SubFeature, qcs: seq<SubQc>)
    requires forall m :: 0 <= m < |qcs| && qcs[m].componentName == Name(s) ==> SubCovered(s, qcs[m])
    ensures Passed(SubTally(s, qcs))
    decreases |qcs|
  {
    if |qcs| > 0 {
      var p := qcs[..|qcs| - 1];
      assert forall m :: 0 <= m < |p| ==> p[m] == qcs[m];
      SubTallyCovered(s, p);
      if qcs[|qcs| - 1].componentName == Name(s) {
        SubCriterionCovered(s, qcs[|qcs| - 1]);
      }
    }
  }

  /** a and b agree on everything an ion ratio over the selector f reads. */
  predicate ReadsAlike(a: SubFeature, b: SubFeature, f: string)
  {
    && a.nativeId == b.nativeId
    && a.intensity == b.intensity
    && (f in a.meta <==> f in b.meta)
    && (f in a.meta ==> a.meta[f] == b.meta[f])
  }

  /** The score a sub-feature receives is invisible to an ion ratio that
      does not select the score itself. */
  lemma ScoredReadsAlike(subs: seq<SubFeature>, crit: Criteria, n: nat, f: string)
    requires f != TransitionScoreKey
    ensures forall j :: 0 <= j < |subs| ==> ReadsAlike(ScoredView(subs, crit, n)[j], subs[j], f)
  {
  }

  /** The ion-ratio checks of a covered criterion pass when every selected
      ratio is finite; v is the sub-feature list as the checks read it. */
  lemma {:induction false} IonRatioTallyCovered(v: seq<SubFeature>, subs: seq<SubFeature>, i: nat, q: GroupQc, n: nat)
    requires |v| == |subs| && i < |subs| && n <= |subs|
    requires forall j :: 0 <= j < |subs| ==> ReadsAlike(v[j], subs[j], q.ionRatioFeature)
    requires RatioCovered(subs, i, q)
    requires forall j :: 0 <= j < |subs| && PairSelected(q, Name(subs[i]), Name(subs[j])) ==>
      IonRatio(subs[i], subs[j], q.ionRatioFeature).Finite?
    ensures Passed(IonRatioTally(v, i, q, n))
    decreases n
  {
    if n > 0 {
      IonRatioTallyCovered(v, subs, i, q, n - 1);
      var j := n - 1;
      assert ReadsAlike(v[i], subs[i], q.ionRatioFeature) && ReadsAlike(v[j], subs[j], q.ionRatioFeature);
      assert Name(v[i]) == Name(subs[i]) && Name(v[j]) == Name(subs[j]);
      assert IonRatio(v[i], v[j], q.ionRatioFeature) == IonRatio(subs[i], subs[j], q.ionRatioFeature);
      assert PairCovered(subs, i, j, q, q.ionRatio);
    }
  }

  /** The conditions under which a covered group criterion passes while
      sub-feature i is visited. */
  predicate CriterionAccepts(g: Feature, c: LabelCounts, i: nat, q: GroupQc)
    requires i < |g.subordinates|
  {
    var subs := g.subordinates;
    && GroupValuesCovered(g, c, q)
    && RatioCovered(subs, i, q)
    && forall j :: 0 <= j < |subs| && PairSelected(q, Name(subs[i]), Name(subs[j])) ==>
         q.ionRatioFeature != TransitionScoreKey && IonRatio(subs[i], subs[j], q.ionRatioFeature).Finite?
  }

  /** An ion-ratio loop that selects no pair records no failure. */
  lemma {:induction false} IonRatioTallyUnselected(v: seq<SubFeature>, i: nat, q: GroupQc, n: nat)
    requires i < |v| && n <= |v|
    requires forall j :: 0 <= j < n ==> !PairSelected(q, Name(v[i]), Name(v[j]))
    ensures Passed(IonRatioTally(v, i, q, n))
    decreases n
  {
    if n > 0 {
      IonRatioTallyUnselected(v, i, q, n - 1);
    }
  }

  lemma GroupCriterionCovered(g: Feature, crit: Criteria, i: nat, c: LabelCounts, q: GroupQc)
    requires i < |g.subordinates|
    requires CriterionAccepts(g, c, i, q)
    ensures Passed(GroupCriterionTally(g, ScoredView(g.subordinates, crit, i), i, c, q))
  {
    var subs := g.subordinates;
    var v := ScoredView(subs, crit, i);
    if q.ionRatioFeature == TransitionScoreKey {
      forall j | 0 <= j < |v|
        ensures !PairSelected(q, Name(v[i]), Name(v[j]))
      {
        assert Name(v[i]) == Name(subs[i]) && Name(v[j]) == Name(subs[j]);
      }
      IonRatioTallyUnselected(v, i, q, |v|);
    } else {
      ScoredReadsAlike(subs, crit, i, q.ionRatioFeature);
      IonRatioTallyCovered(v, subs, i, q, |subs|);
    }
    MetaTallyCovered(g.meta, q.metaQc);
  }

  lemma {:induction false} GroupTallyAtCovered(g: Feature, crit: Criteria, i: nat, c: LabelCounts, qcs: seq<GroupQc>)
    requires i < |g.subordinates|
    requires forall m :: 0 <= m < |qcs| && qcs[m].groupName == g.peptideRef ==> CriterionAccepts(g, c, i, qcs[m])
    ensures Passed(GroupTallyAt(g, ScoredView(g.subordinates, crit, i), i, c, qcs))
    decreases |qcs|
  {
    if |qcs| > 0 {
      var p := qcs[..|qcs| - 1];
      assert forall m :: 0 <= m < |p| ==> p[m] == qcs[m];
      GroupTallyAtCovered(g, crit, i, c, p);
      if qcs[|qcs| - 1].groupName == g.peptideRef {
        GroupCriterionCovered(g, crit, i, c, qcs[|qcs| - 1]);
      }
    }
  }

  lemma {:induction false} GroupVerdictUpToCovered(g: Feature, crit: Criteria, ts: seq<Transition>, n: nat)
    requires n <= |g.subordinates|
    requires forall m, i :: 0 <= m < |crit.groupQcs| && crit.groupQcs[m].groupName == g.peptideRef && 0 <= i < n ==>
      CriterionAccepts(g, CountLabels(g.subordinates, ts), i, crit.groupQcs[m])
    ensures Passed(GroupVerdictUpTo(g, crit, ts, n))
    decreases n
  {
    if n > 0 {
      var c := CountLabels(g.subordinates, ts);
      var qcs := crit.groupQcs;
      GroupVerdictUpToCovered(g, crit, ts, n - 1);
      forall m | 0 <= m < |qcs| && qcs[m].groupName == g.peptideRef
        ensures CriterionAccepts(g, c, n - 1, qcs[m])
      {
      }
      GroupTallyAtCovered(g, crit, n - 1, c, qcs);
    }
  }

  // ---------------------------------------------------------------------
  // Uncovered values fail the checks

  /** A sub-feature passes its own checks exactly when every criterion named
      after it accepts its values. */
  lemma SubPassesIffCovered(s: SubFeature, crit: Criteria)
    ensures Passed(SubVerdict(s, crit)) <==>
      forall m :: 0 <= m < |crit.subQcs| && crit.subQcs[m].componentName == Name(s) ==> SubCovered(s, crit.subQcs[m])
  {
    SubTallyPasses(s, crit.subQcs);
    forall m | 0 <= m < |crit.subQcs|
      ensures Passed(SubCriterionTally(s, crit.subQcs[m])) <==> SubCovered(s, crit.subQcs[m])
    {
      MetaTallyPasses(s.meta, crit.subQcs[m].metaQc);
    }
  }

  /** A value outside the range of a criterion named after the sub-feature
      fails it. */
  lemma SubFailsWhenUncovered(s: SubFeature, crit: Criteria, m: nat)
    requires m < |crit.subQcs| && crit.subQcs[m].componentName == Name(s)
    requires !SubCovered(s, crit.subQcs[m])
    ensures !Passed(SubVerdict(s, crit))
  {
    SubPassesIffCovered(s, crit);
  }

  /** The group's verdict fails when one of its visits does. */
  lemma VisitFailsGroup(g: Feature, crit: Criteria, ts: seq<Transition>, i: nat)
    requires i < |g.subordinates|
    requires !Passed(GroupTallyAt(g, ScoredView(g.subordinates, crit, i), i, CountLabels(g.subordinates, ts), crit.groupQcs))
    ensures !Passed(GroupVerdict(g, crit, ts))
  {
    GroupVerdictUpToPasses(g, crit, ts, |g.subordinates|);
  }

  /** A group with sub-features fails when its retention time, intensity,
      quality, a count or an annotation lies outside a criterion named after
      it. */
  lemma GroupFailsWhenUncovered(g: Feature, crit: Criteria, ts: seq<Transition>, m: nat)
    requires |g.subordinates| > 0
    requires m < |crit.groupQcs| && crit.groupQcs[m].groupName == g.peptideRef
    requires !GroupValuesCovered(g, CountLabels(g.subordinates, ts), crit.groupQcs[m])
    ensures !Passed(GroupVerdict(g, crit, ts))
  {
    var subs := g.subordinates;
    var i := |subs| - 1;
    var v := ScoredView(subs, crit, i);
    var c := CountLabels(subs, ts);
    MetaTallyPasses(g.meta, crit.groupQcs[m].metaQc);
    assert !Passed(GroupCriterionTally(g, v, i, c, crit.groupQcs[m]));
    GroupTallyAtPasses(g, v, i, c, crit.groupQcs);
    VisitFailsGroup(g, crit, ts, i);
  }

  /** A group fails when a pair of its sub-features that a criterion named
      after it selects has a ratio that is non-finite or outside the range,
      unless the ratio reads the score the filter itself writes. */
  lemma GroupFailsOnRatio(g: Feature, crit: Criteria, ts: seq<Transition>, m: nat, i: nat, j: nat)
    requires i < |g.subordinates| && j < |g.subordinates|
    requires m < |crit.groupQcs| && crit.groupQcs[m].groupName == g.peptideRef
    requires crit.groupQcs[m].ionRatioFeature != TransitionScoreKey
    requires PairSelected(crit.groupQcs[m], Name(g.subordinates[i]), Name(g.subordinates[j]))
    requires !CheckRatio(IonRatio(g.subordinates[i], g.subordinates[j], crit.groupQcs[m].ionRatioFeature), crit.groupQcs[m].ionRatio)
    ensures !Passed(GroupVerdict(g, crit, ts))
  {
    var subs := g.subordinates;
    var q := crit.groupQcs[m];
    var v := ScoredView(subs, crit, i);
    var c := CountLabels(subs, ts);
    ScoredReadsAlike(subs, crit, i, q.ionRatioFeature);
    assert ReadsAlike(v[i], subs[i], q.ionRatioFeature) && ReadsAlike(v[j], subs[j], q.ionRatioFeature);
    assert Name(v[i]) == Name(subs[i]) && Name(v[j]) == Name(subs[j]);
    assert IonRatio(v[i], v[j], q.ionRatioFeature) == IonRatio(subs[i], subs[j], q.ionRatioFeature);
    IonRatioTallyPasses(v, i, q, |v|);
    assert !Passed(GroupCriterionTally(g, v, i, c, q));
    GroupTallyAtPasses(g, v, i, c, crit.groupQcs);
    VisitFailsGroup(g, crit, ts, i);
  }

  // ---------------------------------------------------------------------
  // Estimated criteria accept their samples

  /** Every ion ratio a criterion named after g selects between two of g's
      sub-features is finite, and no criterion that selects a pair of them
      reads the score the filter writes on sub-features as its ratio
      attribute. */
  predicate RatiosWellDefined(g: Feature, crit: Criteria)
  {
    forall m :: 0 <= m < |crit.groupQcs| && crit.groupQcs[m].groupName == g.peptideRef ==>
      RatioWellDefined(g.subordinates, crit.groupQcs[m])
  }

  predicate RatioWellDefined(subs: seq<SubFeature>, q: GroupQc)
  {
    forall i, j :: 0 <= i < |subs| && 0 <= j < |subs| && PairSelected(q, Name(subs[i]), Name(subs[j])) ==>
      q.ionRatioFeature != TransitionScoreKey && IonRatio(subs[i], subs[j], q.ionRatioFeature).Finite?
  }

  lemma RatiosWellDefinedWidens(g: Feature, a: Criteria, b: Criteria)
    requires RatiosWellDefined(g, a) && CriteriaWiden(a, b)
    ensures RatiosWellDefined(g, b)
  {
    forall m | 0 <= m < |b.groupQcs| && b.groupQcs[m].groupName == g.peptideRef
      ensures RatioWellDefined(g.subordinates, b.groupQcs[m])
    {
      assert GroupQcWidens(a.groupQcs[m], b.groupQcs[m]);
      assert RatioWellDefined(g.subordinates, a.groupQcs[m]);
    }
  }

  /** A group that crit covers passes its own checks under crit, provided
      its selected ion ratios are well defined. */
  lemma CoveredGroupPasses(g: Feature, crit: Criteria, ts: seq<Transition>)
    requires GroupCovered(g, ts, crit) && RatiosWellDefined(g, crit)
    ensures Passed(GroupVerdict(g, crit, ts))
  {
    var c := CountLabels(g.subordinates, ts);
    forall m, i | 0 <= m < |crit.groupQcs| && crit.groupQcs[m].groupName == g.peptideRef && 0 <= i < |g.subordinates|
      ensures CriterionAccepts(g, c, i, crit.groupQcs[m])
    {
    }
    GroupVerdictUpToCovered(g, crit, ts, |g.subordinates|);
  }

  /** A sub-feature of a group crit covers passes its own checks under crit. */
  lemma CoveredSubPasses(g: Feature, crit: Criteria, ts: seq<Transition>, j: nat)
    requires GroupCovered(g, ts, crit) && j < |g.subordinates|
    ensures Passed(SubVerdict(g.subordinates[j], crit))
  {
    SubTallyCovered(g.subordinates[j], crit.subQcs);
  }

  /** Every sub-feature of every sample passes its own checks under the
      criteria estimated from those samples. */
  lemma EstimatedSubsPass(samples: seq<seq<Feature>>, template: Criteria, ts: seq<Transition>, p: nat, k: nat, j: nat)
    requires p < |samples| && k < |samples[p]| && j < |samples[p][k].subordinates|
    ensures Passed(SubVerdict(samples[p][k].subordinates[j], EstimateDefaults(samples, template, ts)))
  {
    EstimateDefaultsCovers(samples, template, ts);
    CoveredSubPasses(samples[p][k], EstimateDefaults(samples, template, ts), ts, j);
  }

  /** Every group of every sample passes its own checks under the criteria
      estimated from those samples, as long as the ion ratios the template
      selects for it are finite and do not read the sub-feature score. */
  lemma EstimatedGroupsPass(samples: seq<seq<Feature>>, template: Criteria, ts: seq<Transition>, p: nat, k: nat)
    requires p < |samples| && k < |samples[p]|
    requires RatiosWellDefined(samples[p][k], template)
    ensures Passed(GroupVerdict(samples[p][k], EstimateDefaults(samples, template, ts), ts))
  {
    var r := EstimateDefaults(samples, template, ts);
    EstimateDefaultsCovers(samples, template, ts);
    RatiosWellDefinedWidens(samples[p][k], template, r);
    CoveredGroupPasses(samples[p][k], r, ts);
  }

  /** A group that passes, with sub-features that all pass, is flagged
      passing with score 1 throughout. */
  lemma PassingGroupFlagged(g: Feature, crit: Criteria, ts: seq<Transition>)
    requires Passed(GroupVerdict(g, crit, ts))
    requires forall j :: 0 <= j < |g.subordinates| ==> Passed(SubVerdict(g.subordinates[j], crit))
    ensures AllFlaggedPassing(FlaggedGroup(g, crit, ts))
  {
    var f := FlaggedGroup(g, crit, ts);
    UniqueSortedEmpty(GroupVerdict(g, crit, ts).fails);
    forall j | 0 <= j < |g.subordinates|
      ensures f.subordinates[j].qc == Some(QcFlag(true, []))
      ensures f.subordinates[j].meta[TransitionScoreKey] == 1.0
    {
      UniqueSortedEmpty(SubVerdict(g.subordinates[j], crit).fails);
    }
  }

  /** The group and each of its sub-features are flagged passing with
      score 1. */
  predicate AllFlaggedPassing(f: Feature)
  {
    && f.qc == Some(QcFlag(true, []))
    && GroupScoreKey in f.meta && f.meta[GroupScoreKey] == 1.0
    && forall j :: 0 <= j < |f.subordinates| ==>
         && f.subordinates[j].qc == Some(QcFlag(true, []))
         && TransitionScoreKey in f.subordinates[j].meta
         && f.subordinates[j].meta[TransitionScoreKey] == 1.0
  }

  lemma EstimatedGroupFlagged(samples: seq<seq<Feature>>, template: Criteria, ts: seq<Transition>, p: nat, k: nat)
    requires p < |samples| && k < |samples[p]|
    requires RatiosWellDefined(samples[p][k], template)
    ensures AllFlaggedPassing(FlaggedGroup(samples[p][k], EstimateDefaults(samples, template, ts), ts))
  {
    var g := samples[p][k];
    EstimatedGroupsPass(samples, template, ts, p, k);
    forall j | 0 <= j < |g.subordinates|
      ensures Passed(SubVerdict(g.subordinates[j], EstimateDefaults(samples, template, ts)))
    {
      EstimatedSubsPass(samples, template, ts, p, k, j);
    }
    PassingGroupFlagged(g, EstimateDefaults(samples, template, ts), ts);
  }

  /** Flag mode with the estimated criteria marks every group of a sample
      the estimate was taken from, and every sub-feature in it, as passing
      with score 1. */
  lemma FlagAcceptsEstimationSample(samples: seq<seq<Feature>>, template: Criteria, ts: seq<Transition>, p: nat)
    requires p < |samples|
    requires forall k :: 0 <= k < |samples[p]| ==> RatiosWellDefined(samples[p][k], template)
    ensures var r := FilterFeatureMap(samples[p], EstimateDefaults(samples, template, ts), ts, Flag);
      |r| == |samples[p]| && forall k :: 0 <= k < |r| ==> AllFlaggedPassing(r[k])
  {
    forall k | 0 <= k < |samples[p]|
      ensures AllFlaggedPassing(FlaggedGroup(samples[p][k], EstimateDefaults(samples, template, ts), ts))
    {
      EstimatedGroupFlagged(samples, template, ts, p, k);
    }
  }
}
