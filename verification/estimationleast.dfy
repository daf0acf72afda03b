/** The estimate is the least widening of the template that covers the
    samples: every bound is moved only as far as an observed value demands,
    so any criteria set that widens the template and covers every group and
    sub-feature of every sample also widens the estimate. */
module EstimationLeast {
  import opened Ranges
  import opened Features
  import opened Labels
  import opened IonRatios
  import opened Checks
  import opened Estimation

  // ---------------------------------------------------------------------
  // One criterion

  lemma MetaQcsLeast(meta: map<string, real>, a: seq<MetaCriterion>, c: seq<MetaCriterion>)
    requires MetaQcsWiden(a, c) && MetaCovered(meta, c)
    ensures MetaQcsWiden(UpdateMetaQcs(meta, a), c)
  {
    var r := UpdateMetaQcs(meta, a);
    forall k | 0 <= k < |a|
      ensures Widens(r[k].bounds, c[k].bounds)
    {
      if a[k].key in meta {
        UpdateRangeIsLeast(meta[a[k].key], a[k].bounds, c[k].bounds);
      }
    }
  }

  /** The ion-ratio loop moves the range no further than a range c that
      holds every finite selected ratio. */
  lemma {:induction false} IonRatiosLeast(subs: seq<SubFeature>, i: nat, q: GroupQc, n: nat, c: Bounds)
    requires i < |subs| && n <= |subs|
    requires Widens(q.ionRatio, c)
    requires forall j :: 0 <= j < n ==> PairCovered(subs, i, j, q, c)
    ensures Widens(UpdateIonRatios(subs, i, q, n), c)
    decreases n
  {
    if n > 0 {
      var prev := UpdateIonRatios(subs, i, q, n - 1);
      IonRatiosLeast(subs, i, q, n - 1, c);
      var r := IonRatio(subs[i], subs[n - 1], q.ionRatioFeature);
      if PairSelected(q, Name(subs[i]), Name(subs[n - 1])) && r.Finite? {
        assert PairCovered(subs, i, n - 1, q, c);
        UpdateRangeIsLeast(r.value, prev, c);
      }
    }
  }

  /** Widening a group criterion at sub-feature i stays inside any criterion
      that widens it and accepts the group and the ratios from i. */
  lemma GroupQcLeast(g: Feature, c: LabelCounts, i: nat, q: GroupQc, cq: GroupQc)
    requires i < |g.subordinates|
    requires GroupQcWidens(q, cq) && GroupValuesCovered(g, c, cq) && RatioCovered(g.subordinates, i, cq)
    ensures GroupQcWidens(UpdateGroupQc(g, c, i, q), cq)
  {
    UpdateRangeIsLeast(g.rt, q.retentionTime, cq.retentionTime);
    UpdateRangeIsLeast(g.intensity, q.intensity, cq.intensity);
    UpdateRangeIsLeast(g.quality, q.overallQuality, cq.overallQuality);
    UpdateRangeIsLeast(c.nHeavy as real, q.nHeavy, cq.nHeavy);
    UpdateRangeIsLeast(c.nLight as real, q.nLight, cq.nLight);
    UpdateRangeIsLeast(c.nDetecting as real, q.nDetecting, cq.nDetecting);
    UpdateRangeIsLeast(c.nQuantifying as real, q.nQuantifying, cq.nQuantifying);
    UpdateRangeIsLeast(c.nIdentifying as real, q.nIdentifying, cq.nIdentifying);
    UpdateRangeIsLeast(c.nTransitions as real, q.nTransitions, cq.nTransitions);
    PairsCoveredSameSelectors(g.subordinates, i, cq, q, cq.ionRatio);
    IonRatiosLeast(g.subordinates, i, q, |g.subordinates|, cq.ionRatio);
    MetaQcsLeast(g.meta, q.metaQc, cq.metaQc);
  }

  lemma SubQcLeast(s: SubFeature, q: SubQc, cq: SubQc)
    requires SubQcWidens(q, cq) && SubCovered(s, cq)
    ensures SubQcWidens(UpdateSubQc(s, q), cq)
  {
    UpdateRangeIsLeast(s.rt, q.retentionTime, cq.retentionTime);
    UpdateRangeIsLeast(s.intensity, q.intensity, cq.intensity);
    UpdateRangeIsLeast(s.quality, q.overallQuality, cq.overallQuality);
    MetaQcsLeast(s.meta, q.metaQc, cq.metaQc);
  }

  // ---------------------------------------------------------------------
  // The loops

  /** Visiting sub-feature i, giving r, stays inside any criteria set that
      widens the criteria so far and covers the whole group. */
  lemma VisitSubLeast(g: Feature, c: LabelCounts, i: nat, crit: Criteria, r: Criteria, cc: Criteria)
    requires i < |g.subordinates| && r == VisitSub(g, c, i, crit)
    requires CriteriaWiden(crit, cc) && GroupCoveredUpTo(g, c, cc, |g.subordinates|)
    ensures CriteriaWiden(r, cc)
  {
    forall m | 0 <= m < |r.groupQcs|
      ensures GroupQcWidens(r.groupQcs[m], cc.groupQcs[m])
    {
      if crit.groupQcs[m].groupName == g.peptideRef {
        assert GroupQcWidens(crit.groupQcs[m], cc.groupQcs[m]);
        GroupQcLeast(g, c, i, crit.groupQcs[m], cc.groupQcs[m]);
      }
    }
    forall m | 0 <= m < |r.subQcs|
      ensures SubQcWidens(r.subQcs[m], cc.subQcs[m])
    {
      if crit.subQcs[m].componentName == Name(g.subordinates[i]) {
        assert SubQcWidens(crit.subQcs[m], cc.subQcs[m]);
        SubQcLeast(g.subordinates[i], crit.subQcs[m], cc.subQcs[m]);
      }
    }
  }

  /** One step of the sub-feature loop stays inside cc. */
  lemma EstimateGroupStepLeast(g: Feature, c: LabelCounts, crit: Criteria, cc: Criteria, n: nat)
    requires 0 < n <= |g.subordinates|
    requires CriteriaWiden(EstimateGroupUpTo(g, c, crit, n - 1), cc) && GroupCoveredUpTo(g, c, cc, |g.subordinates|)
    ensures CriteriaWiden(EstimateGroupUpTo(g, c, crit, n), cc)
  {
    VisitSubLeast(g, c, n - 1, EstimateGroupUpTo(g, c, crit, n - 1), EstimateGroupUpTo(g, c, crit, n), cc);
  }

  lemma {:induction false} EstimateGroupUpToLeast(g: Feature, c: LabelCounts, crit: Criteria, cc: Criteria, n: nat)
    requires n <= |g.subordinates|
    requires CriteriaWiden(crit, cc) && GroupCoveredUpTo(g, c, cc, |g.subordinates|)
    ensures CriteriaWiden(EstimateGroupUpTo(g, c, crit, n), cc)
    decreases n
  {
    if n > 0 {
      EstimateGroupUpToLeast(g, c, crit, cc, n - 1);
      EstimateGroupStepLeast(g, c, crit, cc, n);
    }
  }

  /** The group loop over a sample's first n groups stays inside any
      criteria set that widens its start and covers those groups. */
  lemma {:induction false} EstimateSampleLeast(features: seq<Feature>, ts: seq<Transition>, crit: Criteria, cc: Criteria, n: nat)
    requires n <= |features|
    requires CriteriaWiden(crit, cc)
    requires forall k :: 0 <= k < n ==> GroupCovered(features[k], ts, cc)
    ensures CriteriaWiden(EstimateSample(features, ts, crit, n), cc)
    decreases n
  {
    if n > 0 {
      var g := features[n - 1];
      EstimateSampleLeast(features, ts, crit, cc, n - 1);
      assert GroupCovered(g, ts, cc);
      EstimateGroupUpToLeast(g, CountLabels(g.subordinates, ts), EstimateSample(features, ts, crit, n - 1), cc, |g.subordinates|);
    }
  }

  lemma {:induction false} EstimateSamplesLeast(samples: seq<seq<Feature>>, ts: seq<Transition>, crit: Criteria, cc: Criteria, n: nat)
    requires n <= |samples|
    requires CriteriaWiden(crit, cc)
    requires forall p, k :: 0 <= p < n && 0 <= k < |samples[p]| ==> GroupCovered(samples[p][k], ts, cc)
    ensures CriteriaWiden(EstimateSamples(samples, ts, crit, n), cc)
    decreases n
  {
    if n > 0 {
      EstimateSamplesLeast(samples, ts, crit, cc, n - 1);
      var s := samples[n - 1];
      forall k | 0 <= k < |s|
        ensures GroupCovered(s[k], ts, cc)
      {
        assert s[k] == samples[n - 1][k];
      }
      EstimateSampleLeast(s, ts, EstimateSamples(samples, ts, crit, n - 1), cc, |s|);
    }
  }

  /** EstimateDefaultMRMFeatureQCValues gives the least criteria set that
      widens the template and covers every group of every sample: any other
      such set widens the estimate. */
  lemma EstimateDefaultsLeast(samples: seq<seq<Feature>>, template: Criteria, ts: seq<Transition>, cc: Criteria)
    requires CriteriaWiden(template, cc)
    requires forall p, k :: 0 <= p < |samples| && 0 <= k < |samples[p]| ==> GroupCovered(samples[p][k], ts, cc)
    ensures CriteriaWiden(EstimateDefaults(samples, template, ts), cc)
  {
    EstimateSamplesLeast(samples, ts, template, cc, |samples|);
  }
}
