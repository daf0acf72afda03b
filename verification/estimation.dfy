/** EstimateDefaultMRMFeatureQCValues: widens every bound of a criteria
    template to the values observed over a list of samples. The loops run
    over samples, then groups, then sub-features; while visiting a
    sub-feature, every group criterion named after the group and every
    sub-feature criterion named after the sub-feature is widened. */
module Estimation {
  import opened Ranges
  import opened Features
  import opened Labels
  import opened IonRatios
  import opened MetaValues
  import opened Checks

  // ---------------------------------------------------------------------
  // Widening, criterion by criterion

  /** b has the same keys as a, in the same order, and every range widens. */
  predicate MetaQcsWiden(a: seq<MetaCriterion>, b: seq<MetaCriterion>)
  {
    && |a| == |b|
    && forall k :: 0 <= k < |a| ==> a[k].key == b[k].key && Widens(a[k].bounds, b[k].bounds)
  }

  /** b is a with the same names and selectors and every range widened. */
  predicate GroupQcWidens(a: GroupQc, b: GroupQc)
  {
    && a.groupName == b.groupName
    && a.ionRatioPair1 == b.ionRatioPair1
    && a.ionRatioPair2 == b.ionRatioPair2
    && a.ionRatioFeature == b.ionRatioFeature
    && Widens(a.retentionTime, b.retentionTime)
    && Widens(a.intensity, b.intensity)
    && Widens(a.overallQuality, b.overallQuality)
    && Widens(a.nHeavy, b.nHeavy)
    && Widens(a.nLight, b.nLight)
    && Widens(a.nDetecting, b.nDetecting)
    && Widens(a.nQuantifying, b.nQuantifying)
    && Widens(a.nIdentifying, b.nIdentifying)
    && Widens(a.nTransitions, b.nTransitions)
    && Widens(a.ionRatio, b.ionRatio)
    && MetaQcsWiden(a.metaQc, b.metaQc)
  }

  predicate SubQcWidens(a: SubQc, b: SubQc)
  {
    && a.componentName == b.componentName
    && Widens(a.retentionTime, b.retentionTime)
    && Widens(a.intensity, b.intensity)
    && Widens(a.overallQuality, b.overallQuality)
    && MetaQcsWiden(a.metaQc, b.metaQc)
  }

  /** b is the criteria set a, criterion by criterion, with every range
      widened. */
  predicate CriteriaWiden(a: Criteria, b: Criteria)
  {
    && |a.groupQcs| == |b.groupQcs|
    && (forall m :: 0 <= m < |a.groupQcs| ==> GroupQcWidens(a.groupQcs[m], b.groupQcs[m]))
    && |a.subQcs| == |b.subQcs|
    && (forall m :: 0 <= m < |a.subQcs| ==> SubQcWidens(a.subQcs[m], b.subQcs[m]))
  }

  lemma MetaQcsWidenTransitive(a: seq<MetaCriterion>, b: seq<MetaCriterion>, c: seq<MetaCriterion>)
    requires MetaQcsWiden(a, b) && MetaQcsWiden(b, c)
    ensures MetaQcsWiden(a, c)
  {
    forall k | 0 <= k < |a|
      ensures Widens(a[k].bounds, c[k].bounds)
    {
      WidensTransitive(a[k].bounds, b[k].bounds, c[k].bounds);
    }
  }

  lemma CriteriaWidenTransitive(a: Criteria, b: Criteria, c: Criteria)
    requires CriteriaWiden(a, b) && CriteriaWiden(b, c)
    ensures CriteriaWiden(a, c)
  {
    forall m | 0 <= m < |a.groupQcs|
      ensures GroupQcWidens(a.groupQcs[m], c.groupQcs[m])
    {
      MetaQcsWidenTransitive(a.groupQcs[m].metaQc, b.groupQcs[m].metaQc, c.groupQcs[m].metaQc);
    }
    forall m | 0 <= m < |a.subQcs|
      ensures SubQcWidens(a.subQcs[m], c.subQcs[m])
    {
      MetaQcsWidenTransitive(a.subQcs[m].metaQc, b.subQcs[m].metaQc, c.subQcs[m].metaQc);
    }
  }

  // ---------------------------------------------------------------------
  // What a criterion covers

  /** If the criterion selects the pair (i, j) and its ion ratio is finite,
      the ratio lies in b. */
  predicate PairCovered(subs: seq<SubFeature>, i: nat, j: nat, q: GroupQc, b: Bounds)
    requires i < |subs| && j < |subs|
  {
    var r := IonRatio(subs[i], subs[j], q.ionRatioFeature);
    PairSelected(q, Name(subs[i]), Name(subs[j])) && r.Finite? ==> CheckRatio(r, b)
  }

  /** Every finite ion ratio the criterion selects with sub-feature i as the
      first of the pair lies in the ion-ratio range. */
  predicate RatioCovered(subs: seq<SubFeature>, i: nat, q: GroupQc)
    requires i < |subs|
  {
    forall j :: 0 <= j < |subs| ==> PairCovered(subs, i, j, q, q.ionRatio)
  }

  /** The group's retention time, intensity, quality, counts and annotations
      all lie in the criterion's ranges. */
  predicate GroupValuesCovered(g: Feature, c: LabelCounts, q: GroupQc)
  {
    GroupRangeFails(g, c, q) == [] && MetaCovered(g.meta, q.metaQc)
  }

  /** The sub-feature's retention time, intensity, quality and annotations
      all lie in the criterion's ranges. */
  predicate SubCovered(s: SubFeature, q: SubQc)
  {
    && CheckRange(s.rt, q.retentionTime)
    && CheckRange(s.intensity, q.intensity)
    && CheckRange(s.quality, q.overallQuality)
    && MetaCovered(s.meta, q.metaQc)
  }

  lemma MetaCoveredWidens(meta: map<string, real>, a: seq<MetaCriterion>, b: seq<MetaCriterion>)
    requires MetaCovered(meta, a) && MetaQcsWiden(a, b)
    ensures MetaCovered(meta, b)
  {
    forall k | 0 <= k < |b| && b[k].key in meta
      ensures CheckRange(meta[b[k].key], b[k].bounds)
    {
      WidensKeepsMembers(meta[a[k].key], a[k].bounds, b[k].bounds);
    }
  }

  lemma GroupValuesCoveredWidens(g: Feature, c: LabelCounts, a: GroupQc, b: GroupQc)
    requires GroupValuesCovered(g, c, a) && GroupQcWidens(a, b)
    ensures GroupValuesCovered(g, c, b)
  {
    MetaCoveredWidens(g.meta, a.metaQc, b.metaQc);
  }

  lemma RatioCoveredWidens(subs: seq<SubFeature>, i: nat, a: GroupQc, b: GroupQc)
    requires i < |subs|
    requires RatioCovered(subs, i, a) && GroupQcWidens(a, b)
    ensures RatioCovered(subs, i, b)
  {
    forall j | 0 <= j < |subs|
      ensures PairCovered(subs, i, j, b, b.ionRatio)
    {
      assert PairCovered(subs, i, j, a, a.ionRatio);
      var r := IonRatio(subs[i], subs[j], a.ionRatioFeature);
      if PairSelected(a, Name(subs[i]), Name(subs[j])) && r.Finite? {
        WidensKeepsMembers(r.value, a.ionRatio, b.ionRatio);
      }
    }
  }

  lemma SubCoveredWidens(s: SubFeature, a: SubQc, b: SubQc)
    requires SubCovered(s, a) && SubQcWidens(a, b)
    ensures SubCovered(s, b)
  {
    MetaCoveredWidens(s.meta, a.metaQc, b.metaQc);
  }

  lemma PairsCoveredWiden(subs: seq<SubFeature>, i: nat, q: GroupQc, a: Bounds, b: Bounds, n: nat)
    requires i < |subs| && n <= |subs|
    requires Widens(a, b)
    requires forall j :: 0 <= j < n ==> PairCovered(subs, i, j, q, a)
    ensures forall j :: 0 <= j < n ==> PairCovered(subs, i, j, q, b)
  {
    forall j | 0 <= j < n
      ensures PairCovered(subs, i, j, q, b)
    {
      assert PairCovered(subs, i, j, q, a);
      var r := IonRatio(subs[i], subs[j], q.ionRatioFeature);
      if PairSelected(q, Name(subs[i]), Name(subs[j])) && r.Finite? {
        WidensKeepsMembers(r.value, a, b);
      }
    }
  }

  /** Whether a pair is covered depends on the criterion only through its
      pair names and its ratio selector. */
  lemma PairsCoveredSameSelectors(subs: seq<SubFeature>, i: nat, q: GroupQc, q': GroupQc, b: Bounds)
    requires i < |subs|
    requires q.ionRatioPair1 == q'.ionRatioPair1 && q.ionRatioPair2 == q'.ionRatioPair2
    requires q.ionRatioFeature == q'.ionRatioFeature
    requires forall j :: 0 <= j < |subs| ==> PairCovered(subs, i, j, q, b)
    ensures forall j :: 0 <= j < |subs| ==> PairCovered(subs, i, j, q', b)
  {
    forall j | 0 <= j < |subs|
      ensures PairCovered(subs, i, j, q', b)
    {
      assert PairCovered(subs, i, j, q, b);
    }
  }

  // ---------------------------------------------------------------------
  // The updates

  /** updateMetaValue on every meta-value criterion, each against its own
      key. */
  function UpdateMetaQcs(meta: map<string, real>, mqs: seq<MetaCriterion>): (r: seq<MetaCriterion>)
    ensures MetaQcsWiden(mqs, r)
    ensures MetaCovered(meta, r)
    // a key the item does not carry keeps its range
    ensures forall k :: 0 <= k < |mqs| && mqs[k].key !in meta ==> r[k] == mqs[k]
  {
    seq(|mqs|, k requires 0 <= k < |mqs| => mqs[k].(bounds := UpdateMetaValue(meta, mqs[k].key, mqs[k].bounds)))
  }

  /** The ion-ratio loop run while visiting sub-feature i: the ion-ratio
      range after pairing sub-feature i with sub-features 0 .. n-1. */
  function UpdateIonRatios(subs: seq<SubFeature>, i: nat, q: GroupQc, n: nat): (b: Bounds)
    requires i < |subs| && n <= |subs|
    ensures Widens(q.ionRatio, b)
    ensures forall j :: 0 <= j < n ==> PairCovered(subs, i, j, q, b)
    // no selected pair, no change
    ensures (forall j :: 0 <= j < n ==> !PairSelected(q, Name(subs[i]), Name(subs[j]))) ==> b == q.ionRatio
    decreases n
  {
    if n == 0 then q.ionRatio
    else
      var prev := UpdateIonRatios(subs, i, q, n - 1);
      var j := n - 1;
      if PairSelected(q, Name(subs[i]), Name(subs[j])) then
        var r := IonRatio(subs[i], subs[j], q.ionRatioFeature);
        var b := UpdateRatio(r, prev);
        WidensTransitive(q.ionRatio, prev, b);
        PairsCoveredWiden(subs, i, q, prev, b, n - 1);
        b
      else prev
  }

  /** A matching group criterion, widened while visiting sub-feature i of
      group g, whose counts are c. */
  function UpdateGroupQc(g: Feature, c: LabelCounts, i: nat, q: GroupQc): (r: GroupQc)
    requires i < |g.subordinates|
    ensures GroupQcWidens(q, r)
    ensures GroupValuesCovered(g, c, r)
    ensures RatioCovered(g.subordinates, i, r)
  {
    var b := UpdateIonRatios(g.subordinates, i, q, |g.subordinates|);
    var r := q.(retentionTime := UpdateRange(g.rt, q.retentionTime),
       intensity := UpdateRange(g.intensity, q.intensity),
       overallQuality := UpdateRange(g.quality, q.overallQuality),
       nHeavy := UpdateRange(c.nHeavy as real, q.nHeavy),
       nLight := UpdateRange(c.nLight as real, q.nLight),
       nDetecting := UpdateRange(c.nDetecting as real, q.nDetecting),
       nQuantifying := UpdateRange(c.nQuantifying as real, q.nQuantifying),
       nIdentifying := UpdateRange(c.nIdentifying as real, q.nIdentifying),
       nTransitions := UpdateRange(c.nTransitions as real, q.nTransitions),
       ionRatio := b,
       metaQc := UpdateMetaQcs(g.meta, q.metaQc));
    PairsCoveredSameSelectors(g.subordinates, i, q, r, b);
    r
  }

  /** A matching sub-feature criterion, widened to sub-feature s. */
  function UpdateSubQc(s: SubFeature, q: SubQc): (r: SubQc)
    ensures SubQcWidens(q, r)
    ensures SubCovered(s, r)
  {
    q.(retentionTime := UpdateRange(s.rt, q.retentionTime),
       intensity := UpdateRange(s.intensity, q.intensity),
       overallQuality := UpdateRange(s.quality, q.overallQuality),
       metaQc := UpdateMetaQcs(s.meta, q.metaQc))
  }

  // ---------------------------------------------------------------------
  // The loops

  /** The body of the sub-feature loop: visiting sub-feature i of group g
      widens every group criterion named after g and every sub-feature
      criterion named after sub-feature i, and nothing else. */
  function VisitSub(g: Feature, c: LabelCounts, i: nat, crit: Criteria): (r: Criteria)
    requires i < |g.subordinates|
    ensures CriteriaWiden(crit, r)
    ensures forall m :: 0 <= m < |crit.groupQcs| && crit.groupQcs[m].groupName == g.peptideRef ==>
      GroupValuesCovered(g, c, r.groupQcs[m]) && RatioCovered(g.subordinates, i, r.groupQcs[m])
    ensures forall m :: 0 <= m < |crit.subQcs| && crit.subQcs[m].componentName == Name(g.subordinates[i]) ==>
      SubCovered(g.subordinates[i], r.subQcs[m])
    ensures forall m :: 0 <= m < |crit.groupQcs| && crit.groupQcs[m].groupName != g.peptideRef ==>
      r.groupQcs[m] == crit.groupQcs[m]
    ensures forall m :: 0 <= m < |crit.subQcs| && crit.subQcs[m].componentName != Name(g.subordinates[i]) ==>
      r.subQcs[m] == crit.subQcs[m]
  {
    var gq := crit.groupQcs;
    var sq := crit.subQcs;
    var s := g.subordinates[i];
    Criteria(
      seq(|gq|, m requires 0 <= m < |gq| => if gq[m].groupName == g.peptideRef then UpdateGroupQc(g, c, i, gq[m]) else gq[m]),
      seq(|sq|, m requires 0 <= m < |sq| => if sq[m].componentName == Name(s) then UpdateSubQc(s, sq[m]) else sq[m]))
  }

  /** The sub-feature loop over group g's first n sub-features. */
  function EstimateGroupUpTo(g: Feature, c: LabelCounts, crit: Criteria, n: nat): (r: Criteria)
    requires n <= |g.subordinates|
    ensures CriteriaWiden(crit, r)
    decreases n
  {
    if n == 0 then crit
    else
      var prev := EstimateGroupUpTo(g, c, crit, n - 1);
      var r := VisitSub(g, c, n - 1, prev);
      CriteriaWidenTransitive(crit, prev, r);
      r
  }

  /** One group of a sample: the counts are taken once, then the sub-feature
      loop runs. A group without sub-features changes nothing. */
  function EstimateGroup(g: Feature, ts: seq<Transition>, crit: Criteria): (r: Criteria)
    ensures CriteriaWiden(crit, r)
    ensures |g.subordinates| == 0 ==> r == crit
  {
    EstimateGroupUpTo(g, CountLabels(g.subordinates, ts), crit, |g.subordinates|)
  }

  /** The group loop over a sample's first n groups. */
  function EstimateSample(features: seq<Feature>, ts: seq<Transition>, crit: Criteria, n: nat): (r: Criteria)
    requires n <= |features|
    ensures CriteriaWiden(crit, r)
    decreases n
  {
    if n == 0 then crit
    else
      var prev := EstimateSample(features, ts, crit, n - 1);
      var r := EstimateGroup(features[n - 1], ts, prev);
      CriteriaWidenTransitive(crit, prev, r);
      r
  }

  /** The sample loop over the first n samples. */
  function EstimateSamples(samples: seq<seq<Feature>>, ts: seq<Transition>, crit: Criteria, n: nat): (r: Criteria)
    requires n <= |samples|
    ensures CriteriaWiden(crit, r)
    decreases n
  {
    if n == 0 then crit
    else
      var prev := EstimateSamples(samples, ts, crit, n - 1);
      var r := EstimateSample(samples[n - 1], ts, prev, |samples[n - 1]|);
      CriteriaWidenTransitive(crit, prev, r);
      r
  }

  /** EstimateDefaultMRMFeatureQCValues: the template widened to every
      sample. It keeps the template's shape and never narrows a range. */
  function EstimateDefaults(samples: seq<seq<Feature>>, template: Criteria, ts: seq<Transition>): (r: Criteria)
    ensures CriteriaWiden(template, r)
  {
    EstimateSamples(samples, ts, template, |samples|)
  }

  // ---------------------------------------------------------------------
  // What the estimate covers

  /** After the sub-feature loop has visited group g's first n sub-features:
      every criterion named after g covers the group's own values (once a
      sub-feature was visited) and the ion ratios that start at one of the
      visited sub-features, and every criterion named after a visited
      sub-feature covers it. */
  predicate GroupCoveredUpTo(g: Feature, c: LabelCounts, crit: Criteria, n: nat)
    requires n <= |g.subordinates|
  {
    && (forall m :: 0 <= m < |crit.groupQcs| && crit.groupQcs[m].groupName == g.peptideRef && n > 0 ==>
          GroupValuesCovered(g, c, crit.groupQcs[m]))
    && (forall m, i :: 0 <= m < |crit.groupQcs| && crit.groupQcs[m].groupName == g.peptideRef && 0 <= i < n ==>
          RatioCovered(g.subordinates, i, crit.groupQcs[m]))
    && (forall m, j :: 0 <= m < |crit.subQcs| && 0 <= j < n && crit.subQcs[m].componentName == Name(g.subordinates[j]) ==>
          SubCovered(g.subordinates[j], crit.subQcs[m]))
  }

  /** crit covers everything group g holds. */
  predicate GroupCovered(g: Feature, ts: seq<Transition>, crit: Criteria)
  {
    GroupCoveredUpTo(g, CountLabels(g.subordinates, ts), crit, |g.subordinates|)
  }

  lemma GroupCoveredUpToWidens(g: Feature, c: LabelCounts, a: Criteria, b: Criteria, n: nat)
    requires n <= |g.subordinates|
    requires GroupCoveredUpTo(g, c, a, n) && CriteriaWiden(a, b)
    ensures GroupCoveredUpTo(g, c, b, n)
  {
    forall m | 0 <= m < |b.groupQcs| && b.groupQcs[m].groupName == g.peptideRef && n > 0
      ensures GroupValuesCovered(g, c, b.groupQcs[m])
    {
      GroupValuesCoveredWidens(g, c, a.groupQcs[m], b.groupQcs[m]);
    }
    forall m, i | 0 <= m < |b.groupQcs| && b.groupQcs[m].groupName == g.peptideRef && 0 <= i < n
      ensures RatioCovered(g.subordinates, i, b.groupQcs[m])
    {
      RatioCoveredWidens(g.subordinates, i, a.groupQcs[m], b.groupQcs[m]);
    }
    forall m, j | 0 <= m < |b.subQcs| && 0 <= j < n && b.subQcs[m].componentName == Name(g.subordinates[j])
      ensures SubCovered(g.subordinates[j], b.subQcs[m])
    {
      SubCoveredWidens(g.subordinates[j], a.subQcs[m], b.subQcs[m]);
    }
  }

  /** Visiting sub-feature n-1 extends the coverage to it. */
  lemma VisitSubCovers(g: Feature, c: LabelCounts, prev: Criteria, n: nat)
    requires 0 < n <= |g.subordinates|
    requires GroupCoveredUpTo(g, c, prev, n - 1)
    ensures GroupCoveredUpTo(g, c, VisitSub(g, c, n - 1, prev), n)
  {
    var r := VisitSub(g, c, n - 1, prev);
    GroupCoveredUpToWidens(g, c, prev, r, n - 1);
    forall m, i | 0 <= m < |r.groupQcs| && r.groupQcs[m].groupName == g.peptideRef && 0 <= i < n
      ensures RatioCovered(g.subordinates, i, r.groupQcs[m])
    {
      if i < n - 1 {
        assert GroupCoveredUpTo(g, c, r, n - 1);
      }
    }
    forall m, j | 0 <= m < |r.subQcs| && 0 <= j < n && r.subQcs[m].componentName == Name(g.subordinates[j])
      ensures SubCovered(g.subordinates[j], r.subQcs[m])
    {
      if j < n - 1 {
        assert GroupCoveredUpTo(g, c, r, n - 1);
      }
    }
  }

  /** The sub-feature loop covers every sub-feature it visited. */
  lemma {:induction false} EstimateGroupUpToCovers(g: Feature, c: LabelCounts, crit: Criteria, n: nat)
    requires n <= |g.subordinates|
    ensures GroupCoveredUpTo(g, c, EstimateGroupUpTo(g, c, crit, n), n)
    decreases n
  {
    if n > 0 {
      var prev := EstimateGroupUpTo(g, c, crit, n - 1);
      EstimateGroupUpToCovers(g, c, crit, n - 1);
      VisitSubCovers(g, c, prev, n);
    }
  }

  lemma GroupCoveredWidens(g: Feature, ts: seq<Transition>, a: Criteria, b: Criteria)
    requires GroupCovered(g, ts, a) && CriteriaWiden(a, b)
    ensures GroupCovered(g, ts, b)
  {
    GroupCoveredUpToWidens(g, CountLabels(g.subordinates, ts), a, b, |g.subordinates|);
  }

  lemma SampleStepKeepsCover(features: seq<Feature>, ts: seq<Transition>, crit: Criteria, n: nat, k: nat)
    requires k < n - 1 && n <= |features|
    requires GroupCovered(features[k], ts, EstimateSample(features, ts, crit, n - 1))
    ensures GroupCovered(features[k], ts, EstimateSample(features, ts, crit, n))
  {
    var prev := EstimateSample(features, ts, crit, n - 1);
    GroupCoveredWidens(features[k], ts, prev, EstimateGroup(features[n - 1], ts, prev));
  }

  lemma SampleStepCovers(features: seq<Feature>, ts: seq<Transition>, crit: Criteria, n: nat, k: nat)
    requires k == n - 1 && n <= |features|
    ensures GroupCovered(features[k], ts, EstimateSample(features, ts, crit, n))
  {
    var g := features[k];
    var prev := EstimateSample(features, ts, crit, n - 1);
    EstimateGroupUpToCovers(g, CountLabels(g.subordinates, ts), prev, |g.subordinates|);
    assert EstimateSample(features, ts, crit, n) == EstimateGroup(g, ts, prev);
  }

  /** The group loop covers group k of the sample once it has visited it. */
  lemma {:induction false} EstimateSampleCovers(features: seq<Feature>, ts: seq<Transition>, crit: Criteria, n: nat, k: nat)
    requires k < n <= |features|
    ensures GroupCovered(features[k], ts, EstimateSample(features, ts, crit, n))
    decreases n
  {
    if k < n - 1 {
      EstimateSampleCovers(features, ts, crit, n - 1, k);
      SampleStepKeepsCover(features, ts, crit, n, k);
    } else {
      SampleStepCovers(features, ts, crit, n, k);
    }
  }

  lemma SamplesStepKeepsCover(samples: seq<seq<Feature>>, ts: seq<Transition>, crit: Criteria, n: nat, p: nat, k: nat)
    requires p < n - 1 && n <= |samples| && k < |samples[p]|
    requires GroupCovered(samples[p][k], ts, EstimateSamples(samples, ts, crit, n - 1))
    ensures GroupCovered(samples[p][k], ts, EstimateSamples(samples, ts, crit, n))
  {
    var prev := EstimateSamples(samples, ts, crit, n - 1);
    GroupCoveredWidens(samples[p][k], ts, prev, EstimateSample(samples[n - 1], ts, prev, |samples[n - 1]|));
  }

  lemma SamplesStepCovers(samples: seq<seq<Feature>>, ts: seq<Transition>, crit: Criteria, n: nat, k: nat)
    requires 0 < n <= |samples| && k < |samples[n - 1]|
    ensures GroupCovered(samples[n - 1][k], ts, EstimateSamples(samples, ts, crit, n))
  {
    EstimateSampleCovers(samples[n - 1], ts, EstimateSamples(samples, ts, crit, n - 1), |samples[n - 1]|, k);
  }

  /** The sample loop covers group k of sample p once it has visited it. */
  lemma {:induction false} EstimateSamplesCover(samples: seq<seq<Feature>>, ts: seq<Transition>, crit: Criteria, n: nat, p: nat, k: nat)
    requires p < n <= |samples| && k < |samples[p]|
    ensures GroupCovered(samples[p][k], ts, EstimateSamples(samples, ts, crit, n))
    decreases n
  {
    if p < n - 1 {
      EstimateSamplesCover(samples, ts, crit, n - 1, p, k);
      SamplesStepKeepsCover(samples, ts, crit, n, p, k);
    } else {
      SamplesStepCovers(samples, ts, crit, n, k);
    }
  }

  /** The estimated criteria cover every group and sub-feature of every
      sample: each criterion named after a group holds the group's values,
      counts, annotations and finite ion ratios, and each criterion named
      after a sub-feature holds its values and annotations. */
  lemma EstimateDefaultsCovers(samples: seq<seq<Feature>>, template: Criteria, ts: seq<Transition>)
    ensures forall p, k :: 0 <= p < |samples| && 0 <= k < |samples[p]| ==>
      GroupCovered(samples[p][k], ts, EstimateDefaults(samples, template, ts))
  {
    forall p, k | 0 <= p < |samples| && 0 <= k < |samples[p]|
      ensures GroupCovered(samples[p][k], ts, EstimateDefaults(samples, template, ts))
    {
      EstimateSamplesCover(samples, ts, template, |samples|, p, k);
    }
  }

  // ---------------------------------------------------------------------
  // What the estimate leaves alone

  /** Every group of the samples named name has no sub-features, so the
      sub-feature loop never reaches a criterion with that name. */
  predicate NoGroupNamed(samples: seq<seq<Feature>>, name: string)
  {
    forall p, k :: 0 <= p < |samples| && 0 <= k < |samples[p]| ==>
      samples[p][k].peptideRef != name || |samples[p][k].subordinates| == 0
  }

  /** No sub-feature of the samples is named name. */
  predicate NoSubNamed(samples: seq<seq<Feature>>, name: string)
  {
    forall p, k, j :: 0 <= p < |samples| && 0 <= k < |samples[p]| && 0 <= j < |samples[p][k].subordinates| ==>
      Name(samples[p][k].subordinates[j]) != name
  }

  lemma {:induction false} GroupKeepsUnnamedGroupQc(g: Feature, c: LabelCounts, crit: Criteria, n: nat, m: nat)
    requires n <= |g.subordinates| && m < |crit.groupQcs|
    requires crit.groupQcs[m].groupName != g.peptideRef || n == 0
    ensures EstimateGroupUpTo(g, c, crit, n).groupQcs[m] == crit.groupQcs[m]
    decreases n
  {
    if n > 0 {
      GroupKeepsUnnamedGroupQc(g, c, crit, n - 1, m);
    }
  }

  lemma {:induction false} GroupKeepsUnnamedSubQc(g: Feature, c: LabelCounts, crit: Criteria, n: nat, m: nat)
    requires n <= |g.subordinates| && m < |crit.subQcs|
    requires forall j :: 0 <= j < n ==> Name(g.subordinates[j]) != crit.subQcs[m].componentName
    ensures EstimateGroupUpTo(g, c, crit, n).subQcs[m] == crit.subQcs[m]
    decreases n
  {
    if n > 0 {
      GroupKeepsUnnamedSubQc(g, c, crit, n - 1, m);
    }
  }

  lemma {:induction false} SampleKeepsUnnamedGroupQc(features: seq<Feature>, ts: seq<Transition>, crit: Criteria, n: nat, m: nat)
    requires n <= |features| && m < |crit.groupQcs|
    requires forall k :: 0 <= k < n ==>
      features[k].peptideRef != crit.groupQcs[m].groupName || |features[k].subordinates| == 0
    ensures EstimateSample(features, ts, crit, n).groupQcs[m] == crit.groupQcs[m]
    decreases n
  {
    if n > 0 {
      SampleKeepsUnnamedGroupQc(features, ts, crit, n - 1, m);
      var g := features[n - 1];
      var prev := EstimateSample(features, ts, crit, n - 1);
      GroupKeepsUnnamedGroupQc(g, CountLabels(g.subordinates, ts), prev, |g.subordinates|, m);
    }
  }

  lemma {:induction false} SampleKeepsUnnamedSubQc(features: seq<Feature>, ts: seq<Transition>, crit: Criteria, n: nat, m: nat)
    requires n <= |features| && m < |crit.subQcs|
    requires forall k, j :: 0 <= k < n && 0 <= j < |features[k].subordinates| ==>
      Name(features[k].subordinates[j]) != crit.subQcs[m].componentName
    ensures EstimateSample(features, ts, crit, n).subQcs[m] == crit.subQcs[m]
    decreases n
  {
    if n > 0 {
      SampleKeepsUnnamedSubQc(features, ts, crit, n - 1, m);
      var g := features[n - 1];
      var prev := EstimateSample(features, ts, crit, n - 1);
      GroupKeepsUnnamedSubQc(g, CountLabels(g.subordinates, ts), prev, |g.subordinates|, m);
    }
  }

  lemma {:induction false} SamplesKeepUnnamedGroupQc(samples: seq<seq<Feature>>, ts: seq<Transition>, crit: Criteria, n: nat, m: nat)
    requires n <= |samples| && m < |crit.groupQcs|
    requires NoGroupNamed(samples[..n], crit.groupQcs[m].groupName)
    ensures EstimateSamples(samples, ts, crit, n).groupQcs[m] == crit.groupQcs[m]
    decreases n
  {
    if n > 0 {
      assert samples[..n - 1] == samples[..n][..n - 1];
      SamplesKeepUnnamedGroupQc(samples, ts, crit, n - 1, m);
      var f := samples[n - 1];
      assert samples[..n][n - 1] == f;
      SampleKeepsUnnamedGroupQc(f, ts, EstimateSamples(samples, ts, crit, n - 1), |f|, m);
    }
  }

  lemma {:induction false} SamplesKeepUnnamedSubQc(samples: seq<seq<Feature>>, ts: seq<Transition>, crit: Criteria, n: nat, m: nat)
    requires n <= |samples| && m < |crit.subQcs|
    requires NoSubNamed(samples[..n], crit.subQcs[m].componentName)
    ensures EstimateSamples(samples, ts, crit, n).subQcs[m] == crit.subQcs[m]
    decreases n
  {
    if n > 0 {
      assert samples[..n - 1] == samples[..n][..n - 1];
      SamplesKeepUnnamedSubQc(samples, ts, crit, n - 1, m);
      var f := samples[n - 1];
      assert samples[..n][n - 1] == f;
      SampleKeepsUnnamedSubQc(f, ts, EstimateSamples(samples, ts, crit, n - 1), |f|, m);
    }
  }

  /** A group criterion that names no group with sub-features comes out as
      the template gave it. */
  lemma EstimateKeepsUnnamedGroupQc(samples: seq<seq<Feature>>, template: Criteria, ts: seq<Transition>, m: nat)
    requires m < |template.groupQcs|
    requires NoGroupNamed(samples, template.groupQcs[m].groupName)
    ensures EstimateDefaults(samples, template, ts).groupQcs[m] == template.groupQcs[m]
  {
    assert samples[..|samples|] == samples;
    SamplesKeepUnnamedGroupQc(samples, ts, template, |samples|, m);
  }

  /** A sub-feature criterion that names no sub-feature comes out as the
      template gave it. */
  lemma EstimateKeepsUnnamedSubQc(samples: seq<seq<Feature>>, template: Criteria, ts: seq<Transition>, m: nat)
    requires m < |template.subQcs|
    requires NoSubNamed(samples, template.subQcs[m].componentName)
    ensures EstimateDefaults(samples, template, ts).subQcs[m] == template.subQcs[m]
  {
    assert samples[..|samples|] == samples;
    SamplesKeepUnnamedSubQc(samples, ts, template, |samples|, m);
  }

  // ---------------------------------------------------------------------
  // A worked example

  const Empty := Bounds(100.0, -100.0)

  /** A template for group "pep" whose ranges are all empty. */
  const EmptyTemplate := Criteria([GroupQc("pep", Empty, Empty, Empty, Empty, Empty, Empty, Empty, Empty, Empty,
    "", "", "", Empty, [])], [])

  function OneSubGroup(rt: real): Feature
  {
    Feature("pep", rt, 1.0, 1.0, [SubFeature(Some("t1"), "Light", rt, 1.0, 1.0, map[], None)], map[], None)
  }

  lemma OneSubGroupEstimate(rt: real, crit: Criteria)
    requires |crit.groupQcs| == 1 && crit.groupQcs[0].groupName == "pep" && crit.subQcs == []
    ensures EstimateSample([OneSubGroup(rt)], [], crit, 1).groupQcs[0].retentionTime
      == UpdateRange(rt, crit.groupQcs[0].retentionTime)
  {
    var g := OneSubGroup(rt);
    assert EstimateSample([g], [], crit, 1) == EstimateGroup(g, [], crit);
    assert EstimateGroup(g, [], crit) == VisitSub(g, CountLabels(g.subordinates, []), 0, crit);
  }

  lemma FirstSampleEstimate(samples: seq<seq<Feature>>)
    requires |samples| == 2 && samples[0] == [OneSubGroup(15.0)]
    ensures var first := EstimateSamples(samples, [], EmptyTemplate, 1);
      && |first.groupQcs| == 1 && first.groupQcs[0].groupName == "pep" && first.subQcs == []
      && first.groupQcs[0].retentionTime == Bounds(15.0, 15.0)
  {
    assert EstimateSamples(samples, [], EmptyTemplate, 1) == EstimateSample([OneSubGroup(15.0)], [], EmptyTemplate, 1);
    OneSubGroupEstimate(15.0, EmptyTemplate);
  }

  /** Estimating from the empty range over two samples, the first holding
      a group at retention time 15 and the second a group at 30, gives the
      range [15, 30]. */
  lemma EstimateFromEmptyTemplate()
    ensures EstimateDefaults([[OneSubGroup(15.0)], [OneSubGroup(30.0)]], EmptyTemplate, [])
      .groupQcs[0].retentionTime == Bounds(15.0, 30.0)
  {
    var samples := [[OneSubGroup(15.0)], [OneSubGroup(30.0)]];
    var first := EstimateSamples(samples, [], EmptyTemplate, 1);
    FirstSampleEstimate(samples);
    assert EstimateDefaults(samples, EmptyTemplate, []) == EstimateSample([OneSubGroup(30.0)], [], first, 1);
    OneSubGroupEstimate(30.0, first);
  }
}
