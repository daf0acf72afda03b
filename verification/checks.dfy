/** The individual QC checks FilterFeatureMap runs: group-level checks at one
    sub-feature, and a sub-feature's own checks. Each run of checks yields the
    failure messages it appended and the number of tests it counted. */
module Checks {
  import opened Ranges
  import opened Features
  import opened Labels
  import opened IonRatios
  import opened MetaValues

  /** Failure messages in the order they were appended, and the number of
      tests counted toward the score. */
  datatype Tally = Tally(fails: seq<string>, tests: nat)

  const NoTests := Tally([], 0)

  function Join(a: Tally, b: Tally): Tally
  {
    Tally(a.fails + b.fails, a.tests + b.tests)
  }

  /** At most one failure per counted test. */
  predicate Consistent(t: Tally)
  {
    |t.fails| <= t.tests
  }

  /** The source clears its pass flag exactly where it appends a failure
      message, so an item passes when no message was appended. */
  predicate Passed(t: Tally)
  {
    |t.fails| == 0
  }

  /** QC_transition_score / QC_transition_group_score: one minus the share
      of counted tests that failed, or 1 when nothing was counted. */
  function Score(t: Tally): (r: real)
    ensures Consistent(t) ==> 0.0 <= r <= 1.0
    ensures t.tests == 0 ==> r == 1.0
    ensures Consistent(t) ==> (r == 1.0 <==> Passed(t))
  {
    if t.tests == 0 then 1.0
    else 1.0 - (|t.fails| as real) / (t.tests as real)
  }

  /** The message a failed range check appends: none when v is in range. */
  function RangeFail(v: real, b: Bounds, name: string): (f: seq<string>)
    ensures f == [] <==> CheckRange(v, b)
    ensures |f| <= 1
  {
    if CheckRange(v, b) then [] else [name]
  }

  /** The nine group range checks: retention time, intensity, quality and
      the six counts, in the order the source runs them. */
  function GroupRangeFails(g: Feature, c: LabelCounts, q: GroupQc): (f: seq<string>)
    ensures |f| <= 9
    ensures f == [] <==>
      && CheckRange(g.rt, q.retentionTime)
      && CheckRange(g.intensity, q.intensity)
      && CheckRange(g.quality, q.overallQuality)
      && CheckRange(c.nHeavy as real, q.nHeavy)
      && CheckRange(c.nLight as real, q.nLight)
      && CheckRange(c.nDetecting as real, q.nDetecting)
      && CheckRange(c.nQuantifying as real, q.nQuantifying)
      && CheckRange(c.nIdentifying as real, q.nIdentifying)
      && CheckRange(c.nTransitions as real, q.nTransitions)
  {
    RangeFail(g.rt, q.retentionTime, "retention_time")
    + RangeFail(g.intensity, q.intensity, "intensity")
    + RangeFail(g.quality, q.overallQuality, "overall_quality")
    + RangeFail(c.nHeavy as real, q.nHeavy, "n_heavy")
    + RangeFail(c.nLight as real, q.nLight, "n_light")
    + RangeFail(c.nDetecting as real, q.nDetecting, "n_detecting")
    + RangeFail(c.nQuantifying as real, q.nQuantifying, "n_quantifying")
    + RangeFail(c.nIdentifying as real, q.nIdentifying, "n_identifying")
    + RangeFail(c.nTransitions as real, q.nTransitions, "n_transitions")
  }

  /** The ordered pair (name1, name2) is the criterion's ion-ratio pair;
      both configured names must be non-empty. */
  predicate PairSelected(q: GroupQc, name1: string, name2: string)
  {
    q.ionRatioPair1 != "" && q.ionRatioPair2 != ""
    && q.ionRatioPair1 == name1 && q.ionRatioPair2 == name2
  }

  function IonRatioMessage(name1: string, name2: string): string
  {
    "ion_ratio_pair[" + name1 + "/" + name2 + "]"
  }

  /** The ion-ratio checks that pair sub-feature i with sub-features
      0 .. n-1 (sub-feature i itself included). */
  function IonRatioTally(subs: seq<SubFeature>, i: nat, q: GroupQc, n: nat): (t: Tally)
    requires i < |subs| && n <= |subs|
    ensures Consistent(t)
    ensures t.tests <= n
    decreases n
  {
    if n == 0 then NoTests
    else
      var prev := IonRatioTally(subs, i, q, n - 1);
      var j := n - 1;
      if PairSelected(q, Name(subs[i]), Name(subs[j])) then
        var r := IonRatio(subs[i], subs[j], q.ionRatioFeature);
        var f := if CheckRatio(r, q.ionRatio) then [] else [IonRatioMessage(Name(subs[i]), Name(subs[j]))];
        Join(prev, Tally(f, 1))
      else prev
  }

  /** The meta-value checks of one criterion, in order: an annotation that
      exists is a counted test; one that is absent neither fails nor counts. */
  function MetaTally(meta: map<string, real>, mqs: seq<MetaCriterion>): (t: Tally)
    ensures Consistent(t)
    ensures t.tests <= |mqs|
    decreases |mqs|
  {
    if |mqs| == 0 then NoTests
    else
      var prev := MetaTally(meta, mqs[..|mqs| - 1]);
      var m := mqs[|mqs| - 1];
      var c := CheckMetaValue(meta, m.key, m.bounds);
      Join(prev, Tally(if c.pass then [] else [m.key], if c.keyExists then 1 else 0))
  }

  /** Every annotation the criteria name and meta holds lies in range. */
  predicate MetaCovered(meta: map<string, real>, mqs: seq<MetaCriterion>)
  {
    forall k :: 0 <= k < |mqs| && mqs[k].key in meta ==> CheckRange(meta[mqs[k].key], mqs[k].bounds)
  }

  /** The meta-value checks pass exactly when every annotation they name
      that exists lies in its range. */
  lemma {:induction false} MetaTallyPasses(meta: map<string, real>, mqs: seq<MetaCriterion>)
    ensures Passed(MetaTally(meta, mqs)) <==> MetaCovered(meta, mqs)
    decreases |mqs|
  {
    if |mqs| > 0 {
      var p := mqs[..|mqs| - 1];
      var m := mqs[|mqs| - 1];
      MetaTallyPasses(meta, p);
      assert Passed(MetaTally(meta, mqs)) <==> Passed(MetaTally(meta, p)) && CheckMetaValue(meta, m.key, m.bounds).pass;
      MetaCoveredLast(meta, mqs);
    }
  }

  /** MetaCovered splits into the criteria before the last and the last. */
  lemma MetaCoveredLast(meta: map<string, real>, mqs: seq<MetaCriterion>)
    requires |mqs| > 0
    ensures var m := mqs[|mqs| - 1];
      MetaCovered(meta, mqs) <==> MetaCovered(meta, mqs[..|mqs| - 1]) && (m.key in meta ==> CheckRange(meta[m.key], m.bounds))
  {
    var p := mqs[..|mqs| - 1];
    assert forall k :: 0 <= k < |p| ==> p[k] == mqs[k];
  }

  /** Every ratio the criterion selects for sub-feature i among the first n
      passes the ion-ratio check. */
  predicate RatiosAccepted(subs: seq<SubFeature>, i: nat, q: GroupQc, n: nat)
    requires i < |subs| && n <= |subs|
  {
    forall j :: 0 <= j < n && PairSelected(q, Name(subs[i]), Name(subs[j])) ==>
      CheckRatio(IonRatio(subs[i], subs[j], q.ionRatioFeature), q.ionRatio)
  }

  /** The ion-ratio checks pass exactly when every selected ratio does. */
  lemma {:induction false} IonRatioTallyPasses(subs: seq<SubFeature>, i: nat, q: GroupQc, n: nat)
    requires i < |subs| && n <= |subs|
    ensures Passed(IonRatioTally(subs, i, q, n)) <==> RatiosAccepted(subs, i, q, n)
    decreases n
  {
    if n > 0 {
      IonRatioTallyPasses(subs, i, q, n - 1);
    }
  }

  /** A selected partner whose ratio is non-finite or outside the range
      records a failure. */
  lemma IonRatioFailureRecorded(subs: seq<SubFeature>, i: nat, q: GroupQc, n: nat, j: nat)
    requires i < |subs| && j < n <= |subs|
    requires PairSelected(q, Name(subs[i]), Name(subs[j]))
    requires var r := IonRatio(subs[i], subs[j], q.ionRatioFeature); r.NonFinite? || !CheckRange(r.value, q.ionRatio)
    ensures !Passed(IonRatioTally(subs, i, q, n))
  {
    IonRatioTallyPasses(subs, i, q, n);
    assert !CheckRatio(IonRatio(subs[i], subs[j], q.ionRatioFeature), q.ionRatio);
  }

  /** One matching group criterion, run while visiting sub-feature i. */
  function GroupCriterionTally(g: Feature, subs: seq<SubFeature>, i: nat, c: LabelCounts, q: GroupQc): (t: Tally)
    requires i < |subs|
    ensures Consistent(t)
    ensures t.tests >= 9
  {
    var ion := IonRatioTally(subs, i, q, |subs|);
    var mv := MetaTally(g.meta, q.metaQc);
    Tally(GroupRangeFails(g, c, q) + ion.fails + mv.fails, 9 + ion.tests + mv.tests)
  }

  /** Every group criterion named after the group, run while visiting
      sub-feature i; subs is the sub-feature list as it stands then. */
  function GroupTallyAt(g: Feature, subs: seq<SubFeature>, i: nat, c: LabelCounts, qcs: seq<GroupQc>): (t: Tally)
    requires i < |subs|
    ensures Consistent(t)
    decreases |qcs|
  {
    if |qcs| == 0 then NoTests
    else
      var prev := GroupTallyAt(g, subs, i, c, qcs[..|qcs| - 1]);
      var q := qcs[|qcs| - 1];
      if q.groupName == g.peptideRef then Join(prev, GroupCriterionTally(g, subs, i, c, q)) else prev
  }

  /** The group checks at one sub-feature pass exactly when every criterion
      named after the group passes. */
  lemma {:induction false} GroupTallyAtPasses(g: Feature, subs: seq<SubFeature>, i: nat, c: LabelCounts, qcs: seq<GroupQc>)
    requires i < |subs|
    ensures Passed(GroupTallyAt(g, subs, i, c, qcs)) <==>
      forall m :: 0 <= m < |qcs| && qcs[m].groupName == g.peptideRef ==> Passed(GroupCriterionTally(g, subs, i, c, qcs[m]))
    decreases |qcs|
  {
    if |qcs| > 0 {
      var p := qcs[..|qcs| - 1];
      GroupTallyAtPasses(g, subs, i, c, p);
      assert forall m :: 0 <= m < |p| ==> p[m] == qcs[m];
    }
  }

  /** The group checks count nothing when no criterion names the group. */
  lemma {:induction false} UnmatchedGroupTally(g: Feature, subs: seq<SubFeature>, i: nat, c: LabelCounts, qcs: seq<GroupQc>)
    requires i < |subs|
    requires forall k :: 0 <= k < |qcs| ==> qcs[k].groupName != g.peptideRef
    ensures GroupTallyAt(g, subs, i, c, qcs) == NoTests
    decreases |qcs|
  {
    if |qcs| > 0 {
      UnmatchedGroupTally(g, subs, i, c, qcs[..|qcs| - 1]);
    }
  }

  /** One matching sub-feature criterion: three range checks and the
      meta-value checks. */
  function SubCriterionTally(s: SubFeature, q: SubQc): (t: Tally)
    ensures Consistent(t)
    ensures t.tests >= 3
  {
    var mv := MetaTally(s.meta, q.metaQc);
    Tally(RangeFail(s.rt, q.retentionTime, "retention_time")
      + RangeFail(s.intensity, q.intensity, "intensity")
      + RangeFail(s.quality, q.overallQuality, "overall_quality")
      + mv.fails,
      3 + mv.tests)
  }

  /** A sub-feature's own checks: every criterion named after it. */
  function SubTally(s: SubFeature, qcs: seq<SubQc>): (t: Tally)
    ensures Consistent(t)
    decreases |qcs|
  {
    if |qcs| == 0 then NoTests
    else
      var prev := SubTally(s, qcs[..|qcs| - 1]);
      var q := qcs[|qcs| - 1];
      if q.componentName == Name(s) then Join(prev, SubCriterionTally(s, q)) else prev
  }

  /** A sub-feature's checks pass exactly when every criterion named after
      it passes. */
  lemma {:induction false} SubTallyPasses(s: SubFeature, qcs: seq<SubQc>)
    ensures Passed(SubTally(s, qcs)) <==>
      forall m :: 0 <= m < |qcs| && qcs[m].componentName == Name(s) ==> Passed(SubCriterionTally(s, qcs[m]))
    decreases |qcs|
  {
    if |qcs| > 0 {
      var p := qcs[..|qcs| - 1];
      SubTallyPasses(s, p);
      assert forall m :: 0 <= m < |p| ==> p[m] == qcs[m];
    }
  }

  /** A sub-feature's checks count nothing when no criterion names it. */
  lemma {:induction false} UnmatchedSubTally(s: SubFeature, qcs: seq<SubQc>)
    requires forall k :: 0 <= k < |qcs| ==> qcs[k].componentName != Name(s)
    ensures SubTally(s, qcs) == NoTests
    decreases |qcs|
  {
    if |qcs| > 0 {
      UnmatchedSubTally(s, qcs[..|qcs| - 1]);
    }
  }
}
