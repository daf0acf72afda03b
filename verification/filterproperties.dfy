/** What FilterFeatureMap promises its callers: scores within [0, 1], a
    score of 1 when nothing was tested, messages that are empty exactly for
    passing items, flag and filter modes that agree, and the source's
    per-sub-feature accumulation of group checks. */
module FilterProperties {
  import opened Ranges
  import opened Features
  import opened Labels
  import opened Messages
  import opened Checks
  import opened FeatureFilter

  /** Every score flag mode writes lies in [0, 1]. */
  lemma FlagScoresInUnitInterval(features: seq<Feature>, crit: Criteria, ts: seq<Transition>)
    ensures var r := FilterFeatureMap(features, crit, ts, Flag);
      && (forall k :: 0 <= k < |r| ==>
           GroupScoreKey in r[k].meta && 0.0 <= r[k].meta[GroupScoreKey] <= 1.0)
      && (forall k, j :: 0 <= k < |r| && 0 <= j < |r[k].subordinates| ==>
           TransitionScoreKey in r[k].subordinates[j].meta
           && 0.0 <= r[k].subordinates[j].meta[TransitionScoreKey] <= 1.0)
  {
  }

  /** Every score filter mode writes lies in [0, 1], and every kept item
      passed, so its score is exactly 1. */
  lemma FilterScoresAreOne(features: seq<Feature>, crit: Criteria, ts: seq<Transition>)
    ensures AllScoresOne(FilterFeatureMap(features, crit, ts, Filter))
  {
    assert FilterFeatureMap(features, crit, ts, Filter) == Retained(features, crit, ts);
    RetainedScores(features, crit, ts);
  }

  lemma {:induction false} PassingSubsScores(subs: seq<SubFeature>, crit: Criteria)
    ensures forall j :: 0 <= j < |PassingSubs(subs, crit)| ==>
      TransitionScoreKey in PassingSubs(subs, crit)[j].meta
      && PassingSubs(subs, crit)[j].meta[TransitionScoreKey] == 1.0
    decreases |subs|
  {
    if |subs| > 0 {
      PassingSubsScores(subs[..|subs| - 1], crit);
    }
  }

  /** Every group of r, and every sub-feature beneath it, carries the score 1. */
  predicate AllScoresOne(r: seq<Feature>)
  {
    && (forall k :: 0 <= k < |r| ==> GroupScoreKey in r[k].meta && r[k].meta[GroupScoreKey] == 1.0)
    && (forall k, j :: 0 <= k < |r| && 0 <= j < |r[k].subordinates| ==>
         TransitionScoreKey in r[k].subordinates[j].meta
         && r[k].subordinates[j].meta[TransitionScoreKey] == 1.0)
  }

  lemma KeptGroupScores(g: Feature, crit: Criteria, ts: seq<Transition>)
    requires Retains(g, crit, ts)
    ensures AllScoresOne([KeptGroup(g, crit, ts)])
  {
    PassingSubsScores(g.subordinates, crit);
    assert Score(GroupVerdict(g, crit, ts)) == 1.0;
  }

  lemma AllScoresOneAppend(a: seq<Feature>, b: seq<Feature>)
    requires AllScoresOne(a) && AllScoresOne(b)
    ensures AllScoresOne(a + b)
  {
    var r := a + b;
    forall k | 0 <= k < |r|
      ensures r[k] == if k < |a| then a[k] else b[k - |a|]
    {
    }
  }

  lemma {:induction false} RetainedScores(features: seq<Feature>, crit: Criteria, ts: seq<Transition>)
    ensures AllScoresOne(Retained(features, crit, ts))
    decreases |features|
  {
    if |features| > 0 {
      var g := features[|features| - 1];
      RetainedScores(features[..|features| - 1], crit, ts);
      if Retains(g, crit, ts) {
        KeptGroupScores(g, crit, ts);
        AllScoresOneAppend(Retained(features[..|features| - 1], crit, ts), [KeptGroup(g, crit, ts)]);
      } else {
        assert Retained(features, crit, ts) == Retained(features[..|features| - 1], crit, ts) + [];
      }
    }
  }

  /** A group without sub-features is never tested: the group checks run
      inside the sub-feature loop. Its score is 1 and it passes. */
  lemma NoSubFeaturesNoGroupTests(g: Feature, crit: Criteria, ts: seq<Transition>)
    requires |g.subordinates| == 0
    ensures GroupVerdict(g, crit, ts) == NoTests
    ensures FlaggedGroup(g, crit, ts).meta[GroupScoreKey] == 1.0
    ensures FlaggedGroup(g, crit, ts).qc == Some(QcFlag(true, []))
  {
  }

  lemma {:induction false} UnmatchedGroupUpTo(g: Feature, crit: Criteria, ts: seq<Transition>, n: nat)
    requires n <= |g.subordinates|
    requires forall k :: 0 <= k < |crit.groupQcs| ==> crit.groupQcs[k].groupName != g.peptideRef
    ensures GroupVerdictUpTo(g, crit, ts, n) == NoTests
    decreases n
  {
    if n > 0 {
      UnmatchedGroupUpTo(g, crit, ts, n - 1);
      UnmatchedGroupTally(g, ScoredView(g.subordinates, crit, n - 1), n - 1, CountLabels(g.subordinates, ts), crit.groupQcs);
    }
  }

  /** A group no criterion names is never tested: score 1, pass, no message. */
  lemma UnmatchedGroupScoresOne(g: Feature, crit: Criteria, ts: seq<Transition>)
    requires forall k :: 0 <= k < |crit.groupQcs| ==> crit.groupQcs[k].groupName != g.peptideRef
    ensures GroupVerdict(g, crit, ts) == NoTests
    ensures FlaggedGroup(g, crit, ts).meta[GroupScoreKey] == 1.0
    ensures FlaggedGroup(g, crit, ts).qc == Some(QcFlag(true, []))
  {
    UnmatchedGroupUpTo(g, crit, ts, |g.subordinates|);
  }

  /** A sub-feature no criterion names is never tested: score 1, pass. */
  lemma UnmatchedSubScoresOne(s: SubFeature, crit: Criteria)
    requires forall k :: 0 <= k < |crit.subQcs| ==> crit.subQcs[k].componentName != Name(s)
    ensures FlaggedSub(s, crit).meta[TransitionScoreKey] == 1.0
    ensures FlaggedSub(s, crit).qc == Some(QcFlag(true, []))
  {
    UnmatchedSubTally(s, crit.subQcs);
  }

  /** In flag mode the message is empty exactly when the item passes, and
      it is sorted and free of repeats. */
  lemma FlagMessages(g: Feature, crit: Criteria, ts: seq<Transition>)
    ensures var f := FlaggedGroup(g, crit, ts);
      && f.qc.Some?
      && (f.qc.value.pass <==> f.qc.value.message == [])
      && StrictlySorted(f.qc.value.message)
      && forall j :: 0 <= j < |f.subordinates| ==>
           f.subordinates[j].qc.Some?
           && (f.subordinates[j].qc.value.pass <==> f.subordinates[j].qc.value.message == [])
           && StrictlySorted(f.subordinates[j].qc.value.message)
  {
    UniqueSortedEmpty(GroupVerdict(g, crit, ts).fails);
    forall j | 0 <= j < |g.subordinates| {
      UniqueSortedEmpty(SubVerdict(g.subordinates[j], crit).fails);
    }
  }

  /** Flag mode changes nothing but the annotations: the map keeps its size
      and order, every group and sub-feature keeps its name and
      measurements, and every annotation other than the score it writes. */
  lemma FlagKeepsData(features: seq<Feature>, crit: Criteria, ts: seq<Transition>)
    ensures var r := FilterFeatureMap(features, crit, ts, Flag);
      && |r| == |features|
      && forall k :: 0 <= k < |r| ==>
        && r[k].peptideRef == features[k].peptideRef
        && r[k].rt == features[k].rt
        && r[k].intensity == features[k].intensity
        && r[k].quality == features[k].quality
        && |r[k].subordinates| == |features[k].subordinates|
        && (forall key :: key in features[k].meta && key != GroupScoreKey ==>
              key in r[k].meta && r[k].meta[key] == features[k].meta[key])
        && (forall j :: 0 <= j < |r[k].subordinates| ==>
             r[k].subordinates[j].(meta := features[k].subordinates[j].meta, qc := None)
               == features[k].subordinates[j].(qc := None))
        && forall j, key ::
             0 <= j < |r[k].subordinates| && key in features[k].subordinates[j].meta && key != TransitionScoreKey ==>
             key in r[k].subordinates[j].meta && r[k].subordinates[j].meta[key] == features[k].subordinates[j].meta[key]
  {
  }

  /** Flag and filter mode agree: filter mode keeps a group exactly when
      flag mode marks it passing and marks one of its sub-features passing,
      and it keeps exactly the sub-features flag mode marks passing. */
  lemma {:induction false} ModesAgree(g: Feature, crit: Criteria, ts: seq<Transition>)
    ensures var f := FlaggedGroup(g, crit, ts);
      Retains(g, crit, ts) <==>
        f.qc.value.pass && exists j :: 0 <= j < |f.subordinates| && f.subordinates[j].qc.value.pass
    ensures PassingSubs(g.subordinates, crit) == FlaggedPassing(g.subordinates, crit)
  {
    var f := FlaggedGroup(g, crit, ts);
    if exists j :: 0 <= j < |g.subordinates| && Passed(SubVerdict(g.subordinates[j], crit)) {
      var j :| 0 <= j < |g.subordinates| && Passed(SubVerdict(g.subordinates[j], crit));
      assert f.subordinates[j].qc.value.pass;
    }
    PassingSubsAreFlaggedPassing(g.subordinates, crit);
  }

  /** The sub-features flag mode marks passing, with the score but without
      the flag-mode annotations. */
  function FlaggedPassing(subs: seq<SubFeature>, crit: Criteria): seq<SubFeature>
    decreases |subs|
  {
    if |subs| == 0 then []
    else
      var s := subs[|subs| - 1];
      var f := FlaggedSub(s, crit);
      FlaggedPassing(subs[..|subs| - 1], crit) + (if f.qc.value.pass then [f.(qc := s.qc)] else [])
  }

  lemma {:induction false} PassingSubsAreFlaggedPassing(subs: seq<SubFeature>, crit: Criteria)
    ensures PassingSubs(subs, crit) == FlaggedPassing(subs, crit)
    decreases |subs|
  {
    if |subs| > 0 {
      PassingSubsAreFlaggedPassing(subs[..|subs| - 1], crit);
    }
  }

  // ---------------------------------------------------------------------
  // A worked scenario

  const Wide := Bounds(-1000.0, 1000.0)

  /** A criterion on group "pep": retention time within [10, 20], everything
      else within wide bounds, no ion-ratio pair, no meta-value criteria. */
  const RtCriterion := GroupQc("pep", Bounds(10.0, 20.0), Wide, Wide, Wide, Wide, Wide, Wide, Wide, Wide,
    "", "", "", Wide, [])

  const Sub1 := SubFeature(Some("t1"), "Light", 15.0, 100.0, 1.0, map[], None)
  const Sub2 := SubFeature(Some("t2"), "Light", 15.0, 100.0, 1.0, map[], None)

  function Group(rt: real, subs: seq<SubFeature>): Feature
  {
    Feature("pep", rt, 100.0, 1.0, subs, map[], None)
  }

  /** A group at retention time 15 passes the [10, 20] check. */
  lemma RetentionTimeInRangePasses()
    ensures GroupVerdict(Group(15.0, [Sub1]), Criteria([RtCriterion], []), []) == Tally([], 9)
  {
    var g := Group(15.0, [Sub1]);
    var c := CountLabels(g.subordinates, []);
    assert c == LabelCounts(0, 1, 1, 0, 1, 1) by {
      assert [Sub1][..0] == [];
    }
    var view := ScoredView(g.subordinates, Criteria([RtCriterion], []), 0);
    NoPairNoIonTests(view, 0, 1);
    assert GroupRangeFails(g, c, RtCriterion) == [];
    assert GroupCriterionTally(g, view, 0, c, RtCriterion) == Tally([], 9);
    assert [RtCriterion][..0] == [];
    assert GroupTallyAt(g, view, 0, c, [RtCriterion]) == Tally([], 9);
    assert GroupVerdictUpTo(g, Criteria([RtCriterion], []), [], 1) == Join(NoTests, Tally([], 9));
  }

  lemma TwoSubsCounts()
    ensures CountLabels([Sub1, Sub2], []) == LabelCounts(0, 2, 2, 0, 2, 2)
  {
    assert [Sub1, Sub2][..1] == [Sub1];
    assert [Sub1][..0] == [];
  }

  /** No ion-ratio pair is configured, so no ion-ratio test is counted. */
  lemma {:induction false} NoPairNoIonTests(subs: seq<SubFeature>, i: nat, n: nat)
    requires i < |subs| && n <= |subs|
    ensures IonRatioTally(subs, i, RtCriterion, n) == NoTests
    decreases n
  {
    if n > 0 {
      NoPairNoIonTests(subs, i, n - 1);
    }
  }

  /** Each visit of a sub-feature runs the nine range checks once and fails
      the retention-time check. */
  lemma LateGroupTallyAt(subs: seq<SubFeature>, i: nat)
    requires i < |subs|
    ensures GroupTallyAt(Group(25.0, [Sub1, Sub2]), subs, i, LabelCounts(0, 2, 2, 0, 2, 2), [RtCriterion])
      == Tally(["retention_time"], 9)
  {
    var g := Group(25.0, [Sub1, Sub2]);
    var c := LabelCounts(0, 2, 2, 0, 2, 2);
    NoPairNoIonTests(subs, i, |subs|);
    assert GroupRangeFails(g, c, RtCriterion) == ["retention_time"];
    assert GroupCriterionTally(g, subs, i, c, RtCriterion) == Tally(["retention_time"], 9);
    assert [RtCriterion][..0] == [];
  }

  lemma DuplicateMessageOnce()
    ensures UniqueSorted(["retention_time", "retention_time"]) == ["retention_time"]
  {
    var m := ["retention_time", "retention_time"];
    assert m[..1] == ["retention_time"];
    assert m[..1][..0] == [];
  }

  /** At retention time 25 the group fails with "retention_time", once per
      sub-feature: with two sub-features it collects the message twice out
      of 18 tests, and flag mode reports it once. */
  lemma RetentionTimeOutOfRangeFails()
    ensures GroupVerdict(Group(25.0, [Sub1, Sub2]), Criteria([RtCriterion], []), [])
      == Tally(["retention_time", "retention_time"], 18)
    ensures FlaggedGroup(Group(25.0, [Sub1, Sub2]), Criteria([RtCriterion], []), []).qc
      == Some(QcFlag(false, ["retention_time"]))
  {
    var g := Group(25.0, [Sub1, Sub2]);
    var crit := Criteria([RtCriterion], []);
    TwoSubsCounts();
    LateGroupTallyAt(ScoredView(g.subordinates, crit, 0), 0);
    LateGroupTallyAt(ScoredView(g.subordinates, crit, 1), 1);
    assert GroupVerdictUpTo(g, crit, [], 1) == Tally(["retention_time"], 9);
    assert GroupVerdict(g, crit, []) == Tally(["retention_time", "retention_time"], 18);
    DuplicateMessageOnce();
  }
}
