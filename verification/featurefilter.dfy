/** FilterFeatureMap: runs the group-level and sub-feature-level checks over
    every group, scores each item, and then either annotates every item with
    its verdict (flag mode) or keeps only the passing items (filter mode). */
module FeatureFilter {
  import opened Features
  import opened Labels
  import opened IonRatios
  import opened Messages
  import opened Checks

  // ---------------------------------------------------------------------
  // The verdicts, stated per item

  /** A sub-feature's own verdict. */
  function SubVerdict(s: SubFeature, crit: Criteria): Tally
  {
    SubTally(s, crit.subQcs)
  }

  /** The sub-feature with its QC_transition_score attached. */
  function Scored(s: SubFeature, t: Tally): SubFeature
  {
    s.(meta := s.meta[TransitionScoreKey := Score(t)])
  }

  function ScoredSub(s: SubFeature, crit: Criteria): SubFeature
  {
    Scored(s, SubVerdict(s, crit))
  }

  /** The sub-features as the group checks see them while sub-feature i is
      visited: those before i already carry their score, the rest are as
      given. */
  function ScoredView(subs: seq<SubFeature>, crit: Criteria, i: nat): (v: seq<SubFeature>)
    ensures |v| == |subs|
  {
    seq(|subs|, j requires 0 <= j < |subs| => if j < i then ScoredSub(subs[j], crit) else subs[j])
  }

  /** The group's verdict over its first n sub-features: the group criteria
      are run once per sub-feature visited. */
  function GroupVerdictUpTo(g: Feature, crit: Criteria, ts: seq<Transition>, n: nat): (t: Tally)
    requires n <= |g.subordinates|
    ensures Consistent(t)
    decreases n
  {
    if n == 0 then NoTests
    else
      var subs := g.subordinates;
      Join(GroupVerdictUpTo(g, crit, ts, n - 1),
        GroupTallyAt(g, ScoredView(subs, crit, n - 1), n - 1, CountLabels(subs, ts), crit.groupQcs))
  }

  /** The group passes its first n visits exactly when it passes each one. */
  lemma {:induction false} GroupVerdictUpToPasses(g: Feature, crit: Criteria, ts: seq<Transition>, n: nat)
    requires n <= |g.subordinates|
    ensures Passed(GroupVerdictUpTo(g, crit, ts, n)) <==>
      forall i :: 0 <= i < n ==>
        Passed(GroupTallyAt(g, ScoredView(g.subordinates, crit, i), i, CountLabels(g.subordinates, ts), crit.groupQcs))
    decreases n
  {
    if n > 0 {
      GroupVerdictUpToPasses(g, crit, ts, n - 1);
    }
  }

  /** A group's own verdict. */
  function GroupVerdict(g: Feature, crit: Criteria, ts: seq<Transition>): (t: Tally)
    ensures Consistent(t)
  {
    GroupVerdictUpTo(g, crit, ts, |g.subordinates|)
  }

  /** The verdict written on an item in flag mode: the pass flag and the
      sorted, de-duplicated failure messages. */
  function Verdict(t: Tally): QcFlag
  {
    QcFlag(Passed(t), UniqueSorted(t.fails))
  }

  /** A sub-feature as flag mode leaves it. */
  function FlaggedSub(s: SubFeature, crit: Criteria): SubFeature
  {
    ScoredSub(s, crit).(qc := Some(Verdict(SubVerdict(s, crit))))
  }

  /** A group as flag mode leaves it. */
  function FlaggedGroup(g: Feature, crit: Criteria, ts: seq<Transition>): Feature
  {
    var v := GroupVerdict(g, crit, ts);
    var subs := g.subordinates;
    g.(meta := g.meta[GroupScoreKey := Score(v)],
       qc := Some(Verdict(v)),
       subordinates := seq(|subs|, j requires 0 <= j < |subs| => FlaggedSub(subs[j], crit)))
  }

  /** The sub-features that pass their own checks, scored, in order. */
  function PassingSubs(subs: seq<SubFeature>, crit: Criteria): seq<SubFeature>
    decreases |subs|
  {
    if |subs| == 0 then []
    else
      var s := subs[|subs| - 1];
      PassingSubs(subs[..|subs| - 1], crit) + (if Passed(SubVerdict(s, crit)) then [ScoredSub(s, crit)] else [])
  }

  /** Filter mode keeps a group that passes its own checks and has a
      sub-feature that passes its own. */
  predicate Retains(g: Feature, crit: Criteria, ts: seq<Transition>)
  {
    && Passed(GroupVerdict(g, crit, ts))
    && exists j :: 0 <= j < |g.subordinates| && Passed(SubVerdict(g.subordinates[j], crit))
  }

  /** A kept group as filter mode leaves it: scored, with only its passing
      sub-features. */
  function KeptGroup(g: Feature, crit: Criteria, ts: seq<Transition>): Feature
  {
    g.(meta := g.meta[GroupScoreKey := Score(GroupVerdict(g, crit, ts))],
       subordinates := PassingSubs(g.subordinates, crit))
  }

  /** The groups filter mode keeps, in order. */
  function Retained(features: seq<Feature>, crit: Criteria, ts: seq<Transition>): seq<Feature>
    decreases |features|
  {
    if |features| == 0 then []
    else
      var g := features[|features| - 1];
      Retained(features[..|features| - 1], crit, ts) + (if Retains(g, crit, ts) then [KeptGroup(g, crit, ts)] else [])
  }

  // ---------------------------------------------------------------------
  // The source's loops

  /** What the inner loop body leaves of sub-feature s once its own checks
      gave t: the score always; in flag mode also the pass flag and the
      message list. */
  function Annotate(s: SubFeature, t: Tally, mode: Mode): SubFeature
  {
    var s1 := Scored(s, t);
    match mode
    case Filter => s1
    case Flag =>
      if Passed(t) then s1.(qc := Some(QcFlag(true, [])))
      else s1.(qc := Some(QcFlag(false, UniqueSorted(t.fails))))
  }

  /** The state of the inner loop: the group's sub-features as annotated so
      far, the group-level tally, and the passing sub-features kept in
      filter mode. */
  datatype SubLoop = SubLoop(subs: seq<SubFeature>, group: Tally, kept: seq<SubFeature>)

  /** The inner loop after visiting sub-features 0 .. n-1. */
  function VisitSubs(g: Feature, c: LabelCounts, crit: Criteria, mode: Mode, n: nat): (st: SubLoop)
    requires n <= |g.subordinates|
    ensures |st.subs| == |g.subordinates|
    ensures forall j :: 0 <= j < |g.subordinates| ==>
      st.subs[j] == if j < n then Annotate(g.subordinates[j], SubVerdict(g.subordinates[j], crit), mode)
                    else g.subordinates[j]
    ensures Consistent(st.group)
    decreases n
  {
    if n == 0 then SubLoop(g.subordinates, NoTests, [])
    else
      var prev := VisitSubs(g, c, crit, mode, n - 1);
      var i := n - 1;
      var s := prev.subs[i];
      var gt := GroupTallyAt(g, prev.subs, i, c, crit.groupQcs);
      var st := SubTally(s, crit.subQcs);
      var s' := Annotate(s, st, mode);
      SubLoop(prev.subs[i := s'], Join(prev.group, gt),
        if mode == Filter && Passed(st) then prev.kept + [s'] else prev.kept)
  }

  /** One pass of the outer loop over group g: the group as left in the
      map, and what it adds to the filtered map. */
  function VisitGroup(g: Feature, crit: Criteria, ts: seq<Transition>, mode: Mode): (Feature, seq<Feature>)
  {
    var c := CountLabels(g.subordinates, ts);
    var loop := VisitSubs(g, c, crit, mode, |g.subordinates|);
    var g1 := g.(meta := g.meta[GroupScoreKey := Score(loop.group)], subordinates := loop.subs);
    match mode
    case Flag =>
      if Passed(loop.group) then (g1.(qc := Some(QcFlag(true, []))), [])
      else (g1.(qc := Some(QcFlag(false, UniqueSorted(loop.group.fails)))), [])
    case Filter =>
      (g1, if Passed(loop.group) && |loop.kept| > 0 then [g1.(subordinates := loop.kept)] else [])
  }

  /** The state of the outer loop: the map as annotated so far and the
      filtered map built so far. */
  datatype MapLoop = MapLoop(features: seq<Feature>, filtered: seq<Feature>)

  function VisitGroups(features: seq<Feature>, crit: Criteria, ts: seq<Transition>, mode: Mode, n: nat): (st: MapLoop)
    requires n <= |features|
    ensures |st.features| == |features|
    ensures forall k :: 0 <= k < |features| ==>
      st.features[k] == if k < n then VisitGroup(features[k], crit, ts, mode).0 else features[k]
    decreases n
  {
    if n == 0 then MapLoop(features, [])
    else
      var prev := VisitGroups(features, crit, ts, mode, n - 1);
      var (g', added) := VisitGroup(features[n - 1], crit, ts, mode);
      MapLoop(prev.features[n - 1 := g'], prev.filtered + added)
  }

  /** FilterFeatureMap. In flag mode the result is the map with every group
      and sub-feature annotated with its verdict; in filter mode it is the
      groups that pass their own checks and keep a passing sub-feature, each
      cut down to its passing sub-features. */
  function FilterFeatureMap(features: seq<Feature>, crit: Criteria, ts: seq<Transition>, mode: Mode): (r: seq<Feature>)
    ensures mode == Flag ==>
      |r| == |features| && forall k :: 0 <= k < |r| ==> r[k] == FlaggedGroup(features[k], crit, ts)
    ensures mode == Filter ==> r == Retained(features, crit, ts)
  {
    var st := VisitGroups(features, crit, ts, mode, |features|);
    if mode == Filter then
      FilteredMap(features, crit, ts, |features|);
      assert features[..|features|] == features;
      st.filtered
    else
      FlaggedMap(features, crit, ts);
      st.features
  }

  // ---------------------------------------------------------------------
  // The loops compute the verdicts

  /** Two sub-feature lists that agree on everything the group checks read:
      the native ids, the intensities and the annotations. */
  predicate SameReadings(a: seq<SubFeature>, b: seq<SubFeature>)
  {
    && |a| == |b|
    && forall j :: 0 <= j < |a| ==>
         a[j].nativeId == b[j].nativeId && a[j].intensity == b[j].intensity && a[j].meta == b[j].meta
  }

  lemma {:induction false} IonRatioTallyReadings(a: seq<SubFeature>, b: seq<SubFeature>, i: nat, q: GroupQc, n: nat)
    requires SameReadings(a, b) && i < |a| && n <= |a|
    ensures IonRatioTally(a, i, q, n) == IonRatioTally(b, i, q, n)
    decreases n
  {
    if n > 0 {
      IonRatioTallyReadings(a, b, i, q, n - 1);
      assert Name(a[i]) == Name(b[i]) && Name(a[n - 1]) == Name(b[n - 1]);
      assert IonRatio(a[i], a[n - 1], q.ionRatioFeature) == IonRatio(b[i], b[n - 1], q.ionRatioFeature);
    }
  }

  /** The group checks give the same tally on lists with the same readings. */
  lemma {:induction false} GroupTallyAtReadings(g: Feature, a: seq<SubFeature>, b: seq<SubFeature>, i: nat, c: LabelCounts, qcs: seq<GroupQc>)
    requires SameReadings(a, b) && i < |a|
    ensures GroupTallyAt(g, a, i, c, qcs) == GroupTallyAt(g, b, i, c, qcs)
    decreases |qcs|
  {
    if |qcs| > 0 {
      GroupTallyAtReadings(g, a, b, i, c, qcs[..|qcs| - 1]);
      IonRatioTallyReadings(a, b, i, qcs[|qcs| - 1], |a|);
    }
  }

  /** Annotating a sub-feature keeps its id and intensity and gives it the
      same meta values as scoring it, in either mode. */
  lemma AnnotateReadings(s: SubFeature, t: Tally, mode: Mode)
    ensures Annotate(s, t, mode).nativeId == s.nativeId
    ensures Annotate(s, t, mode).intensity == s.intensity
    ensures Annotate(s, t, mode).meta == Scored(s, t).meta
  {
    match mode
    case Filter =>
    case Flag =>
  }

  /** After n visits the inner loop's sub-features read like the scored
      view the group checks see at sub-feature n. */
  lemma VisitSubsReadings(g: Feature, c: LabelCounts, crit: Criteria, mode: Mode, n: nat)
    requires n <= |g.subordinates|
    ensures SameReadings(VisitSubs(g, c, crit, mode, n).subs, ScoredView(g.subordinates, crit, n))
  {
    var subs := VisitSubs(g, c, crit, mode, n).subs;
    var view := ScoredView(g.subordinates, crit, n);
    forall j | 0 <= j < |view|
      ensures subs[j].nativeId == view[j].nativeId
      ensures subs[j].intensity == view[j].intensity
      ensures subs[j].meta == view[j].meta
    {
      var s := g.subordinates[j];
      if j < n {
        AnnotateReadings(s, SubVerdict(s, crit), mode);
      }
    }
  }

  /** Visiting sub-feature n-1 adds the group checks as they read the
      scored view. */
  lemma VisitSubsGroupStep(g: Feature, c: LabelCounts, crit: Criteria, mode: Mode, n: nat)
    requires 0 < n <= |g.subordinates|
    ensures VisitSubs(g, c, crit, mode, n).group
      == Join(VisitSubs(g, c, crit, mode, n - 1).group, GroupTallyAt(g, ScoredView(g.subordinates, crit, n - 1), n - 1, c, crit.groupQcs))
  {
    VisitSubsGroupTally(g, c, crit, mode, n - 1);
  }

  /** The group checks at sub-feature i read the loop's sub-features as the
      scored view. */
  lemma VisitSubsGroupTally(g: Feature, c: LabelCounts, crit: Criteria, mode: Mode, i: nat)
    requires i < |g.subordinates|
    ensures GroupTallyAt(g, VisitSubs(g, c, crit, mode, i).subs, i, c, crit.groupQcs)
      == GroupTallyAt(g, ScoredView(g.subordinates, crit, i), i, c, crit.groupQcs)
  {
    VisitSubsReadings(g, c, crit, mode, i);
    GroupTallyAtReadings(g, VisitSubs(g, c, crit, mode, i).subs, ScoredView(g.subordinates, crit, i), i, c, crit.groupQcs);
  }

  /** The inner loop's group tally is the group's verdict, in either mode. */
  lemma {:induction false} VisitSubsGroup(g: Feature, crit: Criteria, ts: seq<Transition>, mode: Mode, n: nat)
    requires n <= |g.subordinates|
    ensures VisitSubs(g, CountLabels(g.subordinates, ts), crit, mode, n).group == GroupVerdictUpTo(g, crit, ts, n)
    decreases n
  {
    if n > 0 {
      VisitSubsGroup(g, crit, ts, mode, n - 1);
      VisitSubsGroupStep(g, CountLabels(g.subordinates, ts), crit, mode, n);
    }
  }

  /** In filter mode the inner loop keeps exactly the passing sub-features. */
  lemma {:induction false} VisitSubsKept(g: Feature, c: LabelCounts, crit: Criteria, n: nat)
    requires n <= |g.subordinates|
    ensures VisitSubs(g, c, crit, Filter, n).kept == PassingSubs(g.subordinates[..n], crit)
    decreases n
  {
    if n > 0 {
      VisitSubsKept(g, c, crit, n - 1);
      assert g.subordinates[..n][..n - 1] == g.subordinates[..n - 1];
    }
  }

  /** A passing sub-feature is kept. */
  lemma {:induction false} PassingSubsKeep(subs: seq<SubFeature>, crit: Criteria, j: nat)
    requires j < |subs| && Passed(SubVerdict(subs[j], crit))
    ensures |PassingSubs(subs, crit)| > 0
    decreases |subs|
  {
    var p := subs[..|subs| - 1];
    if j < |p| {
      assert p[j] == subs[j];
      PassingSubsKeep(p, crit, j);
    }
  }

  /** A kept sub-feature is one that passes. */
  lemma {:induction false} PassingSubsWitness(subs: seq<SubFeature>, crit: Criteria) returns (j: nat)
    requires |PassingSubs(subs, crit)| > 0
    ensures j < |subs| && Passed(SubVerdict(subs[j], crit))
    decreases |subs|
  {
    var p := subs[..|subs| - 1];
    if Passed(SubVerdict(subs[|subs| - 1], crit)) {
      j := |subs| - 1;
    } else {
      j := PassingSubsWitness(p, crit);
      assert p[j] == subs[j];
    }
  }

  /** Some sub-feature is kept exactly when some sub-feature passes. */
  lemma PassingSubsNonEmpty(subs: seq<SubFeature>, crit: Criteria)
    ensures |PassingSubs(subs, crit)| > 0 <==> exists j :: 0 <= j < |subs| && Passed(SubVerdict(subs[j], crit))
  {
    if |PassingSubs(subs, crit)| > 0 {
      var j := PassingSubsWitness(subs, crit);
    }
    if exists j :: 0 <= j < |subs| && Passed(SubVerdict(subs[j], crit)) {
      var j :| 0 <= j < |subs| && Passed(SubVerdict(subs[j], crit));
      PassingSubsKeep(subs, crit, j);
    }
  }

  /** The flag-mode annotation of a sub-feature is its verdict. */
  lemma AnnotateFlag(s: SubFeature, crit: Criteria)
    ensures Annotate(s, SubVerdict(s, crit), Flag) == FlaggedSub(s, crit)
  {
    UniqueSortedEmpty(SubVerdict(s, crit).fails);
  }

  lemma VisitGroupFlag(g: Feature, crit: Criteria, ts: seq<Transition>)
    ensures VisitGroup(g, crit, ts, Flag).0 == FlaggedGroup(g, crit, ts)
  {
    var subs := g.subordinates;
    var loop := VisitSubs(g, CountLabels(subs, ts), crit, Flag, |subs|);
    VisitSubsGroup(g, crit, ts, Flag, |subs|);
    UniqueSortedEmpty(loop.group.fails);
    forall j | 0 <= j < |subs|
      ensures loop.subs[j] == FlaggedSub(subs[j], crit)
    {
      AnnotateFlag(subs[j], crit);
    }
    assert loop.subs == seq(|subs|, j requires 0 <= j < |subs| => FlaggedSub(subs[j], crit));
  }

  lemma VisitGroupFilter(g: Feature, crit: Criteria, ts: seq<Transition>)
    ensures VisitGroup(g, crit, ts, Filter).1 == if Retains(g, crit, ts) then [KeptGroup(g, crit, ts)] else []
  {
    var subs := g.subordinates;
    var c := CountLabels(subs, ts);
    VisitSubsGroup(g, crit, ts, Filter, |subs|);
    VisitSubsKept(g, c, crit, |subs|);
    assert subs[..|subs|] == subs;
    PassingSubsNonEmpty(subs, crit);
  }

  lemma RetainedLast(features: seq<Feature>, crit: Criteria, ts: seq<Transition>, n: nat)
    requires 0 < n <= |features|
    ensures Retained(features[..n], crit, ts)
      == Retained(features[..n - 1], crit, ts)
         + (if Retains(features[n - 1], crit, ts) then [KeptGroup(features[n - 1], crit, ts)] else [])
  {
    var fn := features[..n];
    assert fn[..|fn| - 1] == features[..n - 1];
    assert fn[|fn| - 1] == features[n - 1];
  }

  lemma VisitGroupsLast(features: seq<Feature>, crit: Criteria, ts: seq<Transition>, mode: Mode, n: nat)
    requires 0 < n <= |features|
    ensures VisitGroups(features, crit, ts, mode, n).filtered
      == VisitGroups(features, crit, ts, mode, n - 1).filtered + VisitGroup(features[n - 1], crit, ts, mode).1
  {
  }

  /** The map the outer loop leaves in flag mode is every group flagged. */
  lemma FlaggedMap(features: seq<Feature>, crit: Criteria, ts: seq<Transition>)
    ensures var st := VisitGroups(features, crit, ts, Flag, |features|);
      forall k :: 0 <= k < |features| ==> st.features[k] == FlaggedGroup(features[k], crit, ts)
  {
    var st := VisitGroups(features, crit, ts, Flag, |features|);
    forall k | 0 <= k < |features|
      ensures st.features[k] == FlaggedGroup(features[k], crit, ts)
    {
      VisitGroupFlag(features[k], crit, ts);
    }
  }

  /** The filtered map the outer loop builds is the retained groups. */
  lemma {:induction false} FilteredMap(features: seq<Feature>, crit: Criteria, ts: seq<Transition>, n: nat)
    requires n <= |features|
    ensures VisitGroups(features, crit, ts, Filter, n).filtered == Retained(features[..n], crit, ts)
    decreases n
  {
    if n > 0 {
      FilteredMap(features, crit, ts, n - 1);
      VisitGroupFilter(features[n - 1], crit, ts);
      VisitGroupsLast(features, crit, ts, Filter, n);
      RetainedLast(features, crit, ts, n);
    } else {
      assert features[..0] == [];
    }
  }
}
