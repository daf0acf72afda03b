/** countLabelsAndTransitionTypes: the six per-group counts derived from the
    sub-features' label tags and the transition reference table. */
module Labels {
  import opened Features

  datatype LabelCounts = LabelCounts(
    nHeavy: nat,
    nLight: nat,
    nQuantifying: nat,
    nIdentifying: nat,
    nDetecting: nat,
    nTransitions: nat)

  const NoCounts := LabelCounts(0, 0, 0, 0, 0, 0)

  /** The transition a sub-feature falls back on when no entry of the table
      matches it: a default-constructed transition, taken to be detecting
      and quantifying but not identifying. */
  const Unmatched := Transition("", true, false, true)

  /** The first transition whose native id equals id. An absent id matches
      nothing, since the source compares the table's id with the absent
      annotation value. */
  function FindTransition(ts: seq<Transition>, id: Option<string>): (r: Option<Transition>)
    ensures r.Some? ==> id.Some? && r.value.nativeId == id.value
    decreases |ts|
  {
    if |ts| == 0 || id.None? then None
    else if ts[0].nativeId == id.value then Some(ts[0])
    else FindTransition(ts[1..], id)
  }

  /** The match is the first entry of the table carrying the id; there is
      none exactly when no entry carries it or the id is absent. */
  lemma {:induction false} FindTransitionIsFirst(ts: seq<Transition>, id: Option<string>)
    ensures var r := FindTransition(ts, id);
      r.None? <==> id.None? || forall k :: 0 <= k < |ts| ==> ts[k].nativeId != id.value
    ensures var r := FindTransition(ts, id);
      r.Some? ==> exists k :: (0 <= k < |ts| && ts[k] == r.value
        && forall k' :: 0 <= k' < k ==> ts[k'].nativeId != id.value)
    decreases |ts|
  {
    if |ts| > 0 && id.Some? && ts[0].nativeId != id.value {
      var r := FindTransition(ts[1..], id);
      FindTransitionIsFirst(ts[1..], id);
      assert forall k :: 1 <= k < |ts| ==> ts[k] == ts[1..][k - 1];
      if r.Some? {
        var k :| 0 <= k < |ts[1..]| && ts[1..][k] == r.value
          && forall k' :: 0 <= k' < k ==> ts[1..][k'].nativeId != id.value;
        assert ts[k + 1] == r.value;
      }
    }
  }

  /** The transition a sub-feature is counted against. */
  function Matched(ts: seq<Transition>, s: SubFeature): Transition
  {
    match FindTransition(ts, s.nativeId)
    case Some(t) => t
    case None => Unmatched
  }

  function Indicator(b: bool): nat
  {
    if b then 1 else 0
  }

  /** What one sub-feature adds to the counts. */
  function CountOne(s: SubFeature, ts: seq<Transition>): LabelCounts
  {
    var t := Matched(ts, s);
    LabelCounts(
      Indicator(s.labelType == "Heavy"),
      Indicator(s.labelType != "Heavy" && s.labelType == "Light"),
      Indicator(t.quantifying),
      Indicator(t.identifying),
      Indicator(t.detecting),
      1)
  }

  function Add(a: LabelCounts, b: LabelCounts): LabelCounts
  {
    LabelCounts(a.nHeavy + b.nHeavy, a.nLight + b.nLight,
      a.nQuantifying + b.nQuantifying, a.nIdentifying + b.nIdentifying,
      a.nDetecting + b.nDetecting, a.nTransitions + b.nTransitions)
  }

  /** The counts over a group's sub-features, in order. */
  function CountLabels(subs: seq<SubFeature>, ts: seq<Transition>): (c: LabelCounts)
    ensures c.nTransitions == |subs|
    ensures c.nHeavy + c.nLight <= c.nTransitions
    ensures c.nQuantifying <= c.nTransitions
    ensures c.nIdentifying <= c.nTransitions
    ensures c.nDetecting <= c.nTransitions
    decreases |subs|
  {
    if |subs| == 0 then NoCounts
    else Add(CountLabels(subs[..|subs| - 1], ts), CountOne(subs[|subs| - 1], ts))
  }

  lemma AddAssociative(a: LabelCounts, b: LabelCounts, c: LabelCounts)
    ensures Add(Add(a, b), c) == Add(a, Add(b, c))
  {
  }

  /** Counting a + b ends with counting the last sub-feature of b. */
  lemma CountLabelsLast(a: seq<SubFeature>, b: seq<SubFeature>, ts: seq<Transition>)
    requires |b| > 0
    ensures CountLabels(a + b, ts) == Add(CountLabels(a + b[..|b| - 1], ts), CountOne(b[|b| - 1], ts))
  {
    assert (a + b)[..|a + b| - 1] == a + b[..|b| - 1];
    assert (a + b)[|a + b| - 1] == b[|b| - 1];
  }

  /** Counting a concatenation adds up the counts of its parts. */
  lemma {:induction false} CountLabelsAppend(a: seq<SubFeature>, b: seq<SubFeature>, ts: seq<Transition>)
    ensures CountLabels(a + b, ts) == Add(CountLabels(a, ts), CountLabels(b, ts))
    decreases |b|
  {
    if |b| == 0 {
      assert a + b == a;
      var c := CountLabels(a, ts);
      assert CountLabels(b, ts) == NoCounts;
      assert Add(c, NoCounts) == c;
    } else {
      var b', x := b[..|b| - 1], b[|b| - 1];
      CountLabelsAppend(a, b', ts);
      CountLabelsLast(a, b, ts);
      AddAssociative(CountLabels(a, ts), CountLabels(b', ts), CountOne(x, ts));
    }
  }

  /** A sub-feature without a matching transition is counted with the
      fallback's types: one more transition, quantifying and detecting, and
      no more identifying. */
  lemma UnmatchedCountsFallback(subs: seq<SubFeature>, s: SubFeature, ts: seq<Transition>)
    requires FindTransition(ts, s.nativeId).None?
    ensures var c, c' := CountLabels(subs, ts), CountLabels(subs + [s], ts);
      && c'.nQuantifying == c.nQuantifying + Indicator(Unmatched.quantifying)
      && c'.nIdentifying == c.nIdentifying + Indicator(Unmatched.identifying)
      && c'.nDetecting == c.nDetecting + Indicator(Unmatched.detecting)
      && c'.nTransitions == c.nTransitions + 1
    ensures var c, c' := CountLabels(subs, ts), CountLabels(subs + [s], ts);
      c'.nQuantifying == c.nQuantifying + 1 && c'.nIdentifying == c.nIdentifying && c'.nDetecting == c.nDetecting + 1
  {
    assert (subs + [s])[..|subs + [s]| - 1] == subs;
  }

  /** The label tags of the sub-features, in order. */
  function Tags(subs: seq<SubFeature>): seq<string>
  {
    seq(|subs|, i requires 0 <= i < |subs| => subs[i].labelType)
  }

  datatype TransitionType = Quantifying | Identifying | Detecting

  function HasType(t: Transition, k: TransitionType): bool
  {
    match k
    case Quantifying => t.quantifying
    case Identifying => t.identifying
    case Detecting => t.detecting
  }

  /** Whether the matched transition of each sub-feature has type k, in order. */
  function TypeFlags(subs: seq<SubFeature>, ts: seq<Transition>, k: TransitionType): seq<bool>
  {
    seq(|subs|, i requires 0 <= i < |subs| => HasType(Matched(ts, subs[i]), k))
  }

  lemma MultisetAppendOne<T>(s: seq<T>, x: T, y: T)
    ensures multiset(s + [x])[y] == multiset(s)[y] + Indicator(x == y)
  {
  }

  lemma TagsLast(subs: seq<SubFeature>, tag: string)
    requires |subs| > 0
    ensures multiset(Tags(subs))[tag]
      == multiset(Tags(subs[..|subs| - 1]))[tag] + Indicator(subs[|subs| - 1].labelType == tag)
  {
    var p, s := subs[..|subs| - 1], subs[|subs| - 1];
    assert Tags(subs) == Tags(p) + [s.labelType];
    MultisetAppendOne(Tags(p), s.labelType, tag);
  }

  /** The label counts are how often each tag occurs. */
  lemma {:induction false} LabelCountsByTag(subs: seq<SubFeature>, ts: seq<Transition>)
    ensures CountLabels(subs, ts).nHeavy == multiset(Tags(subs))["Heavy"]
    ensures CountLabels(subs, ts).nLight == multiset(Tags(subs))["Light"]
    decreases |subs|
  {
    if |subs| > 0 {
      LabelCountsByTag(subs[..|subs| - 1], ts);
      TagsLast(subs, "Heavy");
      TagsLast(subs, "Light");
    }
  }

  lemma TypeFlagsLast(subs: seq<SubFeature>, ts: seq<Transition>, k: TransitionType)
    requires |subs| > 0
    ensures multiset(TypeFlags(subs, ts, k))[true]
      == multiset(TypeFlags(subs[..|subs| - 1], ts, k))[true] + Indicator(HasType(Matched(ts, subs[|subs| - 1]), k))
  {
    var p, t := subs[..|subs| - 1], Matched(ts, subs[|subs| - 1]);
    assert TypeFlags(subs, ts, k) == TypeFlags(p, ts, k) + [HasType(t, k)];
    MultisetAppendOne(TypeFlags(p, ts, k), HasType(t, k), true);
  }

  /** The type counts are how many matched transitions have each type. */
  lemma {:induction false} TypeCountsByFlag(subs: seq<SubFeature>, ts: seq<Transition>)
    ensures CountLabels(subs, ts).nQuantifying == multiset(TypeFlags(subs, ts, Quantifying))[true]
    ensures CountLabels(subs, ts).nIdentifying == multiset(TypeFlags(subs, ts, Identifying))[true]
    ensures CountLabels(subs, ts).nDetecting == multiset(TypeFlags(subs, ts, Detecting))[true]
    decreases |subs|
  {
    if |subs| > 0 {
      TypeCountsByFlag(subs[..|subs| - 1], ts);
      TypeFlagsLast(subs, ts, Quantifying);
      TypeFlagsLast(subs, ts, Identifying);
      TypeFlagsLast(subs, ts, Detecting);
    }
  }

  /** Sub-features tagged Heavy, Light, Light, the first matched by a
      quantifying and detecting transition, the second by an identifying
      one, the third by none, so it counts as the fallback: quantifying and
      detecting. */
  lemma CountLabelsExample()
    ensures
      var ts := [Transition("a", true, false, true), Transition("b", false, true, false)];
      var subs := [
        SubFeature(Some("a"), "Heavy", 0.0, 0.0, 0.0, map[], None),
        SubFeature(Some("b"), "Light", 0.0, 0.0, 0.0, map[], None),
        SubFeature(Some("c"), "Light", 0.0, 0.0, 0.0, map[], None)];
      CountLabels(subs, ts) == LabelCounts(1, 2, 2, 1, 2, 3)
  {
    var ts := [Transition("a", true, false, true), Transition("b", false, true, false)];
    var subs := [
        SubFeature(Some("a"), "Heavy", 0.0, 0.0, 0.0, map[], None),
        SubFeature(Some("b"), "Light", 0.0, 0.0, 0.0, map[], None),
        SubFeature(Some("c"), "Light", 0.0, 0.0, 0.0, map[], None)];
    assert subs[..2][..1] == subs[..1];
    assert FindTransition(ts, Some("c")).None?;
  }
}
