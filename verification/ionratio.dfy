/** calculateIonRatio: the ratio of one attribute between two sub-features,
    with its pass-through fallbacks. */
module IonRatios {
  import opened Ranges
  import opened Features

  /** A double computed by a division: a finite value, or the infinity or
      NaN a zero divisor produces. */
  datatype Ratio = Finite(value: real) | NonFinite

  function Divide(x: real, y: real): (r: Ratio)
    ensures r.Finite? <==> y != 0.0
    ensures r.Finite? ==> r.value * y == x
  {
    if y == 0.0 then NonFinite else Finite(x / y)
  }

  /** The selector that picks the intensity rather than an annotation. */
  const IntensitySelector: string := "intensity"

  /** The ratio of the selected attribute of c1 to that of c2. When only c1
      has the attribute (for the intensity: when only c1 has a native id) the
      ratio is c1's value; when c1 lacks it the ratio is 0. */
  function IonRatio(c1: SubFeature, c2: SubFeature, featureName: string): (r: Ratio)
    // the intensity: both native ids present, the quotient of the intensities
    ensures featureName == IntensitySelector && c1.nativeId.Some? && c2.nativeId.Some? ==>
      (r.Finite? <==> c2.intensity != 0.0) && (r.Finite? ==> r.value * c2.intensity == c1.intensity)
    // only c1 has a native id: c1's intensity; c1 has none: 0
    ensures featureName == IntensitySelector && c1.nativeId.Some? && c2.nativeId.None? ==> r == Finite(c1.intensity)
    ensures featureName == IntensitySelector && c1.nativeId.None? ==> r == Finite(0.0)
    // an annotation: both present, the quotient of the two values
    ensures featureName != IntensitySelector && featureName in c1.meta && featureName in c2.meta ==>
      (r.Finite? <==> c2.meta[featureName] != 0.0)
      && (r.Finite? ==> r.value * c2.meta[featureName] == c1.meta[featureName])
    // only c1 carries it: c1's value; c1 lacks it: 0
    ensures featureName != IntensitySelector && featureName in c1.meta && featureName !in c2.meta ==>
      r == Finite(c1.meta[featureName])
    ensures featureName != IntensitySelector && featureName !in c1.meta ==> r == Finite(0.0)
  {
    if featureName == IntensitySelector then
      if c1.nativeId.Some? && c2.nativeId.Some? then Divide(c1.intensity, c2.intensity)
      else if c1.nativeId.Some? then Finite(c1.intensity)
      else Finite(0.0)
    else
      if featureName in c1.meta && featureName in c2.meta then Divide(c1.meta[featureName], c2.meta[featureName])
      else if featureName in c1.meta then Finite(c1.meta[featureName])
      else Finite(0.0)
  }

  /** checkRange on a ratio: an infinite or NaN ratio lies in no finite range. */
  predicate CheckRatio(r: Ratio, b: Bounds)
  {
    r.Finite? && CheckRange(r.value, b)
  }

  /** updateRange on a ratio. A ratio that is not finite leaves the range as
      it is. */
  function UpdateRatio(r: Ratio, b: Bounds): (b': Bounds)
    ensures Widens(b, b')
    ensures r.Finite? ==> CheckRatio(r, b')
  {
    match r
    case Finite(v) => UpdateRange(v, b)
    case NonFinite => b
  }

  /** Swapping the two sub-features inverts a ratio both sides have. */
  lemma IonRatioReciprocal(c1: SubFeature, c2: SubFeature, featureName: string)
    requires featureName == IntensitySelector ==> c1.nativeId.Some? && c2.nativeId.Some?
    requires featureName != IntensitySelector ==> featureName in c1.meta && featureName in c2.meta
    requires IonRatio(c1, c2, featureName).Finite? && IonRatio(c2, c1, featureName).Finite?
    ensures IonRatio(c1, c2, featureName).value * IonRatio(c2, c1, featureName).value == 1.0
  {
    var x := if featureName == IntensitySelector then c1.intensity else c1.meta[featureName];
    var y := if featureName == IntensitySelector then c2.intensity else c2.meta[featureName];
    var a, b := IonRatio(c1, c2, featureName).value, IonRatio(c2, c1, featureName).value;
    assert a * y == x && b * x == y && x != 0.0 && y != 0.0;
    calc {
      (a * b) * (x * y);
      (a * y) * (b * x);
      { assert a * y == x; }
      x * (b * x);
      { assert b * x == y; }
      x * y;
    }
    assert x * y != 0.0;
    assert (a * b - 1.0) * (x * y) == 0.0;
  }

  /** Intensities 12 and 8 give 1.5 when both sub-features have a native id,
      12 when only the first has one, and 0 when the first has none. */
  lemma IonRatioExamples()
    ensures
      var a := SubFeature(Some("a"), "", 0.0, 12.0, 0.0, map[], None);
      var b := SubFeature(Some("b"), "", 0.0, 8.0, 0.0, map[], None);
      && IonRatio(a, b, IntensitySelector) == Finite(1.5)
      && IonRatio(a, b.(nativeId := None), IntensitySelector) == Finite(12.0)
      && IonRatio(a.(nativeId := None), b.(nativeId := None), IntensitySelector) == Finite(0.0)
  {
  }
}
