/** Range primitives: the inclusive bounds test every QC rule is built from, and
    the widening step the bound estimator uses. */
module Ranges {

  /** A (lower, upper) acceptance range. Nothing forces lo <= hi: an inverted
      range is a legal configuration that rejects every value. */
  datatype Bounds = Bounds(lo: real, hi: real)

  /** checkRange: inclusive membership. */
  predicate CheckRange(v: real, b: Bounds)
  {
    v >= b.lo && v <= b.hi
  }

  /** b2 accepts everything b1 accepts, as far as the end points go. */
  predicate Widens(b1: Bounds, b2: Bounds)
  {
    b2.lo <= b1.lo && b1.hi <= b2.hi
  }

  /** updateRange: lower the lower bound to v when v is below it, raise the
      upper bound to v when v is above it. */
  function UpdateRange(v: real, b: Bounds): (r: Bounds)
    // the new range holds v
    ensures CheckRange(v, r)
    // it never narrows
    ensures Widens(b, r)
    // the new ends are min(lo, v) and max(hi, v)
    ensures r.lo <= v && (r.lo == v || r.lo == b.lo)
    ensures r.hi >= v && (r.hi == v || r.hi == b.hi)
    // a value already inside leaves the range alone
    ensures CheckRange(v, b) ==> r == b
  {
    Bounds(if v < b.lo then v else b.lo, if v > b.hi then v else b.hi)
  }

  /** An inverted range rejects every value. */
  lemma InvertedRejectsAll(v: real, b: Bounds)
    requires b.lo > b.hi
    ensures !CheckRange(v, b)
  {
  }

  /** Everything accepted before widening is still accepted after. */
  lemma WidensKeepsMembers(v: real, b1: Bounds, b2: Bounds)
    requires Widens(b1, b2)
    requires CheckRange(v, b1)
    ensures CheckRange(v, b2)
  {
  }

  lemma WidensTransitive(b1: Bounds, b2: Bounds, b3: Bounds)
    requires Widens(b1, b2) && Widens(b2, b3)
    ensures Widens(b1, b3)
  {
  }

  /** Widening with v a second time changes nothing. */
  lemma UpdateRangeIdempotent(v: real, b: Bounds)
    ensures UpdateRange(v, UpdateRange(v, b)) == UpdateRange(v, b)
  {
  }

  /** UpdateRange gives the smallest range that holds v and every value the
      old range held. */
  lemma UpdateRangeIsLeast(v: real, b: Bounds, c: Bounds)
    requires CheckRange(v, c) && Widens(b, c)
    ensures Widens(UpdateRange(v, b), c)
  {
  }

  /** Starting from the empty range [100, -100], the value 15 gives [15, 15]
      and the value 30 then gives [15, 30]. */
  lemma UpdateRangeFromInverted()
    ensures UpdateRange(15.0, Bounds(100.0, -100.0)) == Bounds(15.0, 15.0)
    ensures UpdateRange(30.0, Bounds(15.0, 15.0)) == Bounds(15.0, 30.0)
  {
  }
}
