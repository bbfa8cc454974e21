/** Products as the melting engine sees them, and the rule that anchors melting to a product's
    lifecycle: the initial melting time T0 is the last reset-grid point, unless the product has
    crossed a boundary (exercise of a physically settled swaption, start of a forward swap) after
    which T0 is pinned to that boundary. The cache of exact sensitivities is cleared on the first
    visit to a reset point before the boundary and on the first evaluation at or after it. */
module Lifecycle {
  import opened Wrappers
  import opened TimeGrid

  datatype Delivery = Physical | Cash

  /** exerciseTimes: the Bermudan exercise schedule; firstExerciseTime: the smallest exercise time
      over all paths; pathExerciseTime: the exercise time on the modelled path. */
  datatype Product =
    | Swaption(exerciseDate: real, delivery: Delivery)
    | SimpleSwap(startTime: real)
    | BermudanSwaption(exerciseTimes: seq<real>, firstExerciseTime: real, pathExerciseTime: real, periodNotionals: seq<real>)
    | OtherProduct

  /** The melting time chosen for an evaluation and whether the cache is cleared first. */
  datatype Anchor = Anchor(meltingTime: real, clear: bool)

  /** A first visit (the previous evaluation was elsewhere) to a reset-grid point before the boundary. */
  predicate FirstVisitBefore(t: real, gridTime: real, last: real, boundary: real) {
    t == gridTime && last != t && t < boundary
  }

  /** The rule for one boundary; `pinned` says whether T0 moves to the boundary once it is reached. */
  function BoundaryAnchor(t: real, gridTime: real, last: real, boundary: real, pinned: bool): (a: Anchor)
    ensures pinned && t >= boundary ==> a.meltingTime == boundary
    ensures !(pinned && t >= boundary) ==> a.meltingTime == gridTime
    ensures a.clear ==> FirstVisitBefore(t, gridTime, last, boundary) || (pinned && last < boundary <= t)
  {
    var visit := FirstVisitBefore(t, gridTime, last, boundary);
    if pinned && t >= boundary then Anchor(boundary, visit || last < boundary)
    else Anchor(gridTime, visit)
  }

  /** Crossing a pinned boundary for the first time clears the cache and anchors at the boundary. */
  lemma FirstCrossingClears(t: real, gridTime: real, last: real, boundary: real)
    requires last < boundary <= t
    ensures BoundaryAnchor(t, gridTime, last, boundary, true) == Anchor(boundary, true)
  {
  }

  /** Once the previous evaluation was at or after the boundary, the cache is never cleared again. */
  lemma NoClearAfterCrossing(t: real, gridTime: real, last: real, boundary: real, pinned: bool)
    requires boundary <= last <= t
    ensures !BoundaryAnchor(t, gridTime, last, boundary, pinned).clear
  {
  }

  /** Evaluating twice at the same time keeps the cache. */
  lemma RepeatKeepsCache(t: real, gridTime: real, boundary: real, pinned: bool)
    ensures !BoundaryAnchor(t, gridTime, t, boundary, pinned).clear
  {
  }

  /** Before the boundary, the cache is cleared exactly on first visits to reset points. */
  lemma ClearBeforeBoundary(t: real, gridTime: real, last: real, boundary: real, pinned: bool)
    requires t < boundary
    ensures BoundaryAnchor(t, gridTime, last, boundary, pinned).clear <==> FirstVisitBefore(t, gridTime, last, boundary)
  {
  }
}
