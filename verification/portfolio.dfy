/** SIMMPortfolio's own melting: the sensitivity mode of the portfolio, the dispatch of
    getMeltedSensitivities, and the lifecycle bookkeeping of a portfolio instrument
    (getInitialMeltingTime, resetSwaptionGradient). */
module Portfolio {
  import opened Wrappers
  import opened Buckets
  import opened TimeGrid
  import opened Melting
  import opened Lifecycle

  datatype SensitivityMode = LinearOnBuckets | LinearOnLiborPeriodDiscretization | Stochastic

  /** getMeltedSensitivities: melting on the buckets in LinearOnBuckets mode, on the Libor grid in
      every other mode (Stochastic included, as the else branch of SIMMPortfolio does). */
  function MeltedSensitivities(mode: SensitivityMode, t0: real, t: real, sens: seq<real>, rc: RiskClass, times: seq<real>): (r: Result<seq<real>>)
    requires Increasing(times)
    ensures r.Ok? ==> |r.value| == |BucketDays(rc)|
  {
    if mode == LinearOnBuckets then MeltOnBuckets(t0, t, sens, rc, times)
    else MeltOnLiborGrid(t0, t, sens, rc, times)
  }

  /** At the anchor itself the portfolio's melting is the bucket mapping of the snapshot: on the
      buckets the snapshot comes back with its last bucket doubled, in any other mode the native
      snapshot is mapped as it is. */
  lemma MeltingAtAnchor(mode: SensitivityMode, t: real, sens: seq<real>, rc: RiskClass, times: seq<real>)
    requires Increasing(times) && |times| >= 2
    requires mode == LinearOnBuckets ==> |sens| == |BucketDays(rc)|
    ensures mode == LinearOnBuckets ==>
      MeltedSensitivities(mode, t, t, sens, rc, times) == Ok(sens[|sens| - 1 := 2.0 * sens[|sens| - 1]])
    ensures mode != LinearOnBuckets ==>
      MeltedSensitivities(mode, t, t, sens, rc, times) == OnBuckets(sens, rc, None, times)
  {
    if mode == LinearOnBuckets {
      assert ElapsedDays(t, t) == 0;
      ZeroElapsedOnBuckets(t, t, sens, rc, times);
    } else {
      ZeroElapsedOnGrid(t, sens, rc, times);
    }
  }

  /** PortfolioInstrument.getInitialMeltingTime: the reset-grid point at or below t, moved to the
      exercise date of a physically settled swaption or the start of a forward swap once t has
      reached it. Evaluations before time zero find no grid point. */
  function InitialMeltingTime(product: Product, step: real, t: real, last: real): (r: Result<Anchor>)
    requires step > 0.0
    ensures r.Ok? <==> t >= 0.0
    ensures r.Ok? ==> r.value.meltingTime <= t
    ensures r.Ok? && !PinnedAt(product, t) ==> r.value.meltingTime == ResetTime(t, step).value
    ensures r.Ok? && product.Swaption? && product.delivery == Physical && t >= product.exerciseDate ==>
      r.value.meltingTime == product.exerciseDate
    ensures r.Ok? && product.SimpleSwap? && t >= product.startTime ==> r.value.meltingTime == product.startTime
    ensures r.Ok? && !product.Swaption? && !product.SimpleSwap? ==> !r.value.clear
  {
    var g :- ResetTime(t, step);
    match product
    case Swaption(exerciseDate, delivery) => Ok(BoundaryAnchor(t, g, last, exerciseDate, delivery == Physical))
    case SimpleSwap(startTime) => Ok(BoundaryAnchor(t, g, last, startTime, true))
    case _ => Ok(Anchor(g, false))
  }

  /** Whether the product's lifecycle boundary pins T0 at time t. */
  predicate PinnedAt(product: Product, t: real) {
    (product.Swaption? && product.delivery == Physical && t >= product.exerciseDate)
    || (product.SimpleSwap? && t >= product.startTime)
  }

  /** resetSwaptionGradient: the swaption's gradient is replaced by the gradient of its underlying
      swap on the first evaluation at or after exercise of a physically settled swaption. */
  predicate SwapsGradient(product: Product, t: real, last: real)
    requires product.Swaption?
  {
    product.delivery == Physical && t >= product.exerciseDate && last < product.exerciseDate
  }

  /** The gradient is swapped on exactly the evaluations at or after exercise that clear the
      cache, and those anchor melting at the exercise date. */
  lemma GradientSwapMatchesClear(product: Product, step: real, t: real, last: real)
    requires product.Swaption? && product.delivery == Physical && step > 0.0 && t >= product.exerciseDate && t >= 0.0
    ensures SwapsGradient(product, t, last) <==> InitialMeltingTime(product, step, t, last).value.clear
    ensures SwapsGradient(product, t, last) ==> InitialMeltingTime(product, step, t, last).value.meltingTime == product.exerciseDate
  {
  }

  /** A cash-settled swaption is never pinned: it keeps melting from reset points and the cache is
      cleared only on first visits to them before exercise. */
  lemma CashSwaptionNeverPinned(product: Product, step: real, t: real, last: real)
    requires product.Swaption? && product.delivery == Cash && step > 0.0 && t >= 0.0
    ensures var a := InitialMeltingTime(product, step, t, last).value;
      a.meltingTime == ResetTime(t, step).value
      && (a.clear <==> FirstVisitBefore(t, a.meltingTime, last, product.exerciseDate))
  {
  }
}
