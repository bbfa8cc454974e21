/** The melting anchor of a Bermudan swaption (setBermudanMeltingMapAndTime): from the first
    exercise time on, T0 is the last exercise date at or before t. On the first evaluation after an
    exercise date the cache entry at that date is replaced by the analytic Libor sensitivities of
    the underlying swap, weighted by the period notionals and kept only on paths that have exercised
    (and, after the first exercise date, exercised no earlier than the previous one). */
module Bermudan {
  import opened Wrappers
  import opened Buckets
  import opened TimeGrid
  import opened Lifecycle
  import opened SensiCache
  import opened Snapshots

  /** The offset added to the evaluation time and the previous exercise date in the exercise tests. */
  const ExerciseTolerance: real := 0.0001

  /** RandomVariable.barrier on one path: the second argument where the trigger is non-negative, the
      third where it is negative. */
  function Barrier(trigger: real, ifNonNegative: real, ifNegative: real): real {
    if trigger >= 0.0 then ifNonNegative else ifNegative
  }

  /** The path has exercised by t, and, unless this is the first exercise date, at or after the
      previous exercise date. */
  predicate Exercised(path: real, t: real, prev: real, first: bool) {
    path < t + ExerciseTolerance && (first || path >= prev + ExerciseTolerance)
  }

  /** The two barriers applied to one stored sensitivity. */
  function ExerciseFilter(v: real, path: real, t: real, prev: real, first: bool): (r: real)
    ensures r == if Exercised(path, t, prev, first) then v else 0.0
  {
    var a := Barrier(path - (t + ExerciseTolerance), 0.0, v);
    if first then a else Barrier(path - (prev + ExerciseTolerance), a, 0.0)
  }

  /** The analytic Libor sensitivities multiplied period by period with the notionals; a notional
      without a sensitivity is out of bounds. */
  function ApplyNotionals(sw: seq<real>, notionals: seq<real>): (r: Result<seq<real>>)
    ensures r.Ok? <==> |notionals| <= |sw|
    ensures r.Err? ==> r.error == IndexOutOfBounds
    ensures r.Ok? ==> |r.value| == |sw|
    ensures r.Ok? ==> forall i :: 0 <= i < |notionals| ==> r.value[i] == sw[i] * notionals[i]
    ensures r.Ok? ==> forall i :: |notionals| <= i < |sw| ==> r.value[i] == sw[i]
  {
    if |notionals| > |sw| then Err(IndexOutOfBounds)
    else Ok(seq(|sw|, i requires 0 <= i < |sw| => if i < |notionals| then sw[i] * notionals[i] else sw[i]))
  }

  /** The weighted underlying sensitivities, mapped onto the interest-rate buckets in LinearMelting. */
  function Underlying(mode: Mode, env: Env, t: real): (r: Result<seq<real>>)
    requires env.product.BermudanSwaption?
    ensures r.Ok? ==> |env.product.periodNotionals| <= |env.analyticLibor(t)|
    ensures r.Ok? && mode == LinearMelting ==> |r.value| == |BucketDays(InterestRate)|
    ensures r.Ok? && mode != LinearMelting ==> |r.value| == |env.analyticLibor(t)|
  {
    var scaled :- ApplyNotionals(env.analyticLibor(t), env.product.periodNotionals);
    if mode == LinearMelting then OnBuckets(scaled, InterestRate, None, env.liborTimes) else Ok(scaled)
  }

  /** The melted sensitivities of the previous exercise date that setBermudanMeltingMapAndTime accumulates into (on
      the first exercise date, a fresh array as long as the weighted sensitivities). */
  function Current(mode: Mode, env: Env, m: SensiMap, idx: nat, t: real, first: bool, len: nat): (r: Result<Option<seq<real>>>)
    requires ValidEnv(env) && env.product.BermudanSwaption? && idx < |env.product.exerciseTimes|
    ensures first ==> r == Ok(Some(seq(len, _ => 0.0)))
    ensures !first && idx == 0 && r.Err? ==> r.error == NullPointer || r.error == NoSuchElement || r.error == IndexOutOfBounds
  {
    if first then Ok(Some(seq(len, _ => 0.0)))
    else
      var ex := env.product.exerciseTimes;
      var prev := PreviousExerciseDate(ex, idx);
      var c :- Lookup(m, prev, InterestRate, Libor6m);
      if idx == 0 then Err(IndexOutOfBounds)
      else MeltedSensitivities(mode, ex[idx - 1], t, c, InterestRate, env.liborTimes)
  }

  /** The first failure of the filter loop over the n notional periods: a missing weighted
      sensitivity is out of bounds, a null accumulator a null dereference. */
  function LoopError(n: nat, sw: seq<real>, current: Option<seq<real>>): (r: Option<Error>)
    ensures r.None? <==> n == 0 || (current.Some? && n <= |sw| && n <= |current.value|)
  {
    if n == 0 then None
    else if |sw| == 0 then Some(IndexOutOfBounds)
    else if current.None? then Some(NullPointer)
    else if n > |sw| || n > |current.value| then Some(IndexOutOfBounds)
    else None
  }

  /** The evaluation crosses the exercise date: at or after it, with the previous evaluation before it. */
  predicate Crossing(t: real, last: real, exerciseDate: real) {
    t >= exerciseDate && last < exerciseDate
  }

  /** setBermudanMeltingMapAndTime for an evaluation at t after the previous evaluation at `last`:
      the anchor T0 and the cache afterwards. */
  function BermudanAnchor(mode: Mode, env: Env, m: SensiMap, last: real, t: real): (r: Result<(real, SensiMap)>)
    requires ValidEnv(env) && env.product.BermudanSwaption?
    ensures var ex := env.product.exerciseTimes;
      (forall i :: 0 <= i < |ex| ==> ex[i] > t) ==> r == Err(IndexOutOfBounds)
    ensures var ex := env.product.exerciseTimes;
      r.Ok? ==> exists i :: 0 <= i < |ex| && ex[i] == r.value.0 && ex[i] <= t
                           && forall j :: i < j < |ex| ==> ex[j] > t
    ensures r.Ok? && !Crossing(t, last, r.value.0) ==> r.value.1 == m
    ensures r.Ok? && Crossing(t, last, r.value.0) ==>
      var p := env.product;
      var idx := NearestLessOrEqual(p.exerciseTimes, t);
      var w := Underlying(mode, env, t);
      idx >= 0 && w.Ok?
      && Lookup(r.value.1, r.value.0, InterestRate, Libor6m)
         == Ok(Filtered(w.value, |p.periodNotionals|, p.pathExerciseTime, t, PreviousExerciseDate(p.exerciseTimes, idx),
                        r.value.0 == p.firstExerciseTime))
      && (r.value.0 == p.firstExerciseTime ==> r.value.1.Keys == {r.value.0})
      && (r.value.0 != p.firstExerciseTime ==> r.value.1.Keys == m.Keys + {r.value.0})
    ensures r.Ok? && Crossing(t, last, r.value.0) ==>
      var p := env.product;
      var idx := NearestLessOrEqual(p.exerciseTimes, t);
      var w := Underlying(mode, env, t);
      idx >= 0 && w.Ok? && r.value.0 in r.value.1
      && r.value.1[r.value.0] == map[InterestRate := [Entry(Libor6m,
           Filtered(w.value, |p.periodNotionals|, p.pathExerciseTime, t, PreviousExerciseDate(p.exerciseTimes, idx),
                    r.value.0 == p.firstExerciseTime))]]
    ensures r.Ok? && Crossing(t, last, r.value.0) && r.value.0 != env.product.firstExerciseTime ==>
      forall k :: k in m && k != r.value.0 ==> k in r.value.1 && r.value.1[k] == m[k]
  {
    var p := env.product;
    var ex := p.exerciseTimes;
    var idx := NearestLessOrEqual(ex, t);
    if idx < 0 then Err(IndexOutOfBounds)
    else
      var lastEx := ex[idx];
      if !Crossing(t, last, lastEx) then Ok((lastEx, m))
      else
        var r :- StoreAtExercise(mode, env, m, t, idx);
        Ok((lastEx, r))
  }

  /** The crossing branch of setBermudanMeltingMapAndTime for exercise date idx: the filtered,
      notional-weighted sensitivities become the only entry at that date; on the first exercise date
      the rest of the cache is dropped. */
  function StoreAtExercise(mode: Mode, env: Env, m: SensiMap, t: real, idx: nat): (r: Result<SensiMap>)
    requires ValidEnv(env) && env.product.BermudanSwaption? && idx < |env.product.exerciseTimes|
    ensures var p := env.product;
      var ex := p.exerciseTimes;
      var w := Underlying(mode, env, t);
      r.Ok? ==> (w.Ok? && Lookup(r.value, ex[idx], InterestRate, Libor6m)
        == Ok(Filtered(w.value, |p.periodNotionals|, p.pathExerciseTime, t, PreviousExerciseDate(ex, idx),
                       ex[idx] == p.firstExerciseTime)))
    ensures var p := env.product;
      r.Ok? && p.exerciseTimes[idx] == p.firstExerciseTime ==> r.value.Keys == {p.exerciseTimes[idx]}
    ensures var p := env.product;
      r.Ok? && p.exerciseTimes[idx] != p.firstExerciseTime ==> r.value.Keys == m.Keys + {p.exerciseTimes[idx]}
    ensures var p := env.product;
      var ex := p.exerciseTimes;
      var w := Underlying(mode, env, t);
      r.Ok? ==>
        w.Ok? && ex[idx] in r.value
        && r.value[ex[idx]] == map[InterestRate := [Entry(Libor6m,
             Filtered(w.value, |p.periodNotionals|, p.pathExerciseTime, t, PreviousExerciseDate(ex, idx),
                      ex[idx] == p.firstExerciseTime))]]
    ensures var ex := env.product.exerciseTimes;
      r.Ok? && ex[idx] != env.product.firstExerciseTime ==>
        forall k :: k in m && k != ex[idx] ==> k in r.value && r.value[k] == m[k]
  {
    var p := env.product;
    var ex := p.exerciseTimes;
    var lastEx := ex[idx];
    var prev := PreviousExerciseDate(ex, idx);
    var first := lastEx == p.firstExerciseTime;
    var scaled :- ApplyNotionals(env.analyticLibor(t), p.periodNotionals);
    var current :- Current(mode, env, m, idx, t, first, |scaled|);
    var sw :- Underlying(mode, env, t);
    var n := |p.periodNotionals|;
    match LoopError(n, sw, current)
    case Some(e) => Err(e)
    case None =>
      var stored := Filtered(sw, n, p.pathExerciseTime, t, prev, first);
      var m1: SensiMap := if first then map[] else m;
      var r := m1[lastEx := map[InterestRate := [Entry(Libor6m, stored)]]];
      assert Lookup(r, lastEx, InterestRate, Libor6m) == Ok(stored) by {
        assert r[lastEx][InterestRate][0] == Entry(Libor6m, stored);
      }
      Ok(r)
  }

  /** The exercise date before the one at idx; the first date stands for itself. */
  function PreviousExerciseDate(ex: seq<real>, idx: nat): real
    requires idx < |ex|
  {
    if idx == 0 then ex[0] else ex[idx - 1]
  }

  /** A path that has not exercised by t contributes nothing to the stored sensitivities. */
  lemma UnexercisedPathStoresZero(mode: Mode, env: Env, m: SensiMap, last: real, t: real, i: nat)
    requires ValidEnv(env) && env.product.BermudanSwaption?
    requires env.product.pathExerciseTime >= t + ExerciseTolerance
    requires var r := BermudanAnchor(mode, env, m, last, t); r.Ok? && Crossing(t, last, r.value.0)
    requires var r := BermudanAnchor(mode, env, m, last, t);
      i < |env.product.periodNotionals| && i < |Lookup(r.value.1, r.value.0, InterestRate, Libor6m).value|
    ensures var r := BermudanAnchor(mode, env, m, last, t);
      Lookup(r.value.1, r.value.0, InterestRate, Libor6m).value[i] == 0.0
  {
  }

  /** The exercise filter on the first n entries. */
  function Filtered(sw: seq<real>, n: nat, path: real, t: real, prev: real, first: bool): (r: seq<real>)
    ensures |r| == |sw|
    ensures forall i :: 0 <= i < |sw| ==> r[i] == if i < n && !Exercised(path, t, prev, first) then 0.0 else sw[i]
  {
    seq(|sw|, i requires 0 <= i < |sw| => if i < n then ExerciseFilter(sw[i], path, t, prev, first) else sw[i])
  }

  /** The stored sensitivities do not depend on what was cached before: the melted previous
      sensitivities the Java code accumulates into are never stored. */
  lemma StoredIgnoresCache(mode: Mode, env: Env, m1: SensiMap, m2: SensiMap, last: real, t: real)
    requires ValidEnv(env) && env.product.BermudanSwaption?
    requires BermudanAnchor(mode, env, m1, last, t).Ok? && BermudanAnchor(mode, env, m2, last, t).Ok?
    ensures var a1 := BermudanAnchor(mode, env, m1, last, t).value;
      var a2 := BermudanAnchor(mode, env, m2, last, t).value;
      a1.0 == a2.0 && (Crossing(t, last, a1.0) ==>
        Lookup(a1.1, a1.0, InterestRate, Libor6m) == Lookup(a2.1, a2.0, InterestRate, Libor6m))
  {
  }

  /** On the increasing schedule, T0 is the latest exercise date at or before t. */
  lemma AnchorIsLatestExerciseDate(mode: Mode, env: Env, m: SensiMap, last: real, t: real)
    requires ValidEnv(env) && env.product.BermudanSwaption?
    requires BermudanAnchor(mode, env, m, last, t).Ok?
    ensures var ex := env.product.exerciseTimes;
      var t0 := BermudanAnchor(mode, env, m, last, t).value.0;
      t0 <= t && t0 in ex && forall i :: 0 <= i < |ex| && ex[i] <= t ==> ex[i] <= t0
  {
    var ex := env.product.exerciseTimes;
    var t0 := BermudanAnchor(mode, env, m, last, t).value.0;
    var k :| 0 <= k < |ex| && ex[k] == t0 && ex[k] <= t && forall j :: k < j < |ex| ==> ex[j] > t;
    forall i | 0 <= i < |ex| && ex[i] <= t
      ensures ex[i] <= t0
    {
      if i < k {
        assert ex[i] < ex[k];
      }
    }
  }

  /** Crossing the first exercise date never fails on the cache: only the underlying's sensitivities
      and the notionals decide. */
  lemma FirstCrossingNeedsNoCache(mode: Mode, env: Env, m: SensiMap, last: real, t: real)
    requires ValidEnv(env) && env.product.BermudanSwaption?
    requires var ex := env.product.exerciseTimes; var idx := NearestLessOrEqual(ex, t);
      idx >= 0 && ex[idx] == env.product.firstExerciseTime && Crossing(t, last, ex[idx])
    ensures var ex := env.product.exerciseTimes;
      var r := BermudanAnchor(mode, env, m, last, t);
      var w := Underlying(mode, env, t);
      var n := |env.product.periodNotionals|;
      r.Ok? <==> w.Ok? && (n == 0 || n <= |w.value|)
  {
  }
}
