/** The pieces of SensitivityInterpolation that produce and melt exact snapshots: the modes of the
    class, what it reads from its portfolio, the final interpolation time of a product, setMap
    (one curve, and all curves of the product) and the class's own getMeltedSensitivities. */
module Snapshots {
  import opened Wrappers
  import opened Buckets
  import opened TimeGrid
  import opened Melting
  import opened Lifecycle
  import opened SensiCache
  import Portfolio

  /** The portfolio's sensitivity modes as this class distinguishes them; every other mode falls
      through its switches. */
  datatype Mode = LinearMelting | LinearMeltingOnLiborBuckets | Interpolation | OtherMode

  /** What the class reads from its portfolio: the product, the curve names of the classified
      product, the reset step, the model's Libor period grid, the exact (algorithmic) delta of a
      curve at a time on that grid, and the analytic Libor sensitivities of a Bermudan's underlying
      swap at a time. */
  datatype Env = Env(
    product: Product,
    curveNames: seq<CurveName>,
    resetStep: real,
    liborTimes: seq<real>,
    exactDelta: (CurveName, real) -> seq<real>,
    analyticLibor: real -> seq<real>)

  /** A positive reset step and an increasing Libor grid, as the portfolio and the model provide,
      and an increasing exercise schedule for a Bermudan: the lookup of the anchor searches the
      schedule as a time discretization, which keeps its points sorted. */
  predicate ValidEnv(env: Env) {
    && env.resetStep > 0.0 && Increasing(env.liborTimes)
    && (env.product.BermudanSwaption? ==> Increasing(env.product.exerciseTimes))
  }

  /** The literal 87^3 of SensitivityInterpolation is Java's bitwise exclusive or of 87 and 3. */
  const DefaultFinalInterpolationTime: real := ((87 as bv32) ^ (3 as bv32)) as int as real

  /** getFinalInterpolationTime: the exercise date of a swaption, the earliest path exercise time of
      a Bermudan, and 84 years for everything else. */
  function FinalInterpolationTime(p: Product): (r: real)
    ensures p.Swaption? ==> r == p.exerciseDate
    ensures p.BermudanSwaption? ==> r == p.firstExerciseTime
    ensures !p.Swaption? && !p.BermudanSwaption? ==> r == 84.0
  {
    match p
    case Swaption(exerciseDate, _) => exerciseDate
    case BermudanSwaption(_, firstExerciseTime, _, _) => firstExerciseTime
    case _ => DefaultFinalInterpolationTime
  }

  /** The modes in which snapshots are kept on the SIMM buckets rather than on the Libor grid. */
  predicate OnBucketsMode(mode: Mode) {
    mode == LinearMelting || mode == Interpolation
  }

  /** The snapshot setMap stores: the exact delta of the curve at the time, mapped onto the buckets
      of the risk class in the modes that work on buckets. */
  function Snapshot(mode: Mode, env: Env, rc: RiskClass, curve: CurveName, time: real): (r: Result<seq<real>>)
    ensures r.Ok? <==> !OnBucketsMode(mode) || GridCovers(|env.exactDelta(curve, time)|, env.liborTimes)
    ensures r.Err? ==> r.error == IndexOutOfBounds
    ensures r.Ok? && OnBucketsMode(mode) ==> |r.value| == |BucketDays(rc)|
    ensures !OnBucketsMode(mode) ==> r == Ok(env.exactDelta(curve, time))
  {
    var d := env.exactDelta(curve, time);
    if OnBucketsMode(mode) then
      var b := OnBuckets(d, rc, None, env.liborTimes);
      if b.Err? then Err(IndexOutOfBounds) else b
    else Ok(d)
  }

  /** setMap: the snapshot of one curve is added to the cache. */
  function SetMap(mode: Mode, env: Env, m: SensiMap, rc: RiskClass, curve: CurveName, time: real): (r: Result<SensiMap>)
    ensures r.Ok? <==> Snapshot(mode, env, rc, curve, time).Ok?
    ensures r.Ok? ==> !IsEmptyMap(r.value, time, rc, curve)
    ensures r.Ok? && IsEmptyMap(m, time, rc, curve) ==>
      Lookup(r.value, time, rc, curve) == Snapshot(mode, env, rc, curve, time)
    ensures r.Ok? ==> r.value.Keys == m.Keys + {time}
    ensures r.Ok? ==> forall t :: t in m && t != time ==> r.value[t] == m[t]
  {
    var s :- Snapshot(mode, env, rc, curve, time);
    var r := Store(m, time, rc, curve, s);
    assert IsEmptyMap(m, time, rc, curve) ==> Lookup(r, time, rc, curve) == Ok(s) by {
      if IsEmptyMap(m, time, rc, curve) {
        StoreThenLookup(m, time, rc, curve, s);
      }
    }
    Ok(r)
  }

  /** A store for one curve does not create an entry for another. */
  lemma StoreOtherCurve(m: SensiMap, time: real, rc: RiskClass, curve: CurveName, c: CurveName, s: seq<real>)
    requires c != curve && IsEmptyMap(m, time, rc, c)
    ensures IsEmptyMap(Store(m, time, rc, curve, s), time, rc, c)
  {
    var r := Store(m, time, rc, curve, s);
    var list := r[time][rc];
    if !Missing(m, time, rc) {
      assert list == m[time][rc] + [Entry(curve, s)];
      assert forall i :: 0 <= i < |m[time][rc]| ==> list[i] == m[time][rc][i];
    } else {
      assert list == [Entry(curve, s)];
    }
  }

  /** setMap for every curve name of the product, in order; the first failure ends the loop. */
  function SetAll(mode: Mode, env: Env, m: SensiMap, rc: RiskClass, names: seq<CurveName>, time: real): (r: Result<SensiMap>)
    ensures r.Ok? ==> forall t :: t in m && t != time ==> t in r.value && r.value[t] == m[t]
    ensures r.Ok? && |names| > 0 ==> !Missing(r.value, time, rc)
    ensures r.Ok? && |names| == 0 ==> r.value == m
    ensures r.Ok? ==> r.value.Keys <= m.Keys + {time}
    decreases |names|
  {
    if |names| == 0 then Ok(m)
    else
      var m1 :- SetMap(mode, env, m, rc, names[0], time);
      var r := SetAll(mode, env, m1, rc, names[1..], time);
      assert r.Ok? && |names[1..]| == 0 ==> r.value == m1;
      r
  }

  /** After filling, the cache answers every curve of the list with its exact snapshot, provided what
      was cached for that curve before was its snapshot too. */
  lemma {:induction false} SetAllLookup(mode: Mode, env: Env, m: SensiMap, rc: RiskClass, names: seq<CurveName>, time: real, c: CurveName)
    requires SetAll(mode, env, m, rc, names, time).Ok?
    requires !IsEmptyMap(m, time, rc, c) ==> Lookup(m, time, rc, c) == Snapshot(mode, env, rc, c, time)
    ensures c in names || !IsEmptyMap(m, time, rc, c) ==>
      Lookup(SetAll(mode, env, m, rc, names, time).value, time, rc, c) == Snapshot(mode, env, rc, c, time)
    decreases |names|
  {
    if |names| > 0 {
      var m1 := SetMap(mode, env, m, rc, names[0], time).value;
      var s := Snapshot(mode, env, rc, names[0], time).value;
      assert m1 == Store(m, time, rc, names[0], s);
      if c == names[0] {
        if !IsEmptyMap(m, time, rc, c) {
          StoreAgainIsShadowed(m, time, rc, c, s);
        }
      } else if IsEmptyMap(m, time, rc, c) {
        StoreOtherCurve(m, time, rc, names[0], c, s);
      } else {
        StoreKeepsSameSlot(m, time, rc, c, names[0], s);
      }
      assert c in names ==> c == names[0] || c in names[1..];
      SetAllLookup(mode, env, m1, rc, names[1..], time, c);
    }
  }

  /** A slot that was missing is filled with exactly the snapshots. */
  lemma SetAllFillsMissing(mode: Mode, env: Env, m: SensiMap, rc: RiskClass, names: seq<CurveName>, time: real, c: CurveName)
    requires Missing(m, time, rc) && c in names
    requires SetAll(mode, env, m, rc, names, time).Ok?
    ensures Lookup(SetAll(mode, env, m, rc, names, time).value, time, rc, c) == Snapshot(mode, env, rc, c, time)
  {
    SetAllLookup(mode, env, m, rc, names, time, c);
  }

  /** The class's getMeltedSensitivities: melting on the buckets, melting on the Libor grid, or
      nothing (null) in any other mode. */
  function MeltedSensitivities(mode: Mode, t0: real, t: real, sens: seq<real>, rc: RiskClass, times: seq<real>): (r: Result<Option<seq<real>>>)
    requires Increasing(times)
    ensures mode == Interpolation || mode == OtherMode ==> r == Ok(None)
    ensures r.Ok? && r.value.Some? ==> |r.value.value| == |BucketDays(rc)|
  {
    match mode
    case LinearMelting =>
      var s :- MeltOnBuckets(t0, t, sens, rc, times);
      Ok(Some(s))
    case LinearMeltingOnLiborBuckets =>
      var s :- MeltOnLiborGrid(t0, t, sens, rc, times);
      Ok(Some(s))
    case _ => Ok(None)
  }

  /** The class melts exactly as the portfolio does: LinearMelting as LinearOnBuckets, melting on the
      Libor buckets as LinearOnLiborPeriodDiscretization. */
  lemma MeltingAgreesWithPortfolio(mode: Mode, t0: real, t: real, sens: seq<real>, rc: RiskClass, times: seq<real>)
    requires Increasing(times) && (mode == LinearMelting || mode == LinearMeltingOnLiborBuckets)
    ensures var pm := if mode == LinearMelting then Portfolio.LinearOnBuckets else Portfolio.LinearOnLiborPeriodDiscretization;
      var p := Portfolio.MeltedSensitivities(pm, t0, t, sens, rc, times);
      var r := MeltedSensitivities(mode, t0, t, sens, rc, times);
      (r.Ok? <==> p.Ok?) && (r.Ok? ==> r.value == Some(p.value)) && (r.Err? ==> r.error == p.error)
  {
  }
}
