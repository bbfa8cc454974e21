/** SensitivityInterpolation: delta sensitivities at an evaluation time, either melted linearly
    from an exact snapshot taken at the melting anchor T0, or interpolated linearly between the exact
    snapshots at the reset points around the evaluation time. The object keeps a cache of snapshots,
    the time of its previous evaluation, and its mode, which falls back to melting for good once the
    evaluation time reaches the final interpolation time. */
module SensitivityInterpolation {
  import opened Wrappers
  import opened Buckets
  import opened TimeGrid
  import opened Lifecycle
  import opened SensiCache
  import opened Snapshots
  import opened Bermudan
  import Portfolio

  /** The state of one SensitivityInterpolation object. */
  datatype Interpolator = Interpolator(
    sensiMap: SensiMap,
    lastEvaluationTime: real,
    mode: Mode,
    finalInterpolationTime: real)

  /** The constructor's promise: an object still interpolating knows its product's final
      interpolation time. */
  predicate ValidState(st: Interpolator, env: Env) {
    st.mode == Interpolation ==> st.finalInterpolationTime == FinalInterpolationTime(env.product)
  }

  /** The constructor: an empty cache, no previous evaluation (Java's default 0.0), the portfolio's
      mode; the final interpolation time is set only in interpolation mode and stays 0.0 otherwise. */
  function NewInterpolator(env: Env, mode: Mode): (st: Interpolator)
    ensures ValidState(st, env)
    ensures st.sensiMap == map[] && st.lastEvaluationTime == 0.0 && st.mode == mode
    ensures mode != Interpolation ==> st.finalInterpolationTime == 0.0
  {
    Interpolator(map[], 0.0, mode, if mode == Interpolation then FinalInterpolationTime(env.product) else 0.0)
  }

  function ClearIf(m: SensiMap, clear: bool): SensiMap {
    if clear then map[] else m
  }

  /** getInitialMeltingTime: the anchor T0 and the cache after any clearing. Swaptions and forward
      swaps follow the portfolio instrument's rule; a Bermudan clears on first visits to reset points
      before its first exercise time and hands over to its exercise schedule from then on. */
  function InitialMeltingTime(st: Interpolator, env: Env, t: real): (r: Result<(real, SensiMap)>)
    requires ValidEnv(env)
    ensures t < 0.0 ==> r == Err(IndexOutOfBounds)
    ensures !env.product.BermudanSwaption? ==> (r.Ok? <==> t >= 0.0)
    ensures r.Ok? ==> r.value.0 <= t
    ensures r.Ok? && !env.product.BermudanSwaption? ==>
      var a := Portfolio.InitialMeltingTime(env.product, env.resetStep, t, st.lastEvaluationTime);
      a.Ok? && r.value == (a.value.meltingTime, ClearIf(st.sensiMap, a.value.clear))
    ensures r.Ok? && env.product.BermudanSwaption? && t < env.product.firstExerciseTime ==>
      var g := ResetTime(t, env.resetStep).value;
      r.value == (g, ClearIf(st.sensiMap, FirstVisitBefore(t, g, st.lastEvaluationTime, env.product.firstExerciseTime)))
    ensures env.product.BermudanSwaption? && t >= env.product.firstExerciseTime && t >= 0.0 ==>
      r == BermudanAnchor(st.mode, env, st.sensiMap, st.lastEvaluationTime, t)
    ensures r.Ok? && env.product.BermudanSwaption? && t >= env.product.firstExerciseTime ==>
      var ex := env.product.exerciseTimes;
      exists i :: 0 <= i < |ex| && ex[i] == r.value.0 && forall j :: i < j < |ex| ==> ex[j] > t
  {
    var g :- ResetTime(t, env.resetStep);
    var last := st.lastEvaluationTime;
    match env.product
    case Swaption(exerciseDate, delivery) =>
      var a := BoundaryAnchor(t, g, last, exerciseDate, delivery == Physical);
      Ok((a.meltingTime, ClearIf(st.sensiMap, a.clear)))
    case SimpleSwap(startTime) =>
      var a := BoundaryAnchor(t, g, last, startTime, true);
      Ok((a.meltingTime, ClearIf(st.sensiMap, a.clear)))
    case BermudanSwaption(_, _, _, _) => BermudanMeltingTime(st, env, t, g)
    case OtherProduct => Ok((g, st.sensiMap))
  }

  /** The Bermudan branch of getInitialMeltingTime, given the reset point g at or below t. */
  function BermudanMeltingTime(st: Interpolator, env: Env, t: real, g: real): (r: Result<(real, SensiMap)>)
    requires ValidEnv(env) && env.product.BermudanSwaption? && g <= t
    ensures r.Ok? ==> r.value.0 <= t
    ensures t < env.product.firstExerciseTime ==>
      r == Ok((g, ClearIf(st.sensiMap, FirstVisitBefore(t, g, st.lastEvaluationTime, env.product.firstExerciseTime))))
    ensures t >= env.product.firstExerciseTime ==>
      r == BermudanAnchor(st.mode, env, st.sensiMap, st.lastEvaluationTime, t)
    ensures r.Ok? && t >= env.product.firstExerciseTime ==>
      var ex := env.product.exerciseTimes;
      exists i :: 0 <= i < |ex| && ex[i] == r.value.0 && forall j :: i < j < |ex| ==> ex[j] > t
  {
    var first := env.product.firstExerciseTime;
    var m := ClearIf(st.sensiMap, FirstVisitBefore(t, g, st.lastEvaluationTime, first));
    if t >= first then BermudanAnchor(st.mode, env, m, st.lastEvaluationTime, t) else Ok((g, m))
  }

  /** The reset point one step after t0, or the final interpolation time when that comes first. */
  function NextResetPoint(env: Env, t0: real): real {
    var fit := FinalInterpolationTime(env.product);
    if fit < t0 + env.resetStep then fit else t0 + env.resetStep
  }

  /** The reset points around t used for interpolation: the grid point at or below t, and the next
      one capped by the final interpolation time. The grid has 51 points, so from its last point on
      there is no next one. */
  function InterpolationTimes(env: Env, t: real): (r: Result<(real, real)>)
    requires ValidEnv(env) && t < FinalInterpolationTime(env.product)
    ensures r.Ok? <==> 0.0 <= t < ResetSteps as real * env.resetStep
    ensures r.Err? ==> r.error == IndexOutOfBounds
    ensures r.Ok? ==> r.value.0 <= t < r.value.1
    ensures r.Ok? ==> r.value.0 == ResetTime(t, env.resetStep).value
    ensures r.Ok? ==> r.value.1 <= FinalInterpolationTime(env.product)
    ensures r.Ok? ==> r.value.1 - r.value.0 <= env.resetStep
    ensures r.Ok? ==> r.value.1 == NextResetPoint(env, r.value.0)
  {
    var b := ResetBracket(t, env.resetStep);
    if b.Err? then Err(b.error)
    else
      var fit := FinalInterpolationTime(env.product);
      Ok((b.value.0, if fit < b.value.1 then fit else b.value.1))
  }

  /** The linear interpolation of the buckets of the final snapshot; the initial snapshot must have
      at least as many. */
  function Interpolate(init: seq<real>, fin: seq<real>, t0: real, t1: real, t: real): (r: Result<seq<real>>)
    requires t0 < t1
    ensures r.Ok? <==> |fin| <= |init|
    ensures r.Err? ==> r.error == IndexOutOfBounds
    ensures r.Ok? ==> |r.value| == |fin|
  {
    if |init| < |fin| then Err(IndexOutOfBounds)
    else Ok(seq(|fin|, b requires 0 <= b < |fin| => init[b] + (fin[b] - init[b]) / (t1 - t0) * (t - t0)))
  }

  /** At the initial reset point the interpolation is the initial snapshot. */
  lemma InterpolationStartsAtInitial(init: seq<real>, fin: seq<real>, t0: real, t1: real)
    requires t0 < t1 && |fin| <= |init|
    ensures Interpolate(init, fin, t0, t1, t0) == Ok(init[..|fin|])
  {
    var r := Interpolate(init, fin, t0, t1, t0).value;
    forall b | 0 <= b < |fin|
      ensures r[b] == init[..|fin|][b]
    {
      assert r[b] == init[b] + (fin[b] - init[b]) / (t1 - t0) * 0.0;
    }
    assert r == init[..|fin|];
  }

  lemma SlopeTimesSpan(a: real, b: real, d: real)
    requires d > 0.0
    ensures a + (b - a) / d * d == b
  {
  }

  /** At the final reset point the interpolation is the final snapshot. */
  lemma InterpolationEndsAtFinal(init: seq<real>, fin: seq<real>, t0: real, t1: real)
    requires t0 < t1 && |fin| <= |init|
    ensures Interpolate(init, fin, t0, t1, t1) == Ok(fin)
  {
    var r := Interpolate(init, fin, t0, t1, t1).value;
    forall b | 0 <= b < |fin|
      ensures r[b] == fin[b]
    {
      SlopeTimesSpan(init[b], fin[b], t1 - t0);
    }
    assert r == fin;
  }

  lemma Between(a: real, b: real, d: real, e: real)
    requires d > 0.0 && 0.0 <= e <= d
    ensures var x := a + (b - a) / d * e;
      (a <= b ==> a <= x <= b) && (b <= a ==> b <= x <= a)
  {
    var s := (b - a) / d;
    assert s * d == b - a;
    if a <= b {
      assert s >= 0.0;
      assert s * e <= s * d;
    } else {
      assert s <= 0.0;
      assert s * e >= s * d;
    }
  }

  /** Between the reset points every bucket lies between its initial and final value. */
  lemma InterpolationStaysBetween(init: seq<real>, fin: seq<real>, t0: real, t1: real, t: real, b: nat)
    requires t0 <= t <= t1 && t0 < t1 && |fin| <= |init| && b < |fin|
    ensures var x := Interpolate(init, fin, t0, t1, t).value[b];
      (init[b] <= fin[b] ==> init[b] <= x <= fin[b]) && (fin[b] <= init[b] ==> fin[b] <= x <= init[b])
  {
    Between(init[b], fin[b], t1 - t0, t - t0);
  }

  /** Fill the snapshots of every curve at a reset point whose risk class is missing. */
  function FillIfMissing(mode: Mode, env: Env, m: SensiMap, rc: RiskClass, time: real): (r: Result<SensiMap>)
    ensures !Missing(m, time, rc) ==> r == Ok(m)
    ensures r.Ok? ==> forall t :: t in m && t != time ==> t in r.value && r.value[t] == m[t]
    ensures r.Ok? ==> r.value.Keys <= m.Keys + {time}
  {
    if Missing(m, time, rc) then SetAll(mode, env, m, rc, env.curveNames, time) else Ok(m)
  }

  /** The interpolation between the reset points t0 < t1: the snapshots at both are filled first
      where their risk class is missing, then the curve's snapshots are looked up and interpolated. */
  function InterpolatedBetween(mode: Mode, env: Env, m: SensiMap, rc: RiskClass, curve: CurveName, t0: real, t1: real, t: real): (r: Result<(seq<real>, SensiMap)>)
    requires t0 < t1
    ensures r.Ok? ==>
      var m2 := r.value.1;
      !IsEmptyMap(m2, t0, rc, curve) && !IsEmptyMap(m2, t1, rc, curve)
      && Interpolate(Lookup(m2, t0, rc, curve).value, Lookup(m2, t1, rc, curve).value, t0, t1, t) == Ok(r.value.0)
    ensures r.Ok? ==> forall time :: time in m && time != t0 && time != t1 ==> time in r.value.1 && r.value.1[time] == m[time]
    ensures r.Ok? && !Missing(m, t0, rc) && !Missing(m, t1, rc) ==> r.value.1 == m
    ensures r.Ok? && Missing(m, t0, rc) && curve in env.curveNames ==>
      Lookup(r.value.1, t0, rc, curve) == Snapshot(mode, env, rc, curve, t0)
    ensures r.Ok? && Missing(m, t1, rc) && curve in env.curveNames ==>
      Lookup(r.value.1, t1, rc, curve) == Snapshot(mode, env, rc, curve, t1)
  {
    var m1 :- FillIfMissing(mode, env, m, rc, t0);
    assert Missing(m, t0, rc) && curve in env.curveNames ==> Lookup(m1, t0, rc, curve) == Snapshot(mode, env, rc, curve, t0) by {
      if Missing(m, t0, rc) && curve in env.curveNames {
        SetAllFillsMissing(mode, env, m, rc, env.curveNames, t0, curve);
      }
    }
    assert Missing(m, t1, rc) ==> Missing(m1, t1, rc);
    var m2 :- FillIfMissing(mode, env, m1, rc, t1);
    assert Missing(m1, t1, rc) && curve in env.curveNames ==> Lookup(m2, t1, rc, curve) == Snapshot(mode, env, rc, curve, t1) by {
      if Missing(m1, t1, rc) && curve in env.curveNames {
        SetAllFillsMissing(mode, env, m1, rc, env.curveNames, t1, curve);
      }
    }
    assert t0 in m1 ==> m2[t0] == m1[t0];
    var init :- Lookup(m2, t0, rc, curve);
    var fin :- Lookup(m2, t1, rc, curve);
    var out :- Interpolate(init, fin, t0, t1, t);
    Ok((out, m2))
  }

  /** At a reset point whose snapshots are not cached yet, interpolation returns the exact snapshot
      of the curve there. */
  lemma ExactAtResetPoint(mode: Mode, env: Env, m: SensiMap, rc: RiskClass, curve: CurveName, t0: real, t1: real, out: seq<real>, m2: SensiMap)
    requires t0 < t1 && Missing(m, t0, rc) && curve in env.curveNames
    requires InterpolatedBetween(mode, env, m, rc, curve, t0, t1, t0) == Ok((out, m2))
    ensures Snapshot(mode, env, rc, curve, t0).Ok?
    ensures |out| <= |Snapshot(mode, env, rc, curve, t0).value|
    ensures out == Snapshot(mode, env, rc, curve, t0).value[..|out|]
    ensures OnBucketsMode(mode) && Missing(m, t1, rc) ==> out == Snapshot(mode, env, rc, curve, t0).value
  {
    var init := Lookup(m2, t0, rc, curve).value;
    var fin := Lookup(m2, t1, rc, curve).value;
    InterpolationStartsAtInitial(init, fin, t0, t1);
    if OnBucketsMode(mode) && Missing(m, t1, rc) {
      WholePrefix(out, Snapshot(mode, env, rc, curve, t0).value, |fin|);
    }
  }

  lemma WholePrefix(out: seq<real>, s: seq<real>, n: nat)
    requires |s| == n && |out| == n && out == s[..|out|]
    ensures out == s
  {
  }

  /** getSensitivityInterpolation: the linear interpolation between the exact snapshots at the
      reset point t0 at or below t and at the next one t1, capped by the final interpolation time;
      either anchor whose risk class is not cached is filled first. */
  function Interpolated(mode: Mode, env: Env, m: SensiMap, rc: RiskClass, curve: CurveName, t: real): (r: Result<(seq<real>, SensiMap)>)
    requires ValidEnv(env) && t < FinalInterpolationTime(env.product)
    ensures !(0.0 <= t < ResetSteps as real * env.resetStep) ==> r == Err(IndexOutOfBounds)
    ensures r.Ok? ==> 0.0 <= t < ResetSteps as real * env.resetStep
    ensures 0.0 <= t < ResetSteps as real * env.resetStep ==>
      var t0 := ResetTime(t, env.resetStep).value;
      r == InterpolatedBetween(mode, env, m, rc, curve, t0, NextResetPoint(env, t0), t)
    ensures r.Ok? ==>
      var t0 := ResetTime(t, env.resetStep).value;
      var t1 := NextResetPoint(env, t0);
      var m2 := r.value.1;
      t0 <= t < t1 && t1 - t0 <= env.resetStep
      && !IsEmptyMap(m2, t0, rc, curve) && !IsEmptyMap(m2, t1, rc, curve)
      && Interpolate(Lookup(m2, t0, rc, curve).value, Lookup(m2, t1, rc, curve).value, t0, t1, t) == Ok(r.value.0)
    ensures r.Ok? ==>
      var t0 := ResetTime(t, env.resetStep).value;
      var t1 := NextResetPoint(env, t0);
      (forall time :: time in m && time != t0 && time != t1 ==> time in r.value.1 && r.value.1[time] == m[time])
      && (!Missing(m, t0, rc) && !Missing(m, t1, rc) ==> r.value.1 == m)
      && (Missing(m, t0, rc) && curve in env.curveNames ==>
            Lookup(r.value.1, t0, rc, curve) == Snapshot(mode, env, rc, curve, t0))
      && (Missing(m, t1, rc) && curve in env.curveNames ==>
            Lookup(r.value.1, t1, rc, curve) == Snapshot(mode, env, rc, curve, t1))
  {
    var (t0, t1) :- InterpolationTimes(env, t);
    InterpolatedBetween(mode, env, m, rc, curve, t0, t1, t)
  }

  /** At a reset point whose risk class is not cached, getSensitivityInterpolation returns the exact
      snapshot there: all of it when the next anchor is refilled too on the buckets, and otherwise
      its first buckets, as many as the next anchor has. */
  lemma InterpolatedExactAtResetPoint(mode: Mode, env: Env, m: SensiMap, rc: RiskClass, curve: CurveName, t: real, out: seq<real>, m2: SensiMap)
    requires ValidEnv(env) && t < FinalInterpolationTime(env.product)
    requires ResetTime(t, env.resetStep) == Ok(t) && Missing(m, t, rc) && curve in env.curveNames
    requires Interpolated(mode, env, m, rc, curve, t) == Ok((out, m2))
    ensures Snapshot(mode, env, rc, curve, t).Ok?
    ensures out == Snapshot(mode, env, rc, curve, t).value[..|out|]
    ensures OnBucketsMode(mode) && Missing(m, NextResetPoint(env, t), rc) ==> out == Snapshot(mode, env, rc, curve, t).value
  {
    ExactAtResetPoint(mode, env, m, rc, curve, t, NextResetPoint(env, t), out, m2);
  }

  /** The mode of an evaluation at t: melting for good from the final interpolation time on. */
  function ModeAt(st: Interpolator, t: real): Mode {
    if t >= st.finalInterpolationTime then LinearMelting else st.mode
  }

  /** The melting branch of getDeltaSensitivities: the anchor, the snapshot there (taken only when
      the cache has none), and its melting to t. */
  function Melted(mode: Mode, st: Interpolator, env: Env, rc: RiskClass, curve: CurveName, t: real): (r: Result<(Option<seq<real>>, SensiMap)>)
    requires ValidEnv(env) && (mode == LinearMelting || mode == LinearMeltingOnLiborBuckets)
    ensures r.Ok? ==> r.value.0.Some? && |r.value.0.value| == |BucketDays(rc)|
    ensures r.Ok? ==> InitialMeltingTime(st.(mode := mode), env, t).Ok?
    ensures r.Ok? ==>
      var (t0, m1) := InitialMeltingTime(st.(mode := mode), env, t).value;
      var s := if IsEmptyMap(m1, t0, rc, curve) then Snapshot(mode, env, rc, curve, t0) else Lookup(m1, t0, rc, curve);
      s.Ok? && MeltedSensitivities(mode, t0, t, s.value, rc, env.liborTimes) == Ok(r.value.0)
    ensures r.Ok? ==>
      var (t0, m1) := InitialMeltingTime(st.(mode := mode), env, t).value;
      !IsEmptyMap(m1, t0, rc, curve) ==> r.value.1 == m1
  {
    var (t0, m1) :- InitialMeltingTime(st.(mode := mode), env, t);
    var m2 :- if IsEmptyMap(m1, t0, rc, curve) then SetMap(mode, env, m1, rc, curve, t0) else Ok(m1);
    var deltas := Lookup(m2, t0, rc, curve).value;
    var out :- MeltedSensitivities(mode, t0, t, deltas, rc, env.liborTimes);
    Ok((out, m2))
  }

  /** getDeltaSensitivities: the sensitivities (None where the Java code returns null) and the object's
      state afterwards. */
  function DeltaSensitivities(st: Interpolator, env: Env, rc: RiskClass, curve: CurveName, t: real): (r: Result<(Option<seq<real>>, Interpolator)>)
    requires ValidEnv(env) && ValidState(st, env)
    ensures r.Ok? ==> r.value.1.lastEvaluationTime == t
    ensures r.Ok? ==> r.value.1.mode == ModeAt(st, t) && r.value.1.finalInterpolationTime == st.finalInterpolationTime
    ensures r.Ok? ==> ValidState(r.value.1, env)
    ensures r.Ok? && ModeAt(st, t) == OtherMode ==> r.value.0.None? && r.value.1.sensiMap == st.sensiMap
    ensures r.Ok? && ModeAt(st, t) != OtherMode ==> r.value.0.Some?
    ensures r.Ok? && (ModeAt(st, t) == LinearMelting || ModeAt(st, t) == LinearMeltingOnLiborBuckets) ==>
      Melted(ModeAt(st, t), st, env, rc, curve, t) == Ok((r.value.0, r.value.1.sensiMap))
    ensures r.Ok? && ModeAt(st, t) == Interpolation ==>
      t < FinalInterpolationTime(env.product)
      && Interpolated(Interpolation, env, st.sensiMap, rc, curve, t) == Ok((r.value.0.value, r.value.1.sensiMap))
  {
    var mode := ModeAt(st, t);
    match mode
    case Interpolation =>
      var (out, m) :- Interpolated(mode, env, st.sensiMap, rc, curve, t);
      Ok((Some(out), st.(sensiMap := m, mode := mode, lastEvaluationTime := t)))
    case OtherMode =>
      Ok((None, st.(mode := mode, lastEvaluationTime := t)))
    case _ =>
      var (out, m) :- Melted(mode, st, env, rc, curve, t);
      Ok((out, st.(sensiMap := m, mode := mode, lastEvaluationTime := t)))
  }

  /** Once an object melts on the buckets it never leaves that mode. */
  lemma MeltingIsPermanent(st: Interpolator, env: Env, rc: RiskClass, curve: CurveName, t: real)
    requires ValidEnv(env) && ValidState(st, env) && st.mode == LinearMelting
    requires DeltaSensitivities(st, env, rc, curve, t).Ok?
    ensures DeltaSensitivities(st, env, rc, curve, t).value.1.mode == LinearMelting
  {
  }

  /** An object built in any mode but interpolation has final interpolation time 0, so its first
      evaluation at a non-negative time already switches it to melting on the buckets. */
  lemma OtherModesSwitchToMelting(env: Env, mode: Mode, rc: RiskClass, curve: CurveName, t: real)
    requires ValidEnv(env) && mode != Interpolation && t >= 0.0
    requires DeltaSensitivities(NewInterpolator(env, mode), env, rc, curve, t).Ok?
    ensures DeltaSensitivities(NewInterpolator(env, mode), env, rc, curve, t).value.1.mode == LinearMelting
  {
  }

  /** An interpolating object keeps interpolating exactly while t stays before the final
      interpolation time of its product. */
  lemma InterpolationUntilFinalTime(st: Interpolator, env: Env, rc: RiskClass, curve: CurveName, t: real)
    requires ValidEnv(env) && ValidState(st, env) && st.mode == Interpolation
    requires DeltaSensitivities(st, env, rc, curve, t).Ok?
    ensures DeltaSensitivities(st, env, rc, curve, t).value.1.mode == Interpolation
            <==> t < FinalInterpolationTime(env.product)
  {
  }
}
