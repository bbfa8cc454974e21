/** Linear melting of a snapshot of sensitivities (getMeltedSensitivities). Between the anchor time
    T0 and the evaluation time t a sensitivity decays linearly towards its maturity: a bucket whose
    boundary has already passed is dropped, every surviving bucket is scaled by the remaining share
    of its life and moved to its remaining life in days. Two variants: on the SIMM buckets and on
    the native Libor grid. */
module Melting {
  import opened Wrappers
  import opened Buckets
  import opened BucketProperties
  import opened TimeGrid

  /** Elapsed days act/365, rounded as Java's Math.round does. */
  function ElapsedDays(t0: real, t: real): int {
    JavaRound(365.0 * (t - t0))
  }

  /** Index of the first boundary lying strictly after e (the findFirst of SIMMPortfolio). */
  function FirstAbove(b: seq<int>, e: int): (r: Option<nat>)
    ensures r.Some? ==> r.value < |b| && b[r.value] > e
    ensures r.Some? ==> forall j :: 0 <= j < r.value ==> b[j] <= e
    ensures r.None? ==> forall j :: 0 <= j < |b| ==> b[j] <= e
  {
    if |b| == 0 then None
    else if b[0] > e then Some(0)
    else match FirstAbove(b[1..], e)
      case None => None
      case Some(k) => Some(k + 1)
  }

  /** The new day offsets: every boundary after e, shifted back by e (filter, then map). */
  function ShiftedSurvivors(b: seq<int>, e: int): seq<int> {
    if |b| == 0 then []
    else (if b[0] > e then [b[0] - e] else []) + ShiftedSurvivors(b[1..], e)
  }

  /** The suffix of the boundaries from index f on, shifted back by e days. */
  function ShiftedSuffix(b: seq<int>, e: int, f: nat): (r: seq<int>)
    requires f <= |b|
    ensures |r| == |b| - f
    ensures forall i :: 0 <= i < |r| ==> r[i] == b[i + f] - e
  {
    seq(|b| - f, i requires 0 <= i < |b| - f => b[i + f] - e)
  }

  lemma ShiftedSuffixTail(b: seq<int>, e: int, f: nat)
    requires 1 <= f <= |b|
    ensures ShiftedSuffix(b, e, f) == ShiftedSuffix(b[1..], e, f - 1)
  {
  }

  lemma ShiftedSuffixHead(b: seq<int>, e: int)
    requires 1 <= |b|
    ensures ShiftedSuffix(b, e, 0) == [b[0] - e] + ShiftedSuffix(b[1..], e, 0)
  {
    var l := ShiftedSuffix(b, e, 0);
    var r := [b[0] - e] + ShiftedSuffix(b[1..], e, 0);
    assert |l| == |r|;
    forall i | 0 <= i < |l|
      ensures l[i] == r[i]
    {
      if i > 0 {
        assert r[i] == ShiftedSuffix(b[1..], e, 0)[i - 1];
      }
    }
  }

  /** On ascending boundaries the filter keeps exactly the suffix from the first survivor on. */
  lemma {:induction false} SurvivorsAreShiftedSuffix(b: seq<int>, e: int)
    requires Ascending(b) && FirstAbove(b, e).Some?
    ensures ShiftedSurvivors(b, e) == ShiftedSuffix(b, e, FirstAbove(b, e).value)
  {
    var f := FirstAbove(b, e).value;
    var tail := b[1..];
    assert Ascending(tail) by {
      forall i | 0 < i < |tail|
        ensures tail[i - 1] < tail[i]
      {
        assert tail[i - 1] == b[i] && tail[i] == b[i + 1];
      }
    }
    if b[0] > e {
      assert f == 0;
      assert ShiftedSurvivors(b, e) == [b[0] - e] + ShiftedSurvivors(tail, e);
      if |b| > 1 {
        AscendingPairwise(b, 0, 1);
        assert FirstAbove(tail, e) == Some(0);
        SurvivorsAreShiftedSuffix(tail, e);
      } else {
        assert ShiftedSurvivors(tail, e) == [] == ShiftedSuffix(tail, e, 0);
      }
      ShiftedSuffixHead(b, e);
    } else {
      assert ShiftedSurvivors(b, e) == ShiftedSurvivors(tail, e);
      assert FirstAbove(tail, e) == Some(f - 1);
      SurvivorsAreShiftedSuffix(tail, e);
      ShiftedSuffixTail(b, e, f);
    }
  }

  /** Survivors of bucket melting: bucket i + f scaled by 1 - e / b[i + f]. */
  function Decayed(s: seq<real>, b: seq<int>, e: int, f: nat): (r: seq<real>)
    requires |s| == |b| && f <= |b|
    requires forall j :: 0 <= j < |b| ==> b[j] > 0
    ensures |r| == |b| - f
  {
    seq(|b| - f, i requires 0 <= i < |b| - f => s[i + f] * (1.0 - e as real / b[i + f] as real))
  }

  predicate Positive(b: seq<int>) {
    forall j :: 0 <= j < |b| ==> b[j] > 0
  }

  /** Melting of a vector already on boundaries b, e days after its anchor: the survivors, scaled,
      re-bucketed at their remaining days. No survivor is an error. */
  function MeltOn(s: seq<real>, b: seq<int>, e: int): (r: Result<seq<real>>)
    requires ValidBoundaries(b) && Positive(b) && |s| == |b|
    ensures r.Ok? <==> e < b[|b| - 1]
    ensures r.Err? ==> r.error == NoSuchElement
    ensures r.Ok? ==> |r.value| == |b|
  {
    match FirstAbove(b, e)
    case None => Err(NoSuchElement)
    case Some(f) =>
      var days := ShiftedSuffix(b, e, f);
      assert f < |b| - 1 ==> b[f] < b[|b| - 1] by {
        if f < |b| - 1 { AscendingPairwise(b, f, |b| - 1); }
      }
      Ok(Rebucket(Decayed(s, b, e, f), b, days))
  }

  /** The input on the bucket structure of its risk class: a vector of any other length is first
      mapped onto the buckets from the native grid. */
  function OnOwnBuckets(sens: seq<real>, rc: RiskClass, liborTimes: seq<real>): (r: Result<seq<real>>)
    ensures r.Ok? <==> |sens| == |BucketDays(rc)| || GridCovers(|sens|, liborTimes)
    ensures r.Ok? ==> |r.value| == |BucketDays(rc)|
    ensures r.Ok? && |sens| == |BucketDays(rc)| ==> r.value == sens
  {
    if |sens| != |BucketDays(rc)| then OnBuckets(sens, rc, None, liborTimes) else Ok(sens)
  }

  /** Melting on the SIMM buckets (mode LinearOnBuckets / LinearMelting): the new days are the
      filtered boundaries, the survivors start at the first boundary after e. */
  function MeltOnBuckets(t0: real, t: real, sens: seq<real>, rc: RiskClass, liborTimes: seq<real>): (r: Result<seq<real>>)
    ensures var b := BucketDays(rc);
      r.Ok? <==> (|sens| == |b| || GridCovers(|sens|, liborTimes)) && ElapsedDays(t0, t) < b[|b| - 1]
    ensures r.Ok? ==> |r.value| == |BucketDays(rc)|
    ensures var s := OnOwnBuckets(sens, rc, liborTimes);
      r == if s.Err? then Err(s.error) else MeltOn(s.value, BucketDays(rc), ElapsedDays(t0, t))
  {
    var s :- OnOwnBuckets(sens, rc, liborTimes);
    MeltSnapshot(s, rc, ElapsedDays(t0, t), liborTimes)
  }

  /** Bucket melting of a vector already on the buckets, as SIMMPortfolio writes it: filter the
      boundaries, shift them, and map the scaled survivors with those days. */
  function MeltSnapshot(s: seq<real>, rc: RiskClass, e: int, liborTimes: seq<real>): (r: Result<seq<real>>)
    requires |s| == |BucketDays(rc)|
    ensures r == MeltOn(s, BucketDays(rc), e)
  {
    var b := BucketDays(rc);
    match FirstAbove(b, e)
    case None => Err(NoSuchElement)
    case Some(f) =>
      SurvivorsAreShiftedSuffix(b, e);
      OnBuckets(Decayed(s, b, e, f), rc, Some(ShiftedSurvivors(b, e)), liborTimes)
  }

  /** With no elapsed day every boundary survives unscaled at its own day, so the mapper hands the
      vector back, except that the last bucket (a point on the last boundary) is doubled. */
  lemma ZeroElapsedMelt(s: seq<real>, b: seq<int>)
    requires ValidBoundaries(b) && Positive(b) && |s| == |b|
    ensures MeltOn(s, b, 0) == Ok(s[|s| - 1 := 2.0 * s[|s| - 1]])
  {
    assert FirstAbove(b, 0) == Some(0);
    assert Decayed(s, b, 0, 0) == s;
    assert ShiftedSuffix(b, 0, 0) == b;
    RebucketOnBoundaries(s, b);
  }

  /** The same on the SIMM buckets of a risk class, for any pair of times less than half a day apart. */
  lemma ZeroElapsedOnBuckets(t0: real, t: real, sens: seq<real>, rc: RiskClass, liborTimes: seq<real>)
    requires ElapsedDays(t0, t) == 0 && |sens| == |BucketDays(rc)|
    ensures MeltOnBuckets(t0, t, sens, rc, liborTimes) == Ok(sens[|sens| - 1 := 2.0 * sens[|sens| - 1]])
  {
    ZeroElapsedMelt(sens, BucketDays(rc));
  }

  /** Melting loses no mass beyond the decay: for 0 < e < last boundary the buckets add up to the
      scaled survivors. */
  lemma MeltConservesDecayedMass(s: seq<real>, b: seq<int>, e: int)
    requires ValidBoundaries(b) && Positive(b) && |s| == |b| && 0 < e < b[|b| - 1]
    ensures var r := MeltOn(s, b, e);
      r.Ok? && Sum(r.value) == Sum(Decayed(s, b, e, FirstAbove(b, e).value))
  {
    var f := FirstAbove(b, e).value;
    SuffixSortedBelowLast(b, e, f);
    BucketConservation(Decayed(s, b, e, f), b, ShiftedSuffix(b, e, f));
  }

  /** The shifted days of the survivors after a positive e are ascending and below the last boundary. */
  lemma SuffixSortedBelowLast(b: seq<int>, e: int, f: nat)
    requires ValidBoundaries(b) && f < |b| && e > 0
    ensures SortedUpTo(ShiftedSuffix(b, e, f), |b| - f)
    ensures BelowLast(b, ShiftedSuffix(b, e, f), |b| - f)
  {
    var days := ShiftedSuffix(b, e, f);
    forall i, j | 0 <= i < j < |days|
      ensures days[i] <= days[j]
    {
      AscendingPairwise(b, i + f, j + f);
    }
    forall i | 0 <= i < |days|
      ensures days[i] < b[|b| - 1]
    {
      if i + f < |b| - 1 {
        AscendingPairwise(b, i + f, |b| - 1);
      }
    }
  }

  /** Index of the first native period still alive after d years; zero elapsed time forces 1. */
  function FirstGridIndex(d: real, times: seq<real>): (f: nat)
    ensures f <= |times| || f == 1
    ensures d != 0.0 ==> f == NearestGreaterOrEqual(times, d)
  {
    if d == 0.0 then 1 else NearestGreaterOrEqual(times, d)
  }

  /** Survivors of grid melting: native point i + f - 1 scaled by 1 - d / ((i + f) * step). */
  function GridDecayed(sens: seq<real>, d: real, f: nat, step: real): (r: seq<real>)
    requires 1 <= f <= |sens| + 1 && step > 0.0
    ensures |r| == |sens| - f + 1
  {
    seq(|sens| - f + 1, i requires 0 <= i < |sens| - f + 1 => sens[i + f - 1] * GridFactor(d, i + f, step))
  }

  /** The remaining share of life of native period k after d years: 1 - d / (k * step). */
  function GridFactor(d: real, k: nat, step: real): real
    requires k >= 1 && step > 0.0
  {
    PositiveProduct(k, step);
    1.0 - d / (k as real * step)
  }

  lemma PositiveProduct(n: nat, step: real)
    requires n >= 1 && step > 0.0
    ensures n as real * step > 0.0
  {
    assert n as real * step == step + (n - 1) as real * step;
  }

  /** Melting on the native Libor grid (mode LinearOnLiborPeriodDiscretization /
      LinearMeltingOnLiborBuckets); the melted vector is then mapped with the grid's own days. */
  function MeltOnLiborGrid(t0: real, t: real, sens: seq<real>, rc: RiskClass, times: seq<real>): (r: Result<seq<real>>)
    requires Increasing(times)
    ensures var f := FirstGridIndex(t - t0, times);
      r == Err(NegativeArraySize) <==> f > |sens| + 1
    ensures var f := FirstGridIndex(t - t0, times);
      f <= |sens| && (|times| < 2 || f == 0) ==> r == Err(IndexOutOfBounds)
    ensures r.Ok? ==> |r.value| == |BucketDays(rc)|
    ensures FirstGridIndex(t - t0, times) == |sens| + 1 ==> r == Ok(Zeros(|BucketDays(rc)|))
    ensures var f := FirstGridIndex(t - t0, times);
      1 <= f <= |sens| && |times| >= 2 ==>
        r == OnBuckets(GridDecayed(sens, t - t0, f, times[1] - times[0]), rc, None, times)
  {
    MeltFromIndex(FirstGridIndex(t - t0, times), t - t0, sens, rc, times)
  }

  /** Grid melting once the first surviving native period f is known. */
  function MeltFromIndex(f: nat, d: real, sens: seq<real>, rc: RiskClass, times: seq<real>): (r: Result<seq<real>>)
    requires Increasing(times)
    ensures r == Err(NegativeArraySize) <==> f > |sens| + 1
    ensures f <= |sens| && (|times| < 2 || f == 0) ==> r == Err(IndexOutOfBounds)
    ensures r.Ok? ==> |r.value| == |BucketDays(rc)|
    ensures f == |sens| + 1 ==> r == Ok(Zeros(|BucketDays(rc)|))
    ensures 1 <= f <= |sens| && |times| >= 2 ==>
      r == OnBuckets(GridDecayed(sens, d, f, times[1] - times[0]), rc, None, times)
  {
    var n := |sens| - f + 1;
    if n < 0 then Err(NegativeArraySize)
    else if n == 0 then
      RebucketEmpty(BucketDays(rc), [], 0);
      OnBuckets([], rc, None, times)
    else if |times| < 2 || f == 0 then Err(IndexOutOfBounds)
    else OnBuckets(GridDecayed(sens, d, f, times[1] - times[0]), rc, None, times)
  }

  /** With zero elapsed time the grid variant hands the native vector to the mapper unscaled. */
  lemma ZeroElapsedOnGrid(t: real, sens: seq<real>, rc: RiskClass, times: seq<real>)
    requires Increasing(times) && |times| >= 2
    ensures MeltOnLiborGrid(t, t, sens, rc, times) == OnBuckets(sens, rc, None, times)
  {
    if |sens| > 0 {
      var g := GridDecayed(sens, 0.0, 1, times[1] - times[0]);
      forall i | 0 <= i < |sens|
        ensures g[i] == sens[i]
      {
        assert GridFactor(0.0, i + 1, times[1] - times[0]) == 1.0;
      }
      assert g == sens;
    } else {
      assert sens == [];
    }
  }
}
