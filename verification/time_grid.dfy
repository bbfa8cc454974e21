/** Time discretisations as the melting code queries them: a strictly increasing array of times,
    searched for the nearest point at or below, or at or above, a given time (the semantics of a
    binary search on a sorted array). The reset grid of exact recomputation times is 0, step, ...,
    50 * step. */
module TimeGrid {
  import opened Wrappers

  predicate Increasing(times: seq<real>) {
    forall i, j :: 0 <= i < j < |times| ==> times[i] < times[j]
  }

  /** Index of the last time <= x, or -1 when every time lies above x. */
  function NearestLessOrEqual(times: seq<real>, x: real): (r: int)
    ensures -1 <= r < |times|
    ensures r >= 0 ==> times[r] <= x
    ensures forall j :: r < j < |times| ==> times[j] > x
  {
    LastAtMost(times, x, |times|)
  }

  function LastAtMost(times: seq<real>, x: real, n: nat): (r: int)
    requires n <= |times|
    ensures -1 <= r < n
    ensures r >= 0 ==> times[r] <= x
    ensures forall j :: r < j < n ==> times[j] > x
  {
    if n == 0 then -1
    else if times[n - 1] <= x then n - 1
    else LastAtMost(times, x, n - 1)
  }

  /** Index of the first time >= x, or |times| when every time lies below x. */
  function NearestGreaterOrEqual(times: seq<real>, x: real): (r: nat)
    ensures r <= |times|
    ensures r < |times| ==> times[r] >= x
    ensures forall j :: 0 <= j < r ==> times[j] < x
  {
    FirstAtLeast(times, x, 0)
  }

  function FirstAtLeast(times: seq<real>, x: real, i: nat): (r: nat)
    requires i <= |times|
    requires forall j :: 0 <= j < i ==> times[j] < x
    ensures i <= r <= |times|
    ensures r < |times| ==> times[r] >= x
    ensures forall j :: 0 <= j < r ==> times[j] < x
    decreases |times| - i
  {
    if i == |times| then i
    else if times[i] >= x then i
    else FirstAtLeast(times, x, i + 1)
  }

  /** Number of steps of the reset grid. */
  const ResetSteps: nat := 50

  /** The reset grid 0, step, 2 step, ..., 50 step. */
  function ResetGrid(step: real): (g: seq<real>)
    requires step > 0.0
    ensures |g| == ResetSteps + 1
    ensures forall i :: 0 <= i < |g| ==> g[i] == i as real * step
    ensures Increasing(g)
  {
    var g := seq(ResetSteps + 1, i requires 0 <= i <= ResetSteps => i as real * step);
    assert forall i, j :: 0 <= i < j < |g| ==> g[i] < g[j] by {
      forall i, j | 0 <= i < j < |g|
        ensures g[i] < g[j]
      {
        StepMonotone(i, j, step);
      }
    }
    g
  }

  lemma StepMonotone(i: nat, j: nat, step: real)
    requires i < j && step > 0.0
    ensures i as real * step < j as real * step
  {
    assert j as real * step == i as real * step + (j - i) as real * step;
  }

  /** The index of the reset grid point an evaluation at time t is anchored to: -1 before time
      zero, otherwise the number of whole steps elapsed, capped at 50. */
  function ResetIndex(t: real, step: real): (r: int)
    requires step > 0.0
    ensures r == -1 <==> t < 0.0
    ensures r >= 0 ==> r <= ResetSteps && r as real * step <= t
    ensures r >= 0 ==> r == ResetSteps || t < r as real * step + step
  {
    var g := ResetGrid(step);
    var r := NearestLessOrEqual(g, t);
    assert g[0] == 0.0;
    assert r >= 0 ==> g[r] == r as real * step;
    assert 0 <= r < ResetSteps ==> g[r + 1] == r as real * step + step by {
      if 0 <= r < ResetSteps {
        assert (r + 1) as real * step == r as real * step + step;
      }
    }
    r
  }

  /** A step after a point before the last one is still on the grid. */
  lemma StepBelowEnd(i: nat, step: real)
    requires i < ResetSteps && step > 0.0
    ensures i as real * step + step <= ResetSteps as real * step
  {
    assert ResetSteps as real * step == i as real * step + (ResetSteps - i) as real * step;
    assert (ResetSteps - i) as real * step == step + (ResetSteps - i - 1) as real * step;
  }

  /** The reset point at or below t and the one after it; from the last point of the grid on,
      and before time zero, there is no such pair. */
  function ResetBracket(t: real, step: real): (r: Result<(real, real)>)
    requires step > 0.0
    ensures r.Ok? <==> 0.0 <= t < ResetSteps as real * step
    ensures r.Err? ==> r.error == IndexOutOfBounds
    ensures r.Ok? ==> r.value.0 <= t < r.value.1 && r.value.1 == r.value.0 + step
    ensures r.Ok? ==> t >= 0.0 && r.value.0 == ResetTime(t, step).value
  {
    var idx := ResetIndex(t, step);
    if idx < 0 || idx == ResetSteps then Err(IndexOutOfBounds)
    else
      StepBelowEnd(idx, step);
      var t0 := ResetTime(t, step).value;
      assert t0 <= t < t0 + step;
      Ok((t0, t0 + step))
  }

  /** The grid time itself; looking up index -1 fails. */
  function ResetTime(t: real, step: real): (r: Result<real>)
    requires step > 0.0
    ensures r.Ok? <==> t >= 0.0
    ensures r.Err? ==> r.error == IndexOutOfBounds
    ensures r.Ok? ==> r.value <= t && r.value == ResetIndex(t, step) as real * step
  {
    var i := ResetIndex(t, step);
    if i < 0 then Err(IndexOutOfBounds) else Ok(ResetGrid(step)[i])
  }
}
