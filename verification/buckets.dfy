/** The regulatory bucket mapper of SIMMPortfolio (getSensitivitiesOnBuckets): native
    sensitivities, each with an integer day offset, are split linearly onto the fixed SIMM
    tenor boundaries. The counter/break double loop of SIMMPortfolio is kept as it is. */
module Buckets {
  import opened Wrappers

  datatype RiskClass = InterestRate | CreditQ | CreditNonQ | FX | Commodity | Equity

  /** SIMM interest-rate tenors in days: 2w 1m 3m 6m 1y 2y 3y 5y 10y 15y 20y 30y. */
  const IrBucketDays: seq<int> := [14, 30, 90, 180, 365, 730, 1095, 1825, 3650, 5475, 7300, 10950]

  /** SIMM credit tenors in days: 1y 2y 3y 5y 10y. */
  const CreditBucketDays: seq<int> := [365, 730, 1095, 1825, 3650]

  predicate Ascending(b: seq<int>) {
    forall i :: 0 < i < |b| ==> b[i - 1] < b[i]
  }

  /** At least one bracket, positive and strictly increasing boundaries. */
  predicate ValidBoundaries(b: seq<int>) {
    |b| >= 2 && b[0] > 0 && Ascending(b)
  }

  lemma AscendingPairwise(b: seq<int>, i: int, j: int)
    requires Ascending(b) && 0 <= i < j < |b|
    ensures b[i] < b[j]
    decreases j - i
  {
    if i + 1 < j {
      AscendingPairwise(b, i + 1, j);
    }
  }

  /** The boundaries SIMMPortfolio selects: the interest-rate table for "InterestRate", the credit table otherwise. */
  function BucketDays(rc: RiskClass): (b: seq<int>)
    ensures ValidBoundaries(b)
    ensures |b| == (if rc == InterestRate then 12 else 5)
    ensures forall j :: 0 <= j < |b| ==> b[j] > 0
  {
    if rc == InterestRate then IrBucketDays else CreditBucketDays
  }

  /** Java's Math.round on a double: floor(x + 1/2). */
  function JavaRound(x: real): (n: int)
    ensures n as real - 0.5 <= x < n as real + 0.5
  {
    (x + 0.5).Floor
  }

  function Zeros(n: nat): (z: seq<real>)
    ensures |z| == n && forall i :: 0 <= i < n ==> z[i] == 0.0
  {
    seq(n, _ => 0.0)
  }

  function AddAt(acc: seq<real>, k: nat, v: real): seq<real>
    requires k < |acc|
  {
    acc[k := acc[k] + v]
  }

  /** Share of a point at day d kept by the lower boundary of bracket k. */
  function LowerWeight(b: seq<int>, k: nat, d: int): real
    requires k + 1 < |b| && b[k] < b[k + 1]
  {
    (b[k + 1] - d) as real / (b[k + 1] - b[k]) as real
  }

  /** Share of a point at day d given to the upper boundary of bracket k. */
  function UpperWeight(b: seq<int>, k: nat, d: int): real
    requires k + 1 < |b| && b[k] < b[k + 1]
  {
    (d - b[k]) as real / (b[k + 1] - b[k]) as real
  }

  /** Adds a point of value v at day d to the two boundaries of bracket k, linearly in days. */
  function Split(acc: seq<real>, b: seq<int>, k: nat, v: real, d: int): (r: seq<real>)
    requires |acc| == |b| && k + 1 < |b| && b[k] < b[k + 1]
    ensures |r| == |b|
  {
    AddAt(AddAt(acc, k, v * LowerWeight(b, k, d)), k + 1, v * UpperWeight(b, k, d))
  }

  /** The native grid has a time T_{i+1} for each of n points; with no points nothing is read. */
  predicate GridCovers(n: nat, liborTimes: seq<real>) {
    n == 0 || n < |liborTimes|
  }

  /** Day offsets of the native grid, act/365: round(365 * T_{i+1}) for the first n points. */
  function GridDays(n: nat, liborTimes: seq<real>): (days: seq<int>)
    requires GridCovers(n, liborTimes)
    ensures |days| == n
    ensures forall i :: 0 <= i < n ==> days[i] == JavaRound(365.0 * liborTimes[i + 1])
  {
    seq(n, i requires 0 <= i < n => JavaRound(365.0 * liborTimes[i + 1]))
  }

  /** State carried from one outer pass to the next: the bucket accumulators and `counter`. */
  datatype Pass = Pass(acc: seq<real>, counter: nat)

  /** The inner loop of outer pass k (simmFactor in SIMMPortfolio), from index i on. A point before the
      first boundary goes to bucket 0, a point at or beyond the last boundary goes to the last bucket
      WITHOUT advancing counter, a point in bracket k is split, any other point ends the pass. */
  function ScanPass(b: seq<int>, s: seq<real>, days: seq<int>, k: nat, i: nat, acc: seq<real>, counter: nat): (p: Pass)
    requires ValidBoundaries(b) && |days| >= |s| && k < |b| && |acc| == |b|
    requires counter <= i <= |s|
    ensures |p.acc| == |b| && counter <= p.counter <= |s|
    decreases |s| - i
  {
    if i == |s| then Pass(acc, counter)
    else if days[i] < b[0] then
      ScanPass(b, s, days, k, i + 1, AddAt(acc, 0, s[i]), counter + 1)
    else if days[i] >= b[|b| - 1] then
      ScanPass(b, s, days, k, i + 1, AddAt(acc, |b| - 1, s[i]), counter)
    else if k < |b| - 1 && b[k] <= days[i] && days[i] < b[k + 1] then
      ScanPass(b, s, days, k, i + 1, Split(acc, b, k, s[i], days[i]), counter + 1)
    else
      Pass(acc, counter)
  }

  /** The outer loop: passes k, k+1, ..., |b|-1, each inner loop starting at the current counter. */
  function Passes(b: seq<int>, s: seq<real>, days: seq<int>, k: nat, acc: seq<real>, counter: nat): (r: seq<real>)
    requires ValidBoundaries(b) && |days| >= |s| && k <= |b| && |acc| == |b| && counter <= |s|
    ensures |r| == |b|
    decreases |b| - k
  {
    if k == |b| then acc
    else
      var p := ScanPass(b, s, days, k, counter, acc, counter);
      Passes(b, s, days, k + 1, p.acc, p.counter)
  }

  /** The whole mapping: every bucket starts at zero, then the double loop runs. */
  function Rebucket(s: seq<real>, b: seq<int>, days: seq<int>): (r: seq<real>)
    requires ValidBoundaries(b) && |days| >= |s|
    ensures |r| == |b|
  {
    Passes(b, s, days, 0, Zeros(|b|), 0)
  }

  /** The inner loop of pass k over a day array that may be shorter than the sensitivities: it
      reads the day of every point it visits, and the first read past the array is Java's index
      error. */
  function CheckedScanPass(b: seq<int>, s: seq<real>, days: seq<int>, k: nat, i: nat, acc: seq<real>, counter: nat): (r: Result<Pass>)
    requires ValidBoundaries(b) && k < |b| && |acc| == |b|
    requires counter <= i <= |s|
    ensures |days| >= |s| ==> r == Ok(ScanPass(b, s, days, k, i, acc, counter))
    ensures r.Err? ==> r.error == IndexOutOfBounds && |days| < |s|
    ensures r.Ok? ==> |r.value.acc| == |b| && counter <= r.value.counter <= |s|
    decreases |s| - i
  {
    if i == |s| then Ok(Pass(acc, counter))
    else if i >= |days| then Err(IndexOutOfBounds)
    else if days[i] < b[0] then
      CheckedScanPass(b, s, days, k, i + 1, AddAt(acc, 0, s[i]), counter + 1)
    else if days[i] >= b[|b| - 1] then
      CheckedScanPass(b, s, days, k, i + 1, AddAt(acc, |b| - 1, s[i]), counter)
    else if k < |b| - 1 && b[k] <= days[i] && days[i] < b[k + 1] then
      CheckedScanPass(b, s, days, k, i + 1, Split(acc, b, k, s[i], days[i]), counter + 1)
    else
      Ok(Pass(acc, counter))
  }

  /** The outer loop over a day array that may be too short; the first failing pass ends it. */
  function CheckedPasses(b: seq<int>, s: seq<real>, days: seq<int>, k: nat, acc: seq<real>, counter: nat): (r: Result<seq<real>>)
    requires ValidBoundaries(b) && k <= |b| && |acc| == |b| && counter <= |s|
    ensures |days| >= |s| ==> r == Ok(Passes(b, s, days, k, acc, counter))
    ensures r.Err? ==> r.error == IndexOutOfBounds && |days| < |s|
    ensures r.Ok? ==> |r.value| == |b|
    decreases |b| - k
  {
    if k == |b| then Ok(acc)
    else
      var p :- CheckedScanPass(b, s, days, k, counter, acc, counter);
      CheckedPasses(b, s, days, k + 1, p.acc, p.counter)
  }

  /** A pass that reads no missing day computes what it computes on any longer array with the same
      leading days: the days it never reads do not matter. */
  lemma {:induction false} CheckedScanPassExtends(b: seq<int>, s: seq<real>, d: seq<int>, e: seq<int>, k: nat, i: nat, acc: seq<real>, counter: nat)
    requires ValidBoundaries(b) && k < |b| && |acc| == |b| && counter <= i <= |s|
    requires |e| >= |s| && |d| <= |e| && d == e[..|d|]
    requires CheckedScanPass(b, s, d, k, i, acc, counter).Ok?
    ensures CheckedScanPass(b, s, d, k, i, acc, counter).value == ScanPass(b, s, e, k, i, acc, counter)
    decreases |s| - i
  {
    if i < |s| {
      assert d[i] == e[i];
      var x := d[i];
      if x < b[0] {
        CheckedScanPassExtends(b, s, d, e, k, i + 1, AddAt(acc, 0, s[i]), counter + 1);
      } else if x >= b[|b| - 1] {
        CheckedScanPassExtends(b, s, d, e, k, i + 1, AddAt(acc, |b| - 1, s[i]), counter);
      } else if k < |b| - 1 && b[k] <= x && x < b[k + 1] {
        CheckedScanPassExtends(b, s, d, e, k, i + 1, Split(acc, b, k, s[i], x), counter + 1);
      }
    }
  }

  lemma {:induction false} CheckedPassesExtends(b: seq<int>, s: seq<real>, d: seq<int>, e: seq<int>, k: nat, acc: seq<real>, counter: nat)
    requires ValidBoundaries(b) && k <= |b| && |acc| == |b| && counter <= |s|
    requires |e| >= |s| && |d| <= |e| && d == e[..|d|]
    requires CheckedPasses(b, s, d, k, acc, counter).Ok?
    ensures CheckedPasses(b, s, d, k, acc, counter).value == Passes(b, s, e, k, acc, counter)
    decreases |b| - k
  {
    if k < |b| {
      var p := CheckedScanPass(b, s, d, k, counter, acc, counter).value;
      CheckedScanPassExtends(b, s, d, e, k, counter, acc, counter);
      CheckedPassesExtends(b, s, d, e, k + 1, p.acc, p.counter);
    }
  }

  /** getSensitivitiesOnBuckets: `days` is the explicit day array, or None (Java null) for the
      native grid days. Without days, the grid must have a time for every point; with days, the
      loop fails only when it reads past the array, which a break may prevent. */
  function OnBuckets(s: seq<real>, rc: RiskClass, days: Option<seq<int>>, liborTimes: seq<real>): (r: Result<seq<real>>)
    ensures days.None? ==> (r.Ok? <==> GridCovers(|s|, liborTimes))
    ensures days.Some? && |s| <= |days.value| ==> r.Ok?
    ensures r.Err? ==> r.error == IndexOutOfBounds
    ensures r.Err? && days.Some? ==> |days.value| < |s|
    ensures r.Ok? ==> |r.value| == (if rc == InterestRate then 12 else 5)
    ensures r.Ok? && days.Some? && |s| <= |days.value| ==> r.value == Rebucket(s, BucketDays(rc), days.value)
    ensures r.Ok? && days.None? ==> r.value == Rebucket(s, BucketDays(rc), GridDays(|s|, liborTimes))
  {
    match days
    case Some(d) => CheckedPasses(BucketDays(rc), s, d, 0, Zeros(|BucketDays(rc)|), 0)
    case None =>
      if !GridCovers(|s|, liborTimes) then Err(IndexOutOfBounds)
      else Ok(Rebucket(s, BucketDays(rc), GridDays(|s|, liborTimes)))
  }

  /** With explicit days, a successful mapping is the double loop on any day array that agrees
      with the given one wherever it has an entry. */
  lemma UnreadDaysIrrelevant(s: seq<real>, rc: RiskClass, d: seq<int>, e: seq<int>, liborTimes: seq<real>)
    requires OnBuckets(s, rc, Some(d), liborTimes).Ok?
    requires |e| >= |s| && |d| <= |e| && d == e[..|d|]
    ensures OnBuckets(s, rc, Some(d), liborTimes).value == Rebucket(s, BucketDays(rc), e)
  {
    CheckedPassesExtends(BucketDays(rc), s, d, e, 0, Zeros(|BucketDays(rc)|), 0);
  }

  /** With no days at all, the first read fails. */
  lemma NoDaysFail(s: seq<real>, rc: RiskClass, liborTimes: seq<real>)
    requires |s| > 0
    ensures OnBuckets(s, rc, Some([]), liborTimes) == Err(IndexOutOfBounds)
  {
  }

  /** Unsorted days: every pass breaks at 5000 days until the pass of its bracket, whose scan then
      breaks at 100 days, so the third day is never read and the mapping succeeds. */
  lemma BreakBeforeMissingDay()
    ensures OnBuckets([1.0, 2.0, 3.0], InterestRate, Some([5000, 100]), []).Ok?
  {
  }

  /** Ascending days: the first point is split in the first bracket and the scan moves on to read
      the missing second day. */
  lemma ScanReachesMissingDay()
    ensures OnBuckets([1.0, 2.0], InterestRate, Some([20]), []) == Err(IndexOutOfBounds)
  {
  }

  /** SIMMPortfolio's double loop over arrays, statement by statement. */
  method RebucketLoop(s: seq<real>, b: seq<int>, days: seq<int>) returns (deltaSimm: seq<real>)
    requires ValidBoundaries(b) && |days| >= |s|
    ensures deltaSimm == Rebucket(s, b, days)
  {
    deltaSimm := Zeros(|b|);
    var counter: nat := 0;
    var simmFactor := 0;
    while simmFactor < |b|
      invariant 0 <= simmFactor <= |b|
      invariant |deltaSimm| == |b| && counter <= |s|
      invariant Passes(b, s, days, simmFactor, deltaSimm, counter) == Rebucket(s, b, days)
    {
      ghost var start, acc0 := counter, deltaSimm;
      var i := counter;
      while i < |s|
        invariant counter <= i <= |s| && start <= counter
        invariant |deltaSimm| == |b|
        invariant ScanPass(b, s, days, simmFactor, i, deltaSimm, counter)
               == ScanPass(b, s, days, simmFactor, start, acc0, start)
      {
        if days[i] < b[0] {
          deltaSimm := AddAt(deltaSimm, 0, s[i]);
          counter := counter + 1;
        } else if days[i] >= b[|b| - 1] {
          deltaSimm := AddAt(deltaSimm, |b| - 1, s[i]);
        } else if simmFactor < |b| - 1 && b[simmFactor] <= days[i] && days[i] < b[simmFactor + 1] {
          deltaSimm := Split(deltaSimm, b, simmFactor, s[i], days[i]);
          counter := counter + 1;
        } else {
          break;
        }
        i := i + 1;
      }
      simmFactor := simmFactor + 1;
    }
  }
}
