/** Properties of the bucket mapper: an independent reference definition (each native point
    placed once on its bracket), the conditions under which the double loop agrees with it and
    conserves mass, and what the loop does to points at or beyond the last boundary. */
module BucketProperties {
  import opened Buckets

  function Sum(s: seq<real>): real {
    if |s| == 0 then 0.0 else Sum(s[..|s| - 1]) + s[|s| - 1]
  }

  /** Every point lies strictly below the last boundary. */
  predicate BelowLast(b: seq<int>, days: seq<int>, n: nat)
    requires |b| > 0 && n <= |days|
  {
    forall i :: 0 <= i < n ==> days[i] < b[|b| - 1]
  }

  predicate SortedUpTo(days: seq<int>, n: nat)
    requires n <= |days|
  {
    forall i, j :: 0 <= i < j < n ==> days[i] <= days[j]
  }

  function BracketFrom(b: seq<int>, d: int, k: nat): (r: nat)
    requires ValidBoundaries(b) && k < |b| - 1 && b[k] <= d < b[|b| - 1]
    ensures k <= r && r + 1 < |b| && b[r] <= d < b[r + 1]
    decreases |b| - k
  {
    if d < b[k + 1] then k else BracketFrom(b, d, k + 1)
  }

  /** The bracket of a day inside the boundary range. */
  function Bracket(b: seq<int>, d: int): (k: nat)
    requires ValidBoundaries(b) && b[0] <= d < b[|b| - 1]
    ensures k + 1 < |b| && b[k] <= d < b[k + 1]
  {
    BracketFrom(b, d, 0)
  }

  lemma BracketUnique(b: seq<int>, d: int, k: nat)
    requires ValidBoundaries(b) && k + 1 < |b| && b[k] <= d < b[k + 1]
    ensures b[0] <= d < b[|b| - 1]
    ensures Bracket(b, d) == k
  {
    if k > 0 { AscendingPairwise(b, 0, k); }
    if k + 1 < |b| - 1 { AscendingPairwise(b, k + 1, |b| - 1); }
    var r := Bracket(b, d);
    if r < k { AscendingPairwise(b, r + 1, k); }
    if r > k { AscendingPairwise(b, k + 1, r); }
  }

  /** Reference placement of ONE native point of value v at day d: wholly on bucket 0 before the
      first boundary, otherwise split linearly between the two boundaries of its bracket. */
  function Place(acc: seq<real>, b: seq<int>, v: real, d: int): (r: seq<real>)
    requires ValidBoundaries(b) && |acc| == |b| && d < b[|b| - 1]
    ensures |r| == |b|
  {
    if d < b[0] then AddAt(acc, 0, v)
    else Split(acc, b, Bracket(b, d), v, d)
  }

  /** Reference mapping: the first n points, each placed exactly once. */
  function Spread(s: seq<real>, b: seq<int>, days: seq<int>, n: nat): (r: seq<real>)
    requires ValidBoundaries(b) && n <= |s| <= |days| && BelowLast(b, days, n)
    ensures |r| == |b|
  {
    if n == 0 then Zeros(|b|)
    else Place(Spread(s, b, days, n - 1), b, s[n - 1], days[n - 1])
  }

  /** At the start of outer pass k with counter c, every unprocessed point is at or above b[k]
      (nothing is known in pass 0); after the last pass no point may remain. */
  predicate Pending(b: seq<int>, days: seq<int>, n: nat, k: nat, c: nat)
    requires n <= |days|
  {
    && (k >= |b| ==> c >= n)
    && forall j :: c <= j < n ==> k == 0 || (k < |b| && days[j] >= b[k])
  }

  /** Every point from m on lies at or beyond the last boundary. */
  predicate AtOrBeyondLast(b: seq<int>, days: seq<int>, m: nat, n: nat)
    requires |b| > 0 && m <= n <= |days|
  {
    forall j :: m <= j < n ==> days[j] >= b[|b| - 1]
  }

  /** The outer pass in which the scan first reaches point m, when the m points before it are
      ascending and below the last boundary: the bracket of the last of them (pass 0 when there
      is none or it lies before the first boundary). */
  function TailPass(b: seq<int>, days: seq<int>, m: nat): (k: nat)
    requires ValidBoundaries(b) && m <= |days| && BelowLast(b, days, m)
    ensures k + 1 < |b|
  {
    if m == 0 || days[m - 1] < b[0] then 0 else Bracket(b, days[m - 1])
  }

  /** Points at or beyond the last boundary are all added to the last bucket, and counter stays. */
  lemma {:induction false} ScanTail(b: seq<int>, s: seq<real>, days: seq<int>, k: nat, i: nat, acc: seq<real>, c: nat)
    requires ValidBoundaries(b) && |days| >= |s| && k < |b| && |acc| == |b| && c <= i <= |s|
    requires AtOrBeyondLast(b, days, i, |s|)
    ensures ScanPass(b, s, days, k, i, acc, c) == Pass(AddAt(acc, |b| - 1, Sum(s[i..])), c)
    decreases |s| - i
  {
    var n := |b| - 1;
    if i == |s| {
      assert AddAt(acc, n, 0.0) == acc;
    } else {
      AscendingPairwise(b, 0, n);
      var acc' := AddAt(acc, n, s[i]);
      assert ScanPass(b, s, days, k, i, acc, c) == ScanPass(b, s, days, k, i + 1, acc', c);
      ScanTail(b, s, days, k, i + 1, acc', c);
      SumFront(s[i..]);
      assert s[i..][1..] == s[i + 1..];
      AddAtTwice(acc, n, s[i], Sum(s[i + 1..]));
    }
  }

  /** What one outer pass does over ascending days below the last boundary followed by a tail at
      or beyond it, starting at counter i with the first i points placed and x extra on the last
      bucket: the pass places further points once each; it stops short of the tail exactly in the
      passes before TailPass, and otherwise it also adds the whole tail to the last bucket. */
  predicate SortedPass(b: seq<int>, s: seq<real>, days: seq<int>, m: nat, k: nat, i: nat, x: real)
    requires ValidBoundaries(b) && |days| >= |s| && k < |b| && i <= m <= |s| && BelowLast(b, days, m)
  {
    SortedPassResult(b, s, days, m, k, i, x, ScanPass(b, s, days, k, i, AddAt(Spread(s, b, days, i), |b| - 1, x), i))
  }

  /** The result p of such a pass, as SortedPass describes it. */
  predicate SortedPassResult(b: seq<int>, s: seq<real>, days: seq<int>, m: nat, k: nat, i: nat, x: real, p: Pass)
    requires ValidBoundaries(b) && |days| >= |s| && k < |b| && i <= m <= |s| && BelowLast(b, days, m)
    requires |p.acc| == |b|
  {
    && i <= p.counter <= m
    && Pending(b, days, m, k + 1, p.counter)
    && (p.counter < m ==> p.acc == AddAt(Spread(s, b, days, p.counter), |b| - 1, x))
    && (p.counter == m ==> p.acc == AddAt(Spread(s, b, days, m), |b| - 1, x + Sum(s[m..])))
    && (i < m ==> (p.counter == m <==> TailPass(b, days, m) <= k))
  }

  /** Every outer pass over such days does what SortedPass says. */
  lemma {:induction false} ScanPassSorted(b: seq<int>, s: seq<real>, days: seq<int>, m: nat, k: nat, i: nat, x: real)
    requires ValidBoundaries(b) && |days| >= |s| && k < |b| && i <= m <= |s|
    requires SortedUpTo(days, m) && BelowLast(b, days, m) && AtOrBeyondLast(b, days, m, |s|)
    requires Pending(b, days, m, k, i)
    ensures SortedPass(b, s, days, m, k, i, x)
    decreases |s| - i, 1
  {
    if i == m {
      SortedPassAtTail(b, s, days, m, k, i, x);
    } else {
      assert days[i] < b[|b| - 1];
      if days[i] < b[0] || (k < |b| - 1 && b[k] <= days[i] && days[i] < b[k + 1]) {
        SortedPassPlaces(b, s, days, m, k, i, x);
      } else {
        SortedPassBreaks(b, s, days, m, k, i, x);
      }
    }
  }

  /** At the tail the pass only adds the tail to the last bucket. */
  lemma SortedPassAtTail(b: seq<int>, s: seq<real>, days: seq<int>, m: nat, k: nat, i: nat, x: real)
    requires ValidBoundaries(b) && |days| >= |s| && k < |b| && i <= m <= |s|
    requires SortedUpTo(days, m) && BelowLast(b, days, m) && AtOrBeyondLast(b, days, m, |s|)
    requires Pending(b, days, m, k, i)
    requires i == m
    ensures SortedPass(b, s, days, m, k, i, x)
  {
    var n := |b| - 1;
    var acc := AddAt(Spread(s, b, days, i), n, x);
    ScanTail(b, s, days, k, i, acc, i);
    AddAtTwice(Spread(s, b, days, i), n, x, Sum(s[m..]));
    AscendingPairwise(b, 0, n);
  }

  /** A point before the first boundary or inside bracket k is placed, and the pass goes on. */
  lemma {:induction false} SortedPassPlaces(b: seq<int>, s: seq<real>, days: seq<int>, m: nat, k: nat, i: nat, x: real)
    requires ValidBoundaries(b) && |days| >= |s| && k < |b| && i <= m <= |s|
    requires SortedUpTo(days, m) && BelowLast(b, days, m) && AtOrBeyondLast(b, days, m, |s|)
    requires Pending(b, days, m, k, i)
    requires i < m && (days[i] < b[0] || (k < |b| - 1 && b[k] <= days[i] && days[i] < b[k + 1]))
    ensures SortedPass(b, s, days, m, k, i, x)
    decreases |s| - i, 0
  {
    var n := |b| - 1;
    var acc := AddAt(Spread(s, b, days, i), n, x);
    assert ScanPass(b, s, days, k, i, acc, i)
        == ScanPass(b, s, days, k, i + 1, AddAt(Spread(s, b, days, i + 1), n, x), i + 1) by {
      ScanStepPlaces(b, s, days, k, i, acc);
      PlaceCommutes(Spread(s, b, days, i), b, s[i], days[i], x);
    }
    ScanPassSorted(b, s, days, m, k, i + 1, x);
    if i + 1 == m {
      TailPassOfPlaced(b, days, m, k);
    }
    SortedPassFromNext(b, s, days, m, k, i, x, ScanPass(b, s, days, k, i, acc, i));
  }

  /** A pass that placed point i and went on is the pass from point i + 1. */
  lemma SortedPassFromNext(b: seq<int>, s: seq<real>, days: seq<int>, m: nat, k: nat, i: nat, x: real, p: Pass)
    requires ValidBoundaries(b) && |days| >= |s| && k < |b| && i < m <= |s| && BelowLast(b, days, m)
    requires |p.acc| == |b| && SortedPassResult(b, s, days, m, k, i + 1, x, p)
    requires i + 1 == m ==> TailPass(b, days, m) <= k
    ensures SortedPassResult(b, s, days, m, k, i, x, p)
  {
  }

  /** A point past bracket k ends the pass: nothing more is placed and the tail waits. */
  lemma SortedPassBreaks(b: seq<int>, s: seq<real>, days: seq<int>, m: nat, k: nat, i: nat, x: real)
    requires ValidBoundaries(b) && |days| >= |s| && k < |b| && i <= m <= |s|
    requires SortedUpTo(days, m) && BelowLast(b, days, m) && AtOrBeyondLast(b, days, m, |s|)
    requires Pending(b, days, m, k, i)
    requires i < m && days[i] >= b[0]
    requires !(k < |b| - 1 && b[k] <= days[i] && days[i] < b[k + 1])
    ensures SortedPass(b, s, days, m, k, i, x)
  {
    var acc := AddAt(Spread(s, b, days, i), |b| - 1, x);
    assert days[i] < b[|b| - 1];
    assert ScanPass(b, s, days, k, i, acc, i) == Pass(acc, i);
    BreakLeavesRestAbove(b, days, m, k, i);
    TailPassAfterBreak(b, days, m, k, i);
  }

  /** The last point before the tail, placed in pass k, has its bracket at most k. */
  lemma TailPassOfPlaced(b: seq<int>, days: seq<int>, m: nat, k: nat)
    requires ValidBoundaries(b) && 0 < m <= |days| && BelowLast(b, days, m) && k < |b|
    requires days[m - 1] < b[0] || (k < |b| - 1 && b[k] <= days[m - 1] < b[k + 1])
    ensures TailPass(b, days, m) <= k
  {
    if days[m - 1] >= b[0] {
      BracketUnique(b, days[m - 1], k);
    }
  }

  /** A pass that breaks before point m leaves the tail to a later pass. */
  lemma TailPassAfterBreak(b: seq<int>, days: seq<int>, m: nat, k: nat, i: nat)
    requires ValidBoundaries(b) && i < m <= |days| && k + 1 < |b| && SortedUpTo(days, m) && BelowLast(b, days, m)
    requires days[i] >= b[k + 1]
    ensures TailPass(b, days, m) > k
  {
    var d := days[m - 1];
    assert d >= days[i];
    AscendingPairwise(b, 0, k + 1);
    var r := Bracket(b, d);
    if r <= k {
      if r + 1 < k + 1 { AscendingPairwise(b, r + 1, k + 1); }
      assert false;
    }
  }

  /** A point before the first boundary, or inside bracket k, is placed by the pass as the
      reference places it, and the pass goes on with the next point. */
  lemma ScanStepPlaces(b: seq<int>, s: seq<real>, days: seq<int>, k: nat, i: nat, acc: seq<real>)
    requires ValidBoundaries(b) && |days| >= |s| && k < |b| && |acc| == |b| && i < |s|
    requires days[i] < b[0] || (k < |b| - 1 && b[k] <= days[i] && days[i] < b[k + 1])
    ensures days[i] < b[|b| - 1]
    ensures ScanPass(b, s, days, k, i, acc, i) == ScanPass(b, s, days, k, i + 1, Place(acc, b, s[i], days[i]), i + 1)
  {
    if days[i] >= b[0] {
      ScanStepSplits(b, s, days, k, i, acc, i);
    } else {
      AscendingPairwise(b, 0, |b| - 1);
    }
  }

  /** A point inside bracket k is split by the pass exactly as the reference places it. */
  lemma ScanStepSplits(b: seq<int>, s: seq<real>, days: seq<int>, k: nat, i: nat, acc: seq<real>, c: nat)
    requires ValidBoundaries(b) && |days| >= |s| && k + 1 < |b| && |acc| == |b| && c <= i < |s|
    requires b[k] <= days[i] < b[k + 1]
    ensures days[i] < b[|b| - 1]
    ensures ScanPass(b, s, days, k, i, acc, c) == ScanPass(b, s, days, k, i + 1, Place(acc, b, s[i], days[i]), c + 1)
  {
    PlaceSplits(acc, b, s[i], days[i], k);
  }

  /** The pass ends at a point that is not in bracket k: it, and every later point, lies at or
      above the next boundary. */
  lemma BreakLeavesRestAbove(b: seq<int>, days: seq<int>, n: nat, k: nat, i: nat)
    requires ValidBoundaries(b) && i < n <= |days| && k < |b| && SortedUpTo(days, n)
    requires b[0] <= days[i] < b[|b| - 1] && (k == 0 || days[i] >= b[k])
    requires !(k < |b| - 1 && b[k] <= days[i] && days[i] < b[k + 1])
    ensures Pending(b, days, n, k + 1, i)
  {
    assert k + 1 < |b| && days[i] >= b[k + 1];
    forall j | i <= j < n
      ensures k + 1 == 0 || (k + 1 < |b| && days[j] >= b[k + 1])
    {
      if j > i { assert days[i] <= days[j]; }
    }
  }

  /** n additions of t. */
  function Repeated(n: nat, t: real): real {
    if n == 0 then 0.0 else t + Repeated(n - 1, t)
  }

  lemma {:induction false} RepeatedZero(n: nat)
    ensures Repeated(n, 0.0) == 0.0
  {
    if n > 0 {
      RepeatedZero(n - 1);
    }
  }

  lemma {:induction false} RepeatedIsProduct(n: nat, t: real)
    ensures Repeated(n, t) == n as real * t
  {
    if n > 0 {
      RepeatedIsProduct(n - 1, t);
      assert n as real * t == t + (n - 1) as real * t;
    }
  }

  /** Once counter has reached a tail of points at or beyond the last boundary, each remaining
      pass adds the whole tail to the last bucket once more. */
  lemma {:induction false} PassesFromTail(b: seq<int>, s: seq<real>, days: seq<int>, m: nat, k: nat, acc: seq<real>)
    requires ValidBoundaries(b) && |days| >= |s| && k <= |b| && m <= |s| && |acc| == |b|
    requires AtOrBeyondLast(b, days, m, |s|)
    ensures Passes(b, s, days, k, acc, m) == AddAt(acc, |b| - 1, Repeated(|b| - k, Sum(s[m..])))
    decreases |b| - k
  {
    var n := |b| - 1;
    var tail := Sum(s[m..]);
    if k == |b| {
      AddAtZero(acc, n);
    } else {
      ScanTail(b, s, days, k, m, acc, m);
      PassesFromTail(b, s, days, m, k + 1, AddAt(acc, n, tail));
      AddAtTwice(acc, n, tail, Repeated(|b| - (k + 1), tail));
    }
  }

  /** The outer passes from pass k on, in the situation of ScanPassSorted before the tail is
      reached: the passes up to TailPass place the remaining points, and every pass from TailPass
      on adds the tail to the last bucket. */
  lemma {:induction false} PassesBeforeTail(b: seq<int>, s: seq<real>, days: seq<int>, m: nat, k: nat, c: nat, x: real)
    requires ValidBoundaries(b) && |days| >= |s| && c < m <= |s|
    requires SortedUpTo(days, m) && BelowLast(b, days, m) && AtOrBeyondLast(b, days, m, |s|)
    requires k <= TailPass(b, days, m) && Pending(b, days, m, k, c)
    ensures Passes(b, s, days, k, AddAt(Spread(s, b, days, c), |b| - 1, x), c)
         == AddAt(Spread(s, b, days, m), |b| - 1, x + Repeated(|b| - TailPass(b, days, m), Sum(s[m..])))
    decreases |b| - k, 1
  {
    if ScanPass(b, s, days, k, c, AddAt(Spread(s, b, days, c), |b| - 1, x), c).counter < m {
      PassStoppingBeforeTail(b, s, days, m, k, c, x);
    } else {
      PassAtTail(b, s, days, m, k, c, x);
    }
  }

  /** Pass k reaches the tail: it is pass TailPass, and it and every later pass add the tail. */
  lemma PassAtTail(b: seq<int>, s: seq<real>, days: seq<int>, m: nat, k: nat, c: nat, x: real)
    requires ValidBoundaries(b) && |days| >= |s| && c < m <= |s|
    requires SortedUpTo(days, m) && BelowLast(b, days, m) && AtOrBeyondLast(b, days, m, |s|)
    requires k <= TailPass(b, days, m) && Pending(b, days, m, k, c)
    requires ScanPass(b, s, days, k, c, AddAt(Spread(s, b, days, c), |b| - 1, x), c).counter >= m
    ensures Passes(b, s, days, k, AddAt(Spread(s, b, days, c), |b| - 1, x), c)
         == AddAt(Spread(s, b, days, m), |b| - 1, x + Repeated(|b| - TailPass(b, days, m), Sum(s[m..])))
  {
    ScanReachesTail(b, s, days, m, k, c, x);
    PassReachingTail(b, s, days, m, k, c, AddAt(Spread(s, b, days, c), |b| - 1, x), Spread(s, b, days, m), x,
      |b| - TailPass(b, days, m));
  }

  /** Pass k stops before the tail: the later passes carry on from where it stopped. */
  lemma {:induction false} PassStoppingBeforeTail(b: seq<int>, s: seq<real>, days: seq<int>, m: nat, k: nat, c: nat, x: real)
    requires ValidBoundaries(b) && |days| >= |s| && c < m <= |s|
    requires SortedUpTo(days, m) && BelowLast(b, days, m) && AtOrBeyondLast(b, days, m, |s|)
    requires k <= TailPass(b, days, m) && Pending(b, days, m, k, c)
    requires ScanPass(b, s, days, k, c, AddAt(Spread(s, b, days, c), |b| - 1, x), c).counter < m
    ensures Passes(b, s, days, k, AddAt(Spread(s, b, days, c), |b| - 1, x), c)
         == AddAt(Spread(s, b, days, m), |b| - 1, x + Repeated(|b| - TailPass(b, days, m), Sum(s[m..])))
    decreases |b| - k, 0
  {
    var acc := AddAt(Spread(s, b, days, c), |b| - 1, x);
    var p := ScanPass(b, s, days, k, c, acc, c);
    assert Passes(b, s, days, k, acc, c) == Passes(b, s, days, k + 1, p.acc, p.counter);
    ScanStopsBeforeTail(b, s, days, m, k, c, x);
    PassesBeforeTail(b, s, days, m, k + 1, p.counter, x);
  }

  /** Pass k reaches the tail, moving counter to m with the points before it placed: it and every
      later pass add the tail to the last bucket. */
  lemma PassReachingTail(b: seq<int>, s: seq<real>, days: seq<int>, m: nat, k: nat, c: nat, acc: seq<real>, placed: seq<real>, x: real, r: nat)
    requires ValidBoundaries(b) && |days| >= |s| && c <= m <= |s| && k < |b| && r == |b| - k
    requires |acc| == |b| && |placed| == |b| && AtOrBeyondLast(b, days, m, |s|)
    requires var p := ScanPass(b, s, days, k, c, acc, c);
      p.counter == m && p.acc == AddAt(placed, |b| - 1, x + Sum(s[m..]))
    ensures Passes(b, s, days, k, acc, c) == AddAt(placed, |b| - 1, x + Repeated(r, Sum(s[m..])))
  {
    var p := ScanPass(b, s, days, k, c, acc, c);
    assert Passes(b, s, days, k, acc, c) == Passes(b, s, days, k + 1, p.acc, p.counter);
    TailPasses(b, s, days, m, k, placed, x, p);
  }

  /** A pass of ScanPassSorted that stops before the tail leaves the next pass in the same
      situation, one boundary further on. */
  lemma ScanStopsBeforeTail(b: seq<int>, s: seq<real>, days: seq<int>, m: nat, k: nat, c: nat, x: real)
    requires ValidBoundaries(b) && |days| >= |s| && c < m <= |s|
    requires SortedUpTo(days, m) && BelowLast(b, days, m) && AtOrBeyondLast(b, days, m, |s|)
    requires k <= TailPass(b, days, m) && Pending(b, days, m, k, c)
    ensures var p := ScanPass(b, s, days, k, c, AddAt(Spread(s, b, days, c), |b| - 1, x), c);
      p.counter < m ==>
        && k + 1 <= TailPass(b, days, m) && Pending(b, days, m, k + 1, p.counter)
        && p.acc == AddAt(Spread(s, b, days, p.counter), |b| - 1, x)
  {
    ScanPassSorted(b, s, days, m, k, c, x);
  }

  /** A pass of ScanPassSorted that reaches the tail is pass TailPass; it has placed the first m
      points and added the tail once. */
  lemma ScanReachesTail(b: seq<int>, s: seq<real>, days: seq<int>, m: nat, k: nat, c: nat, x: real)
    requires ValidBoundaries(b) && |days| >= |s| && c < m <= |s|
    requires SortedUpTo(days, m) && BelowLast(b, days, m) && AtOrBeyondLast(b, days, m, |s|)
    requires k <= TailPass(b, days, m) && Pending(b, days, m, k, c)
    ensures var p := ScanPass(b, s, days, k, c, AddAt(Spread(s, b, days, c), |b| - 1, x), c);
      p.counter >= m ==>
        && k == TailPass(b, days, m) && p.counter == m
        && p.acc == AddAt(Spread(s, b, days, m), |b| - 1, x + Sum(s[m..]))
  {
    ScanPassSorted(b, s, days, m, k, c, x);
  }

  /** The pass p that reaches the tail adds it once, and so does every later pass. */
  lemma TailPasses(b: seq<int>, s: seq<real>, days: seq<int>, m: nat, k: nat, acc: seq<real>, x: real, p: Pass)
    requires ValidBoundaries(b) && |days| >= |s| && k < |b| && m <= |s| && |acc| == |b|
    requires AtOrBeyondLast(b, days, m, |s|)
    requires p.counter == m && p.acc == AddAt(acc, |b| - 1, x + Sum(s[m..]))
    ensures Passes(b, s, days, k + 1, p.acc, p.counter)
         == AddAt(acc, |b| - 1, x + Repeated(|b| - k, Sum(s[m..])))
  {
    var n := |b| - 1;
    var tail := Sum(s[m..]);
    PassesFromTail(b, s, days, m, k + 1, AddAt(acc, n, x + tail));
    LastPassesJoin(acc, n, x, tail, |b| - (k + 1));
  }

  /** The pass that reaches the tail and the passes after it add up on the last bucket. */
  lemma LastPassesJoin(acc: seq<real>, n: nat, x: real, tail: real, r: nat)
    requires n < |acc|
    ensures AddAt(AddAt(acc, n, x + tail), n, Repeated(r, tail)) == AddAt(acc, n, x + Repeated(r + 1, tail))
  {
    AddAtTwice(acc, n, x + tail, Repeated(r, tail));
  }

  /** The double loop on ascending days below the last boundary followed by a tail of points at or
      beyond it: the first m points are placed once each as the reference places them, and the
      tail is added to the last bucket once in every pass from TailPass on. */
  lemma RebucketSortedThenBeyond(s: seq<real>, b: seq<int>, days: seq<int>, m: nat)
    requires ValidBoundaries(b) && |days| >= |s| && m <= |s|
    requires SortedUpTo(days, m) && BelowLast(b, days, m) && AtOrBeyondLast(b, days, m, |s|)
    ensures Rebucket(s, b, days)
         == AddAt(Spread(s, b, days, m), |b| - 1, Repeated(|b| - TailPass(b, days, m), Sum(s[m..])))
  {
    var z := Zeros(|b|);
    assert Spread(s, b, days, 0) == z;
    if m == 0 {
      PassesFromTail(b, s, days, m, 0, z);
    } else {
      AddAtZero(z, |b| - 1);
      PassesBeforeTail(b, s, days, m, 0, 0, 0.0);
    }
  }

  /** For ascending days all below the last boundary, the double loop places every point exactly
      once, as the reference mapping does. */
  lemma RebucketIsSpread(s: seq<real>, b: seq<int>, days: seq<int>)
    requires ValidBoundaries(b) && |days| >= |s|
    requires SortedUpTo(days, |s|) && BelowLast(b, days, |s|)
    ensures Rebucket(s, b, days) == Spread(s, b, days, |s|)
  {
    var spread := Spread(s, b, days, |s|);
    var r := |b| - TailPass(b, days, |s|);
    assert Rebucket(s, b, days) == AddAt(spread, |b| - 1, Repeated(r, Sum(s[|s|..]))) by {
      RebucketSortedThenBeyond(s, b, days, |s|);
    }
    EmptyTailAddsNothing(spread, |b| - 1, r, s);
  }

  /** With every point placed the tail is empty, and its repetitions add nothing. */
  lemma EmptyTailAddsNothing(acc: seq<real>, k: nat, n: nat, s: seq<real>)
    requires k < |acc|
    ensures AddAt(acc, k, Repeated(n, Sum(s[|s|..]))) == acc
  {
    assert s[|s|..] == [];
    RepeatedZero(n);
    AddAtZero(acc, k);
  }

  lemma AddAtZero(acc: seq<real>, k: nat)
    requires k < |acc|
    ensures AddAt(acc, k, 0.0) == acc
  {
  }

  lemma AddAtTwice(acc: seq<real>, k: nat, x: real, y: real)
    requires k < |acc|
    ensures AddAt(AddAt(acc, k, x), k, y) == AddAt(acc, k, x + y)
  {
  }

  lemma AddAtCommutes(acc: seq<real>, i: nat, j: nat, x: real, y: real)
    requires i < |acc| && j < |acc|
    ensures AddAt(AddAt(acc, i, x), j, y) == AddAt(AddAt(acc, j, y), i, x)
  {
  }

  /** Placing a point commutes with an extra amount on the last bucket. */
  lemma PlaceCommutes(acc: seq<real>, b: seq<int>, v: real, d: int, x: real)
    requires ValidBoundaries(b) && |acc| == |b| && d < b[|b| - 1]
    ensures Place(AddAt(acc, |b| - 1, x), b, v, d) == AddAt(Place(acc, b, v, d), |b| - 1, x)
  {
    var n := |b| - 1;
    if d < b[0] {
      AddAtCommutes(acc, n, 0, x, v);
    } else {
      var k := Bracket(b, d);
      var lo, hi := v * LowerWeight(b, k, d), v * UpperWeight(b, k, d);
      AddAtCommutes(acc, n, k, x, lo);
      AddAtCommutes(AddAt(acc, k, lo), n, k + 1, x, hi);
    }
  }

  lemma {:induction false} SumFront(s: seq<real>)
    requires |s| > 0
    ensures Sum(s) == s[0] + Sum(s[1..])
    decreases |s|
  {
    var n := |s|;
    if n == 1 {
      assert s[1..] == [];
      assert s[..0] == [];
    } else {
      SumFront(s[..n - 1]);
      assert s[..n - 1][1..] == s[1..][..n - 2];
      assert s[..n - 1][0] == s[0];
    }
  }

  lemma {:induction false} SumAddAt(acc: seq<real>, k: nat, v: real)
    requires k < |acc|
    ensures Sum(AddAt(acc, k, v)) == Sum(acc) + v
    decreases |acc|
  {
    var n := |acc|;
    var acc' := AddAt(acc, k, v);
    if k == n - 1 {
      assert acc'[..n - 1] == acc[..n - 1];
    } else {
      assert acc'[..n - 1] == AddAt(acc[..n - 1], k, v);
      SumAddAt(acc[..n - 1], k, v);
    }
  }

  lemma {:induction false} SumZeros(n: nat)
    ensures Sum(Zeros(n)) == 0.0
  {
    if n > 0 {
      assert Zeros(n)[..n - 1] == Zeros(n - 1);
      SumZeros(n - 1);
    }
  }

  /** The two shares of a split point add up to the point. */
  lemma WeightsSumToOne(b: seq<int>, k: nat, d: int, v: real)
    requires k + 1 < |b| && b[k] < b[k + 1]
    ensures LowerWeight(b, k, d) + UpperWeight(b, k, d) == 1.0
    ensures v * LowerWeight(b, k, d) + v * UpperWeight(b, k, d) == v
  {
    var den := (b[k + 1] - b[k]) as real;
    var x, y := (b[k + 1] - d) as real, (d - b[k]) as real;
    AddDiv(x, y, den);
    assert x + y == den;
    SelfDiv(den);
    Distrib(LowerWeight(b, k, d), UpperWeight(b, k, d), v);
  }

  lemma AddDiv(a: real, b: real, c: real)
    requires c > 0.0
    ensures a / c + b / c == (a + b) / c
  {
  }

  lemma SelfDiv(den: real)
    requires den > 0.0
    ensures den / den == 1.0
  {
  }

  lemma Distrib(a: real, b: real, c: real)
    ensures c * a + c * b == c * (a + b)
  {
  }

  lemma PlaceSplits(acc: seq<real>, b: seq<int>, v: real, d: int, k: nat)
    requires ValidBoundaries(b) && |acc| == |b| && k + 1 < |b| && b[k] <= d < b[k + 1]
    ensures d < b[|b| - 1]
    ensures Place(acc, b, v, d) == Split(acc, b, k, v, d)
  {
    BracketUnique(b, d, k);
  }

  lemma SumPlace(acc: seq<real>, b: seq<int>, v: real, d: int)
    requires ValidBoundaries(b) && |acc| == |b| && d < b[|b| - 1]
    ensures Sum(Place(acc, b, v, d)) == Sum(acc) + v
  {
    if d < b[0] {
      SumAddAt(acc, 0, v);
    } else {
      var k := Bracket(b, d);
      WeightsSumToOne(b, k, d, v);
      PlaceSplits(acc, b, v, d, k);
      SumSplit(acc, b, k, v, d);
    }
  }

  lemma SumSplit(acc: seq<real>, b: seq<int>, k: nat, v: real, d: int)
    requires |acc| == |b| && k + 1 < |b| && b[k] < b[k + 1]
    ensures Sum(Split(acc, b, k, v, d)) == Sum(acc) + v
  {
    SumTwoAdds(acc, k, v * LowerWeight(b, k, d), v * UpperWeight(b, k, d));
    WeightsSumToOne(b, k, d, v);
  }

  lemma SumTwoAdds(acc: seq<real>, k: nat, x: real, y: real)
    requires k + 1 < |acc|
    ensures Sum(AddAt(AddAt(acc, k, x), k + 1, y)) == Sum(acc) + x + y
  {
    SumAddAt(acc, k, x);
    SumAddAt(AddAt(acc, k, x), k + 1, y);
  }

  lemma {:induction false} SumSpread(s: seq<real>, b: seq<int>, days: seq<int>, n: nat)
    requires ValidBoundaries(b) && n <= |s| <= |days| && BelowLast(b, days, n)
    ensures Sum(Spread(s, b, days, n)) == Sum(s[..n])
  {
    if n == 0 {
      SumZeros(|b|);
    } else {
      SumSpread(s, b, days, n - 1);
      SumPlace(Spread(s, b, days, n - 1), b, s[n - 1], days[n - 1]);
      assert s[..n][..n - 1] == s[..n - 1];
    }
  }

  /** Mass conservation: for ascending days all below the last boundary, the buckets add up to
      the native sensitivities. */
  lemma BucketConservation(s: seq<real>, b: seq<int>, days: seq<int>)
    requires ValidBoundaries(b) && |days| >= |s|
    requires SortedUpTo(days, |s|) && BelowLast(b, days, |s|)
    ensures Sum(Rebucket(s, b, days)) == Sum(s)
  {
    RebucketIsSpread(s, b, days);
    SumSpread(s, b, days, |s|);
    assert s[..|s|] == s;
  }

  /** A point no earlier than the first boundary and below the last is split over its bracket
      [b_k, b_{k+1}) with weights (b_{k+1}-d)/(b_{k+1}-b_k) and (d-b_k)/(b_{k+1}-b_k), which add to
      one; a point exactly on b_k goes wholly to bucket k; all other buckets stay zero. */
  lemma SinglePointSplit(b: seq<int>, v: real, d: int, k: nat)
    requires ValidBoundaries(b) && k + 1 < |b| && b[k] <= d < b[k + 1]
    ensures var r := Rebucket([v], b, [d]);
      && r[k] == v * ((b[k + 1] - d) as real / (b[k + 1] - b[k]) as real)
      && r[k + 1] == v * ((d - b[k]) as real / (b[k + 1] - b[k]) as real)
      && r[k] + r[k + 1] == v
      && (d == b[k] ==> r[k] == v && r[k + 1] == 0.0)
      && forall j :: 0 <= j < |b| && j != k && j != k + 1 ==> r[j] == 0.0
  {
    BracketUnique(b, d, k);
    RebucketIsSpread([v], b, [d]);
    PlaceSplits(Zeros(|b|), b, v, d, k);
    assert Spread([v], b, [d], 1) == Split(Zeros(|b|), b, k, v, d);
    WeightsSumToOne(b, k, d, v);
    if d == b[k] {
      assert UpperWeight(b, k, d) == 0.0;
      SelfDiv((b[k + 1] - b[k]) as real);
    }
  }

  /** A point before the first boundary goes wholly to bucket 0. */
  lemma SinglePointBeforeFirst(b: seq<int>, v: real, d: int)
    requires ValidBoundaries(b) && d < b[0]
    ensures Rebucket([v], b, [d]) == Zeros(|b|)[0 := v]
  {
    AscendingPairwise(b, 0, |b| - 1);
    RebucketIsSpread([v], b, [d]);
    assert Spread([v], b, [d], 1) == Place(Zeros(|b|), b, v, d);
  }

  /** Points all at or beyond the last boundary never advance counter, so every one of the |b|
      outer passes adds them to the last bucket again: it receives |b| times their sum, and every
      other bucket stays zero. */
  lemma PointsBeyondLastRepeated(s: seq<real>, b: seq<int>, days: seq<int>)
    requires ValidBoundaries(b) && |days| >= |s| && AtOrBeyondLast(b, days, 0, |s|)
    ensures Rebucket(s, b, days) == Zeros(|b|)[|b| - 1 := Repeated(|b|, Sum(s))]
  {
    RebucketSortedThenBeyond(s, b, days, 0);
    assert s[0..] == s;
    assert TailPass(b, days, 0) == 0;
    assert Spread(s, b, days, 0) == Zeros(|b|);
  }

  /** The concrete case: one unit at the 30y boundary ends up as 12 in the 30y bucket. */
  lemma ThirtyYearPointCountedTwelveTimes()
    ensures Rebucket([1.0], IrBucketDays, [10950])[11] == 12.0
    ensures Sum(Rebucket([1.0], IrBucketDays, [10950])) != Sum([1.0])
  {
    PointsBeyondLastRepeated([1.0], IrBucketDays, [10950]);
    var r := Rebucket([1.0], IrBucketDays, [10950]);
    assert Sum([1.0]) == 1.0;
    assert Repeated(12, 1.0) == 12.0;
    SumAddAt(Zeros(12), 11, 12.0);
    SumZeros(12);
    assert r == AddAt(Zeros(12), 11, 12.0);
  }

  /** A point at or beyond the last boundary after one point inside bracket k, below the last
      bracket: the scan first reaches it in pass k, so the last bucket holds it |b| - k times. */
  lemma LatePointCountedFromBracket(u: real, v: real, b: seq<int>, d0: int, d1: int, k: nat)
    requires ValidBoundaries(b) && k + 2 < |b| && b[k] <= d0 < b[k + 1] && d1 >= b[|b| - 1]
    ensures Rebucket([u, v], b, [d0, d1])[|b| - 1] == Repeated(|b| - k, v)
  {
    var s: seq<real>, days: seq<int> := [u, v], [d0, d1];
    var n := |b| - 1;
    assert TailPass(b, days, 1) == k by {
      BracketUnique(b, d0, k);
    }
    assert Sum(s[1..]) == v by {
      assert s[1..] == [v];
      assert Sum([v]) == v;
    }
    assert Spread(s, b, days, 1)[n] == 0.0 by {
      PlaceSplits(Zeros(|b|), b, u, d0, k);
    }
    assert Rebucket(s, b, days) == AddAt(Spread(s, b, days, 1), n, Repeated(|b| - k, v)) by {
      RebucketSortedThenBeyond(s, b, days, 1);
    }
  }

  /** The concrete case: after a 100-day point, in the bracket [90, 180), the third of twelve, a
      point beyond 30 years is added ten times. */
  lemma LatePointCountedFromItsPass(u: real, v: real)
    ensures Rebucket([u, v], IrBucketDays, [100, 20000])[11] == 10.0 * v
  {
    assert ValidBoundaries(BucketDays(InterestRate));
    LatePointCountedFromBracket(u, v, IrBucketDays, 100, 20000, 2);
    RepeatedIsProduct(10, v);
  }

  /** Buckets below `k` hold their own value; the rest are still zero. */
  function Filled(s: seq<real>, k: nat): (r: seq<real>)
    ensures |r| == |s|
  {
    seq(|s|, j requires 0 <= j < |s| => if j < k then s[j] else 0.0)
  }

  /** On the lower boundary of bracket k the lower weight is one and the upper weight zero. */
  lemma WeightsOnLowerBoundary(b: seq<int>, k: nat)
    requires ValidBoundaries(b) && k + 1 < |b|
    ensures LowerWeight(b, k, b[k]) == 1.0 && UpperWeight(b, k, b[k]) == 0.0
  {
    var den := (b[k + 1] - b[k]) as real;
    assert den > 0.0;
    SelfDiv(den);
  }

  /** A point on the lower boundary of its bracket goes wholly to that bucket. */
  lemma SplitOnLowerBoundary(s: seq<real>, b: seq<int>, k: nat)
    requires ValidBoundaries(b) && |s| == |b| && k + 1 < |b|
    ensures Split(Filled(s, k), b, k, s[k], b[k]) == Filled(s, k + 1)
  {
    WeightsOnLowerBoundary(b, k);
    var a := AddAt(Filled(s, k), k, s[k]);
    assert Split(Filled(s, k), b, k, s[k], b[k]) == AddAt(a, k + 1, 0.0);
    assert a == Filled(s, k + 1) by {
      forall j | 0 <= j < |s|
        ensures a[j] == Filled(s, k + 1)[j]
      {
      }
    }
    AddAtZero(a, k + 1);
  }

  lemma ScanOnBoundary(s: seq<real>, b: seq<int>, k: nat)
    requires ValidBoundaries(b) && |s| == |b| && k + 1 < |b|
    ensures ScanPass(b, s, b, k, k, Filled(s, k), k)
         == if k + 2 < |b| then Pass(Filled(s, k + 1), k + 1)
            else Pass(AddAt(Filled(s, k + 1), k + 1, s[k + 1]), k + 1)
  {
    AscendingPairwise(b, k, |b| - 1);
    if k > 0 { AscendingPairwise(b, 0, k); }
    SplitOnLowerBoundary(s, b, k);
    assert ScanPass(b, s, b, k, k, Filled(s, k), k) == ScanPass(b, s, b, k, k + 1, Filled(s, k + 1), k + 1);
    if k + 2 < |b| {
      AscendingPairwise(b, k + 1, |b| - 1);
      AscendingPairwise(b, 0, k + 1);
      assert !(b[k + 1] < b[k + 1]);
      assert ScanPass(b, s, b, k, k + 1, Filled(s, k + 1), k + 1) == Pass(Filled(s, k + 1), k + 1);
    } else {
      var acc := AddAt(Filled(s, k + 1), k + 1, s[k + 1]);
      assert ScanPass(b, s, b, k, k + 1, Filled(s, k + 1), k + 1) == ScanPass(b, s, b, k, k + 2, acc, k + 1);
    }
  }

  lemma {:induction false} PassesOnBoundaries(s: seq<real>, b: seq<int>, k: nat)
    requires ValidBoundaries(b) && |s| == |b| && k + 1 < |b|
    ensures Passes(b, s, b, k, Filled(s, k), k) == s[|b| - 1 := 2.0 * s[|b| - 1]]
    decreases |b| - k
  {
    ScanOnBoundary(s, b, k);
    var n := |b|;
    if k + 2 < n {
      PassesOnBoundaries(s, b, k + 1);
    } else {
      var acc := AddAt(Filled(s, k + 1), k + 1, s[k + 1]);
      AscendingPairwise(b, 0, n - 1);
      assert Passes(b, s, b, k, Filled(s, k), k) == Passes(b, s, b, n - 1, acc, n - 1);
      assert ScanPass(b, s, b, n - 1, n - 1, acc, n - 1) == ScanPass(b, s, b, n - 1, n, AddAt(acc, n - 1, s[n - 1]), n - 1);
      assert Passes(b, s, b, n - 1, acc, n - 1) == Passes(b, s, b, n, AddAt(acc, n - 1, s[n - 1]), n - 1);
      assert AddAt(acc, n - 1, s[n - 1]) == s[n - 1 := 2.0 * s[n - 1]];
    }
  }

  /** Sensitivities already on the buckets, mapped at the boundary days themselves, come back
      unchanged except the last bucket, which is doubled: the last point is reached in the
      second-to-last pass and again in the last one. */
  lemma RebucketOnBoundaries(s: seq<real>, b: seq<int>)
    requires ValidBoundaries(b) && |s| == |b|
    ensures Rebucket(s, b, b) == s[|b| - 1 := 2.0 * s[|b| - 1]]
  {
    assert Filled(s, 0) == Zeros(|b|);
    PassesOnBoundaries(s, b, 0);
  }

  /** Every bucket starts at zero: with no native points all buckets are zero. */
  lemma {:induction false} RebucketEmpty(b: seq<int>, days: seq<int>, k: nat)
    requires ValidBoundaries(b) && k <= |b|
    ensures Passes(b, [], days, k, Zeros(|b|), 0) == Zeros(|b|)
    decreases |b| - k
  {
    if k < |b| {
      RebucketEmpty(b, days, k + 1);
    }
  }
}
