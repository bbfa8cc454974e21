# SIMM sensitivity bookkeeping — a Dafny model

This project models the deterministic bookkeeping around the sensitivity pipeline of an ISDA SIMM
initial-margin simulator. It covers two Java classes, `SIMMPortfolio` and `SensitivityInterpolation`:

- the mapping of sensitivities given at day offsets onto the SIMM maturity buckets;
- linear melting of sensitivities, on the SIMM buckets and on the Libor period grid;
- linear interpolation between cached exact snapshots, with a permanent fallback to melting;
- the melting anchor T0 and the clearing of the snapshot cache along a product's lifecycle
  (swaptions, forward swaps, Bermudan swaptions);
- the chain-rule matrix plumbing: vector and matrix products where null entries count as zero,
  the composition dV/dS = dV/dL · dL/dS, the shapes of dL/dS and of the bond-to-swap matrix, and
  the gradient lookup that defaults to zero;
- the polynomial regression basis.

One Monte Carlo path is modelled: every pathwise random variable is a `real`. A Java `null` is
`Option.None`, and a Java exception is `Result.Err` carrying the exception kind. Conditional
expectations, numeraires and algorithmically differentiated values are inputs. The model itself
sits on a deterministic footing: functions over sequences, and an immutable record for the state
of a `SensitivityInterpolation` object that is threaded through its calls.

Modules, in dependency order:

| file | module | content |
|---|---|---|
| wrappers.dfy | Wrappers | `Option`, `Result`, exception kinds |
| buckets.dfy | Buckets | SIMM boundaries, `Math.round`, the literal bucket-mapping loop |
| bucket_properties.dfy | BucketProperties | reference spreading, conservation, the repeated last bucket |
| time_grid.dfy | TimeGrid | time-discretization lookups, the 51-point reset grid |
| melting.dfy | Melting | melting on buckets and on the Libor grid |
| chain_rule.dfy | ChainRule | null-tolerant products, dV/dS, dL/dS, dS/dP, gradient lookup |
| regression.dfy | Regression | regression basis functions |
| lifecycle.dfy | Lifecycle | products, the anchor rule at a lifecycle boundary |
| portfolio.dfy | Portfolio | `SIMMPortfolio`'s melting dispatch and instrument anchor |
| sensi_cache.dfy | SensiCache | the snapshot cache: store, lookup, emptiness test |
| snapshots.dfy | Snapshots | modes, `setMap`, the class's own melting, final interpolation time |
| bermudan.dfy | Bermudan | `setBermudanMeltingMapAndTime` |
| sensitivity_interpolation.dfy | SensitivityInterpolation | object state, anchors, interpolation, `getDeltaSensitivities` |

Behaviour kept as the code has it:

- **The last bucket is repeated.** A point at or beyond the last SIMM boundary never advances the
  mapper's `counter`. Once an outer pass's scan reaches such points, every later pass scans them
  again and adds them to the last bucket again. The model keeps this. Conservation holds only for
  ascending days below the last boundary (`BucketProperties.BucketConservation`). Points that all
  lie beyond the last boundary are counted once per boundary: a single 30-year point is counted
  twelve times. A late point after a point in bracket k is counted |b| − k times
  (`BucketProperties.RebucketSortedThenBeyond`). Melting with zero elapsed time doubles the last
  bucket.
- **A short day array fails only when it is read past its end.** The mapper's inner loop breaks
  on the first point outside the current bracket, so with unsorted days it may never read a
  missing day, and the call then succeeds.
- **Non-interpolation objects switch at once.** `finalInterpolationTime` is set only in
  interpolation mode, so it stays 0.0 in every other mode. Such an object therefore switches to
  `LinearMelting` on its first evaluation at a non-negative time.
- **`87^3` is an exclusive or.** In Java it evaluates to 84, not 658503.

## Model

| member | source | states |
|---|---|---|
| Buckets.BucketDays | src/initialmargin/isdasimm/SIMMPortfolio.java:364 | the SIMM boundaries are strictly ascending and positive: 12 for interest rate, 5 for credit |
| Buckets.JavaRound | src/initialmargin/isdasimm/SIMMPortfolio.java:370 | `Math.round` is the integer within half a unit of x, ties rounding up |
| Buckets.GridDays | src/initialmargin/isdasimm/SIMMPortfolio.java:367-371 | without explicit days, point i sits at the rounded day count of Libor time i+1 |
| Buckets.OnBuckets | src/initialmargin/isdasimm/SIMMPortfolio.java:362-405 | every failure is an index error; without days it fails exactly when a non-empty input is not shorter than the Libor grid, and otherwise maps onto the grid's day counts; with days it can fail only when they are fewer than the points, and with enough days it is the mapper's output on them; 12 (interest rate) or 5 entries |
| Buckets.CheckedScanPass | src/initialmargin/isdasimm/SIMMPortfolio.java:374-399 | one inner loop over a possibly short day array: with enough days it is the pass model; a failure is an index error and needs fewer days than points |
| Buckets.CheckedPasses | src/initialmargin/isdasimm/SIMMPortfolio.java:372-401 | the outer loop over a possibly short day array: with enough days it is the loop model; a failure is an index error and needs fewer days than points |
| Buckets.UnreadDaysIrrelevant | src/initialmargin/isdasimm/SIMMPortfolio.java:372-401 | a mapping that succeeds on a short day array equals the mapping on any longer array that agrees where the short one has entries |
| Buckets.NoDaysFail | src/initialmargin/isdasimm/SIMMPortfolio.java:374-377 | an empty day array with at least one point fails on the first read |
| Buckets.BreakBeforeMissingDay | src/initialmargin/isdasimm/SIMMPortfolio.java:372-401 | three points on the unsorted days [5000, 100] succeed: every pass breaks before reading the missing third day |
| Buckets.ScanReachesMissingDay | src/initialmargin/isdasimm/SIMMPortfolio.java:372-401 | two points on the days [20] fail: the scan moves past the first point and reads the missing second day |
| Buckets.RebucketLoop | src/initialmargin/isdasimm/SIMMPortfolio.java:372-401 | the counter/break double loop computes the recursive pass model of the mapper |
| BucketProperties.ScanPassSorted | src/initialmargin/isdasimm/SIMMPortfolio.java:374-399 | on ascending days, one pass places the points of its bracket and stops at the first point beyond it, and it runs into the points beyond the last boundary exactly from the pass of the last ascending point's bracket on |
| BucketProperties.RebucketSortedThenBeyond | src/initialmargin/isdasimm/SIMMPortfolio.java:372-401 | for m ascending points below the last boundary followed by points at or beyond it, the first m are placed once each as the reference spreading does, and the sum of the rest is added to the last bucket once per pass from the last ascending point's bracket on |
| BucketProperties.RebucketIsSpread | src/initialmargin/isdasimm/SIMMPortfolio.java:372-401 | for ascending days below the last boundary, the loop places every point exactly once, as the reference spreading does |
| BucketProperties.WeightsSumToOne | src/initialmargin/isdasimm/SIMMPortfolio.java:387-391 | the two interpolation weights of a point sum to one |
| BucketProperties.SinglePointSplit | src/initialmargin/isdasimm/SIMMPortfolio.java:386-391 | a point with b_k ≤ d < b_{k+1} puts (b_{k+1}−d)/(b_{k+1}−b_k) of its value in bucket k and the rest in bucket k+1; nothing else is touched |
| BucketProperties.SinglePointBeforeFirst | src/initialmargin/isdasimm/SIMMPortfolio.java:377-380 | a point before the first boundary goes wholly to bucket 0 |
| BucketProperties.BucketConservation | src/initialmargin/isdasimm/SIMMPortfolio.java:372-401 | for ascending days all below the last boundary, the buckets sum to the inputs' sum |
| BucketProperties.PointsBeyondLastRepeated | src/initialmargin/isdasimm/SIMMPortfolio.java:382-384 | when every point is at or beyond the last boundary, the last bucket holds their sum once per boundary and every other bucket is zero |
| BucketProperties.ThirtyYearPointCountedTwelveTimes | src/initialmargin/isdasimm/SIMMPortfolio.java:382-384 | a unit at 10950 days yields 12 in the last interest-rate bucket, so conservation fails |
| BucketProperties.LatePointCountedFromBracket | src/initialmargin/isdasimm/SIMMPortfolio.java:372-401 | a point at or beyond the last boundary that follows one point in bracket k lands in the last bucket |b| − k times |
| BucketProperties.LatePointCountedFromItsPass | src/initialmargin/isdasimm/SIMMPortfolio.java:372-401 | on the days [100, 20000] the second point is counted ten times in the 30-year bucket |
| BucketProperties.RebucketOnBoundaries | src/initialmargin/isdasimm/SIMMPortfolio.java:372-401 | days equal to the boundaries give back the input with the last bucket doubled |
| TimeGrid.NearestLessOrEqual | src/initialmargin/isdasimm/SIMMPortfolio.java:231 | the last index whose time is ≤ x, or −1 when there is none |
| TimeGrid.NearestGreaterOrEqual | src/initialmargin/isdasimm/SIMMPortfolio.java:645 | the first index whose time is ≥ x, or the length when there is none |
| TimeGrid.ResetGrid | src/initialmargin/isdasimm/SIMMPortfolio.java:229 | the reset grid has 51 increasing points i·step |
| TimeGrid.ResetIndex | src/initialmargin/isdasimm/SIMMPortfolio.java:229-230 | −1 exactly for t < 0; otherwise the largest multiple of the step ≤ t, capped at 50 |
| TimeGrid.ResetBracket | src/initialmargin/isdasimm/SensitivityInterpolation.java:359-362 | the reset points at or below t and one step after it; t lies in between; an index error before time zero and from the last grid point on |
| TimeGrid.ResetTime | src/initialmargin/isdasimm/SIMMPortfolio.java:229-230 | the reset point at or below t; an index error exactly when t < 0 |
| Melting.FirstAbove | src/initialmargin/isdasimm/SIMMPortfolio.java:633-634 | the first boundary beyond e, or none when every boundary is ≤ e |
| Melting.SurvivorsAreShiftedSuffix | src/initialmargin/isdasimm/SIMMPortfolio.java:631-634 | for ascending boundaries, the filtered and shifted days are the suffix from the first survivor, each shifted by e |
| Melting.MeltOn | src/initialmargin/isdasimm/SIMMPortfolio.java:631-641 | melting succeeds exactly when some boundary exceeds e (no element otherwise), and then has one entry per bucket |
| Melting.MeltOnBuckets | src/initialmargin/isdasimm/SIMMPortfolio.java:627-641 | non-bucket inputs are mapped onto the grid first, which fails when a non-empty input is not shorter than the Libor grid; the result is the re-bucketing of survivors scaled by 1−e/b_i at days b_i−e; no element when nothing survives |
| Melting.MeltSnapshot | src/initialmargin/isdasimm/SIMMPortfolio.java:631-640 | filtering and shifting the boundaries and mapping the scaled survivors onto them gives the melting on the suffix from the first surviving boundary |
| Melting.ZeroElapsedOnBuckets | src/initialmargin/isdasimm/SIMMPortfolio.java:627-641 | with zero elapsed days, bucket melting returns the input with its last bucket doubled |
| Melting.MeltConservesDecayedMass | src/initialmargin/isdasimm/SIMMPortfolio.java:636-641 | for 0 < e below the last boundary, the melted buckets sum to the sum of the scaled survivors |
| Melting.MeltOnLiborGrid | src/initialmargin/isdasimm/SIMMPortfolio.java:642-655 | negative array size exactly when the first Libor index beyond the elapsed time exceeds the input length plus one; all zero buckets when it equals the length plus one; otherwise an index error when the grid has fewer than two points or that index is 0, and else the scaled suffix mapped onto the buckets |
| Melting.ZeroElapsedOnGrid | src/initialmargin/isdasimm/SIMMPortfolio.java:646-654 | with zero elapsed time the grid melting maps the input unscaled |
| ChainRule.VectorTimesMatrix | src/initialmargin/isdasimm/SIMMPortfolio.java:718-730 | defined exactly when every read entry exists; the length is that of B[0] |
| ChainRule.MultiplyVector | src/initialmargin/isdasimm/SIMMPortfolio.java:718-730 | the nested loops compute the column sums Σ_k A[k]·B[k][i], nulls as zero |
| ChainRule.MatrixTimesMatrix | src/initialmargin/isdasimm/SIMMPortfolio.java:702-716 | the product has |A| rows of |B| entries and is defined exactly when every read entry exists |
| ChainRule.MatrixRowIsVectorProduct | src/initialmargin/isdasimm/SIMMPortfolio.java:702-730 | for a square B, row i of A·B is the vector product of row i of A with B |
| ChainRule.OnGridAdjustmentIsNeutral | src/initialmargin/isdasimm/SIMMPortfolio.java:452-456 | multiplying by the on-grid identity adjustment returns the sensitivities, nulls as zero |
| ChainRule.DeltaForward | src/initialmargin/isdasimm/SIMMPortfolio.java:333-349 | negative array size exactly when g exceeds |dV/dL|; otherwise |dV/dL|−g entries, an index error when dL/dS is too small |
| ChainRule.DeltaIsChainRule | src/initialmargin/isdasimm/SIMMPortfolio.java:335-349 | for a square dL/dS, delta[j] = Σ_i dVdL[i+g]·dLdS[i][j], the vector product of the shifted dV/dL with dL/dS |
| ChainRule.DeltaIsChainRuleOnBlock | src/initialmargin/isdasimm/SIMMPortfolio.java:335-346 | for a dL/dS with more rows and columns than the remaining Libors, such as the time-0 matrix of the constant weight method, the delta is the vector product of the used part of dV/dL with its top-left block |
| ChainRule.LiborSwapSensitivities | src/initialmargin/isdasimm/SIMMPortfolio.java:414-438 | n×n with [0][0] = 1 and only the diagonal and subdiagonal set; their values are the running sums over the conditional discount factor; errors for n ≤ 0 |
| ChainRule.BidiagonalProduct | src/initialmargin/isdasimm/SIMMPortfolio.java:718-730 | through a lower-bidiagonal matrix, column j sees only rows j and j+1 |
| ChainRule.BondSwapSensitivities | src/initialmargin/isdasimm/SIMMPortfolio.java:610-621 | the pre-inversion dS/dP is n×n, zero above the diagonal; errors for n ≤ 0 |
| ChainRule.BondSwapColumn | src/initialmargin/isdasimm/SIMMPortfolio.java:617-621 | below the diagonal a column is constant, and the diagonal lies 1/S_p below it |
| ChainRule.Derivative | src/initialmargin/isdasimm/SIMMPortfolio.java:745-748 | the gradient entry for the id, or zero when the gradient has none |
| Regression.RegressionBasis | src/initialmargin/isdasimm/SIMMPortfolio.java:767-776 | one block of order+1 basis functions per regressor, none for a negative order |
| Regression.BasisLength | src/initialmargin/isdasimm/SIMMPortfolio.java:770-771 | the basis has (number of regressors)·(order+1) entries |
| Regression.BasisEntry | src/initialmargin/isdasimm/SIMMPortfolio.java:770-774 | entry p of block i is the p-th power of regressor i |
| Regression.BlockStartsWithOne | src/initialmargin/isdasimm/SIMMPortfolio.java:770-774 | every block starts with the constant 1, whatever the regressor |
| Lifecycle.BoundaryAnchor | src/initialmargin/isdasimm/SIMMPortfolio.java:233-253 | at or after a pinned boundary T0 is the boundary, otherwise the grid time; the cache is cleared only on a first visit before the boundary or on the first crossing |
| Portfolio.MeltedSensitivities | src/initialmargin/isdasimm/SIMMPortfolio.java:626-656 | bucket melting in LinearOnBuckets mode, grid melting in every other mode; always one entry per bucket |
| Portfolio.MeltingAtAnchor | src/initialmargin/isdasimm/SIMMPortfolio.java:626-656 | at T0 itself, bucket melting doubles the last bucket and grid melting maps the snapshot unscaled |
| Portfolio.InitialMeltingTime | src/initialmargin/isdasimm/SIMMPortfolio.java:227-256 | defined exactly for t ≥ 0; T0 ≤ t; the reset point unless pinned; the exercise date of a physical swaption, or the start of a forward swap, once reached |
| Portfolio.GradientSwapMatchesClear | src/initialmargin/isdasimm/SIMMPortfolio.java:258-263 | at or after exercise of a physical swaption, the gradient is swapped exactly on the evaluation that clears the cache |
| Portfolio.CashSwaptionNeverPinned | src/initialmargin/isdasimm/SIMMPortfolio.java:233-240 | a cash-settled swaption always melts from the reset point and clears only on first visits before exercise |
| SensiCache.Lookup | src/initialmargin/isdasimm/SensitivityInterpolation.java:79 | succeeds exactly when the cache is not empty for the key; a null dereference for a missing time or risk class, no element for a missing curve |
| SensiCache.IsEmptyMap | src/initialmargin/isdasimm/SensitivityInterpolation.java:398-400 | not empty exactly when the time, the risk class and an entry for the curve are all present |
| SensiCache.Store | src/initialmargin/isdasimm/SensitivityInterpolation.java:120-134 | afterwards the key is not empty; other times are untouched; a missing risk class replaces the whole per-time map |
| SensiCache.StoreThenLookup | src/initialmargin/isdasimm/SensitivityInterpolation.java:112-135 | storing into an empty slot makes the lookup return what was stored |
| SensiCache.StoreAgainIsShadowed | src/initialmargin/isdasimm/SensitivityInterpolation.java:125-127 | storing a curve that is already cached appends an entry the lookup never returns |
| SensiCache.StoreDropsOtherRiskClasses | src/initialmargin/isdasimm/SensitivityInterpolation.java:128-134 | storing a new risk class under an existing time drops the other risk classes there |
| Snapshots.FinalInterpolationTime | src/initialmargin/isdasimm/SensitivityInterpolation.java:327-338 | the exercise date of a swaption, the first path exercise time of a Bermudan, otherwise 84 |
| Snapshots.Snapshot | src/initialmargin/isdasimm/SensitivityInterpolation.java:115-118 | the exact delta, mapped onto the grid buckets in LinearMelting and Interpolation modes, which fails with an index error exactly when a non-empty delta is not shorter than the Libor grid |
| Snapshots.SetMap | src/initialmargin/isdasimm/SensitivityInterpolation.java:112-135 | afterwards the key is not empty and an empty slot answers the snapshot; other times are unchanged |
| Snapshots.SetAllLookup | src/initialmargin/isdasimm/SensitivityInterpolation.java:365-370 | after filling, every listed curve is answered by its exact snapshot |
| Snapshots.SetAllFillsMissing | src/initialmargin/isdasimm/SensitivityInterpolation.java:365-370 | a missing anchor is filled with the snapshot of every curve of the product |
| Snapshots.MeltedSensitivities | src/initialmargin/isdasimm/SensitivityInterpolation.java:266-319 | null in any mode but the two melting modes; otherwise one entry per bucket |
| Snapshots.MeltingAgreesWithPortfolio | src/initialmargin/isdasimm/SensitivityInterpolation.java:270-311 | the class's melting equals the portfolio's for the corresponding mode |
| Bermudan.ExerciseFilter | src/initialmargin/isdasimm/SensitivityInterpolation.java:236-241 | the two barriers keep a value exactly on paths exercised before t+0.0001, and, after the first date, no earlier than prev+0.0001 |
| Bermudan.Filtered | src/initialmargin/isdasimm/SensitivityInterpolation.java:236-241 | the first n entries are zeroed on a path that has not exercised in the window; all other entries are kept |
| Bermudan.BermudanAnchor | src/initialmargin/isdasimm/SensitivityInterpolation.java:194-255 | T0 is the last exercise date ≤ t (an index error when none); without a crossing the cache is kept; on a crossing the per-time map at T0 is replaced whole by the filtered, notional-weighted sensitivities of the interest-rate Libor6m curve; the first crossing leaves only that entry, a later one keeps every other time's entry |
| Bermudan.AnchorIsLatestExerciseDate | src/initialmargin/isdasimm/SensitivityInterpolation.java:197-198 | on the sorted exercise schedule, T0 is an exercise date at or before t and no later such date exists |
| Bermudan.StoreAtExercise | src/initialmargin/isdasimm/SensitivityInterpolation.java:209-252 | on success the underlying's sensitivities exist and the per-time map at the exercise date becomes exactly the filtered ones for the interest-rate Libor6m curve, dropping other risk classes and curves there; the first exercise date leaves only that entry, later ones keep every other time unchanged |
| Bermudan.StoredIgnoresCache | src/initialmargin/isdasimm/SensitivityInterpolation.java:240-251 | the stored array does not depend on what was cached: the accumulated current sensitivities are never stored |
| Bermudan.UnexercisedPathStoresZero | src/initialmargin/isdasimm/SensitivityInterpolation.java:236-238 | a path that has not exercised by t stores zero for every notional period |
| SensitivityInterpolation.NewInterpolator | src/initialmargin/isdasimm/SensitivityInterpolation.java:40-45 | an empty cache, no previous evaluation, the portfolio's mode; the final interpolation time is 0.0 unless interpolating |
| SensitivityInterpolation.InitialMeltingTime | src/initialmargin/isdasimm/SensitivityInterpolation.java:144-184 | swaptions, forward swaps and other products follow the portfolio instrument's anchor; a Bermudan before its first exercise uses the reset point, and from then on is the Bermudan anchor (the last exercise date at or before t); T0 ≤ t |
| SensitivityInterpolation.BermudanMeltingTime | src/initialmargin/isdasimm/SensitivityInterpolation.java:175-181 | before the first exercise time the reset point, clearing on first visits; from then on exactly the Bermudan anchor, an exercise date at or before t |
| SensitivityInterpolation.InterpolationTimes | src/initialmargin/isdasimm/SensitivityInterpolation.java:359-362 | t0 is the reset point at or below t and t1 = min(final interpolation time, t0 + step); t0 ≤ t < t1; an index error exactly outside the grid [0, 50·step) |
| SensitivityInterpolation.Interpolate | src/initialmargin/isdasimm/SensitivityInterpolation.java:377-385 | one entry per bucket of the final snapshot; an index error when the initial one is shorter |
| SensitivityInterpolation.InterpolationStartsAtInitial | src/initialmargin/isdasimm/SensitivityInterpolation.java:377-385 | at t0 the interpolation is the initial snapshot |
| SensitivityInterpolation.InterpolationEndsAtFinal | src/initialmargin/isdasimm/SensitivityInterpolation.java:377-385 | at t1 the interpolation is the final snapshot |
| SensitivityInterpolation.InterpolationStaysBetween | src/initialmargin/isdasimm/SensitivityInterpolation.java:377-385 | between t0 and t1 every bucket lies between its initial and final value |
| SensitivityInterpolation.InterpolatedBetween | src/initialmargin/isdasimm/SensitivityInterpolation.java:365-387 | both anchors are filled when missing, the result interpolates their cached snapshots, and other times are unchanged |
| SensitivityInterpolation.ExactAtResetPoint | src/initialmargin/isdasimm/SensitivityInterpolation.java:365-385 | at an anchor t0 not cached yet, interpolating at t0 returns the exact snapshot there: all of it on the buckets when t1 is refilled too, in general its first buckets, as many as t1's snapshot has |
| SensitivityInterpolation.InterpolatedExactAtResetPoint | src/initialmargin/isdasimm/SensitivityInterpolation.java:353-389 | evaluated at a reset point whose risk class is not cached, interpolation returns the exact snapshot there, wholly on the buckets when the next anchor is refilled too |
| SensitivityInterpolation.Interpolated | src/initialmargin/isdasimm/SensitivityInterpolation.java:341-389 | an index error for t outside [0, 50·step); otherwise, with t0 the reset point at or below t and t1 = min(final interpolation time, t0 + step), both anchors are cached afterwards and the result is the linear interpolation at t of their cached snapshots; an anchor whose risk class was missing holds the exact snapshot, a cache with both present is unchanged, and other times are untouched |
| SensitivityInterpolation.Melted | src/initialmargin/isdasimm/SensitivityInterpolation.java:75-81 | the snapshot at T0 is computed only when the cache is empty there; the result melts it (or the cached one) to t |
| SensitivityInterpolation.DeltaSensitivities | src/initialmargin/isdasimm/SensitivityInterpolation.java:61-99 | lastEvaluationTime becomes t; the mode becomes LinearMelting from the final interpolation time on; melting, interpolation or null by mode |
| SensitivityInterpolation.MeltingIsPermanent | src/initialmargin/isdasimm/SensitivityInterpolation.java:68 | an object melting on the buckets stays in that mode |
| SensitivityInterpolation.OtherModesSwitchToMelting | src/initialmargin/isdasimm/SensitivityInterpolation.java:40-68 | an object built in any mode but interpolation melts on the buckets after its first evaluation at t ≥ 0 |
| SensitivityInterpolation.InterpolationUntilFinalTime | src/initialmargin/isdasimm/SensitivityInterpolation.java:68 | an interpolating object keeps interpolating exactly while t is before its product's final interpolation time |

## Left out

- Pseudo-inverse (`getPseudoInverse`): singular value decomposition in a foreign linear-algebra library. The bond-to-swap matrix is modelled before inversion only.
- Conditional expectations, regression and survival probabilities: they are inputs (`cond`, `bond`, the exact and analytic sensitivity functions).
- Model and automatic-differentiation access (gradients, numeraires, Libor values): external engine calls, modelled as inputs.
- The exp/log time-grid adjustment off the Libor grid and the discount-curve sensitivities: transcendental floating point feeding the pseudo-inverse. Only the on-grid identity is modelled.
- The OIS branch of `doCalculateDeltaSensitivitiesIR`: it delegates to the discount-curve sensitivities above.
- The 0.5 year spacing hard-coded in `getBondSwapSensitivity`: the bond values are an input function of the period index.
- The accumulation of `discountTime` in `getLiborSwapSensitivities`: the discount factors are an input function of the Libor index.
- `getSensitivity`, `getSIMMValue` and the rest of the portfolio orchestration: they dispatch to the modelled pieces and to the engine.
- `Swap.java` and the repository's test programs: a thin wrapper over a leg that is not part of this model, and programs that only print results.
- Java string reference equality on risk-class, delivery and curve names: modelled as value equality of enums and strings.
- `getSensiResetStep`, `getAnalyticSwapSensitivities` and the four-argument `doCalculateDeltaSensitivitiesIR`: called on a portfolio class that is not part of this model; they are fields of `Snapshots.Env`.
- IEEE infinities and NaN: every division in the model requires a non-zero denominator (dL/dS and dS/dP entries), or the denominator is positive by construction.
- The `(int)` cast of `Math.round`'s long result: elapsed day counts are unbounded integers.
- Floating-point rounding in time-discretization lookups and in `Double` map keys: times are exact reals.
- `findAny` in `getSensitivityInterpolation` is modelled as taking the first matching entry, as `findFirst` does.
- The object state after an exception: a failing call returns only the error.
- Unsorted Bermudan exercise schedules: the anchor lookup searches the schedule as a time discretization, which sorts its points, while `exerciseTimes[lastExerciseIndex-1]` (SensitivityInterpolation.java:228) indexes the raw array; the model requires an increasing schedule (`Snapshots.ValidEnv`), the only one on which the two agree.
- Bermudan.BermudanAnchor: its contract does not characterise every error of a crossing evaluation (lookup, melting, loop bounds). `Bermudan.FirstCrossingNeedsNoCache` gives the exact condition for the first crossing only.
