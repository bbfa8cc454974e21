/** The chain-rule plumbing of SIMMPortfolio on one Monte Carlo path: products of vectors and
    matrices whose entries may be null (counted as zero), the composition dV/dS = dV/dL . dL/dS,
    the sparsity of the Libor-to-swap matrix and of the bond-to-swap matrix before inversion, the
    identity grid adjustment on the Libor grid, and the gradient lookup. */
module ChainRule {
  import opened Wrappers

  /** A row of possibly-null entries (RandomVariableInterface[] with nulls). */
  type Vector = seq<Option<real>>

  /** Rows of possibly-null entries; rows may differ in length. */
  type Matrix = seq<Vector>

  function ZeroIfNull(a: Option<real>): real {
    a.GetOr(0.0)
  }

  function NullAsZero(a: Vector): (r: seq<real>)
    ensures |r| == |a| && forall i :: 0 <= i < |a| ==> r[i] == ZeroIfNull(a[i])
  {
    seq(|a|, i requires 0 <= i < |a| => ZeroIfNull(a[i]))
  }

  function Lift(a: seq<real>): (r: Vector)
    ensures |r| == |a| && forall i :: 0 <= i < |a| ==> r[i] == Some(a[i])
  {
    seq(|a|, i requires 0 <= i < |a| => Some(a[i]))
  }

  /** Every entry B[k][i] that the product reads for column i, over the first n terms, exists:
      B[k] is read only where A[k] is not null (the null test on A comes first). */
  predicate Reachable(a: Vector, b: Matrix, i: nat, n: nat) {
    n <= |a| && forall k :: 0 <= k < n && a[k].Some? ==> k < |b| && i < |b[k]|
  }

  /** Term k of column i: zero when either factor is null. */
  function Term(a: Vector, b: Matrix, k: nat, i: nat): real
    requires k < |a| && (a[k].Some? ==> k < |b| && i < |b[k]|)
  {
    if a[k].None? then 0.0 else a[k].value * ZeroIfNull(b[k][i])
  }

  /** Reference definition: sum over k < n of a[k] * b[k][i], nulls as zero. */
  function ColumnSum(a: Vector, b: Matrix, i: nat, n: nat): real
    requires Reachable(a, b, i, n)
  {
    if n == 0 then 0.0 else ColumnSum(a, b, i, n - 1) + Term(a, b, n - 1, i)
  }

  /** The vector-matrix product reads B[0] for its length and then B[k][i] for every non-null
      A[k] and every column i < |B[0]|. */
  predicate VecMulDefined(a: Vector, b: Matrix) {
    |b| > 0 && forall i :: 0 <= i < |b[0]| ==> Reachable(a, b, i, |a|)
  }

  /** multiply(RandomVariableInterface[], RandomVariableInterface[][]). */
  function VectorTimesMatrix(a: Vector, b: Matrix): (r: Result<seq<real>>)
    ensures r.Ok? <==> VecMulDefined(a, b)
    ensures r.Err? ==> r.error == IndexOutOfBounds
    ensures r.Ok? ==> |r.value| == |b[0]|
  {
    if VecMulDefined(a, b) then Ok(seq(|b[0]|, i requires 0 <= i < |b[0]| => ColumnSum(a, b, i, |a|)))
    else Err(IndexOutOfBounds)
  }

  /** The loops of SIMMPortfolio: one accumulator per column of B[0], failing at the first missing entry. */
  method MultiplyVector(a: Vector, b: Matrix) returns (r: Result<seq<real>>)
    ensures r == VectorTimesMatrix(a, b)
  {
    if |b| == 0 {
      return Err(IndexOutOfBounds);
    }
    var ab: seq<real> := [];
    var i := 0;
    while i < |b[0]|
      invariant 0 <= i <= |b[0]| && |ab| == i
      invariant forall j :: 0 <= j < i ==> Reachable(a, b, j, |a|) && ab[j] == ColumnSum(a, b, j, |a|)
    {
      var acc := 0.0;
      var k := 0;
      while k < |a|
        invariant 0 <= k <= |a|
        invariant Reachable(a, b, i, k) && acc == ColumnSum(a, b, i, k)
      {
        if a[k].Some? {
          if k >= |b| || i >= |b[k]| {
            assert !Reachable(a, b, i, |a|);
            return Err(IndexOutOfBounds);
          }
          var product := if b[k][i].None? then 0.0 else a[k].value * b[k][i].value;
          acc := acc + product;
        }
        k := k + 1;
      }
      ab := ab + [acc];
      i := i + 1;
    }
    assert VecMulDefined(a, b);
    assert ab == seq(|b[0]|, i requires 0 <= i < |b[0]| => ColumnSum(a, b, i, |a|));
    return Ok(ab);
  }

  /** multiply(RandomVariableInterface[][], RandomVariableInterface[][]): |A| rows and |B|
      columns, entry (i, j) summing over k < |B|. */
  predicate MatMulDefined(a: Matrix, b: Matrix) {
    forall i, j :: 0 <= i < |a| && 0 <= j < |b| ==> Reachable(a[i], b, j, |b|)
  }

  function MatrixTimesMatrix(a: Matrix, b: Matrix): (r: Result<seq<seq<real>>>)
    ensures r.Ok? <==> MatMulDefined(a, b)
    ensures r.Ok? ==> |r.value| == |a| && forall i :: 0 <= i < |a| ==> |r.value[i]| == |b|
  {
    if MatMulDefined(a, b) then
      Ok(seq(|a|, i requires 0 <= i < |a| =>
        seq(|b|, j requires 0 <= j < |b| => ColumnSum(a[i], b, j, |b|))))
    else Err(IndexOutOfBounds)
  }

  predicate Square(b: Matrix, n: nat) {
    |b| == n && forall k :: 0 <= k < n ==> |b[k]| == n
  }

  /** For a square B, row i of A . B is the vector product of row i of A with B. */
  lemma MatrixRowIsVectorProduct(a: Matrix, b: Matrix, i: nat)
    requires Square(b, |b|) && |b| > 0 && i < |a|
    requires forall q :: 0 <= q < |a| ==> |a[q]| == |b|
    ensures MatrixTimesMatrix(a, b).Ok?
    ensures VectorTimesMatrix(a[i], b) == Ok(MatrixTimesMatrix(a, b).value[i])
  {
    assert MatMulDefined(a, b) by {
      forall q, j | 0 <= q < |a| && 0 <= j < |b|
        ensures Reachable(a[q], b, j, |b|)
      {
      }
    }
    assert |b[0]| == |b|;
    assert VecMulDefined(a[i], b);
  }

  /** The identity grid adjustment returned on the Libor grid: ones on the diagonal, every other
      entry null. A negative size is an error. */
  function OnGridAdjustment(n: int): (r: Result<Matrix>)
    ensures r.Ok? <==> n >= 0
    ensures r.Err? ==> r.error == NegativeArraySize
    ensures r.Ok? ==> Square(r.value, n)
  {
    if n < 0 then Err(NegativeArraySize)
    else Ok(seq(n, i requires 0 <= i < n => seq(n, j requires 0 <= j < n => if i == j then Some(1.0) else None)))
  }

  lemma {:induction false} IdentityColumn(a: Vector, id: Matrix, i: nat, m: nat)
    requires OnGridAdjustment(|a|) == Ok(id) && i < |a| && m <= |a|
    ensures Reachable(a, id, i, m)
    ensures ColumnSum(a, id, i, m) == if i < m then ZeroIfNull(a[i]) else 0.0
  {
    if m > 0 {
      IdentityColumn(a, id, i, m - 1);
    }
  }

  /** Multiplying by the on-grid adjustment gives back the sensitivities, nulls read as zero. */
  lemma OnGridAdjustmentIsNeutral(a: Vector)
    requires |a| > 0
    ensures VectorTimesMatrix(a, OnGridAdjustment(|a|).value) == Ok(NullAsZero(a))
  {
    var id := OnGridAdjustment(|a|).value;
    forall i | 0 <= i < |a|
      ensures Reachable(a, id, i, |a|) && ColumnSum(a, id, i, |a|) == ZeroIfNull(a[i])
    {
      IdentityColumn(a, id, i, |a|);
    }
    assert VecMulDefined(a, id);
    assert seq(|id[0]|, i requires 0 <= i < |id[0]| => ColumnSum(a, id, i, |a|)) == NullAsZero(a);
  }

  /** 1 when the evaluation time is off the Libor grid and the grid adjustment is switched off:
      the first Libor sensitivity is then skipped. */
  function TimeGridIndicator(useAdjustment: bool, onGrid: bool): nat {
    if !useAdjustment && !onGrid then 1 else 0
  }

  /** Sum over i < m of dVdL[i + g] * dLdS[i][j], a null factor read as zero. */
  function DeltaSum(dVdL: seq<real>, dLdS: Matrix, g: nat, j: nat, m: nat): real
    requires m + g <= |dVdL| && m <= |dLdS| && forall i :: 0 <= i < m ==> j < |dLdS[i]|
  {
    if m == 0 then 0.0 else DeltaSum(dVdL, dLdS, g, j, m - 1) + dVdL[m - 1 + g] * ZeroIfNull(dLdS[m - 1][j])
  }

  /** doCalculateDeltaSensitivitiesIR for a forward curve: dV/dS on the remaining n = |dVdL| - g
      swaps, reading dLdS[i][j] for every i, j < n. */
  function DeltaForward(dVdL: seq<real>, dLdS: Matrix, g: nat): (r: Result<seq<real>>)
    ensures r == Err(NegativeArraySize) <==> |dVdL| < g
    ensures r.Ok? <==> |dVdL| >= g && (|dVdL| == g || (|dLdS| >= |dVdL| - g && forall i :: 0 <= i < |dVdL| - g ==> |dLdS[i]| >= |dVdL| - g))
    ensures r.Ok? ==> |r.value| == |dVdL| - g
  {
    var n := |dVdL| - g;
    if n < 0 then Err(NegativeArraySize)
    else if n > 0 && (|dLdS| < n || exists i :: 0 <= i < n && |dLdS[i]| < n) then Err(IndexOutOfBounds)
    else Ok(seq(n, j requires 0 <= j < n => DeltaSum(dVdL, dLdS, g, j, n)))
  }

  lemma {:induction false} DeltaSumIsColumnSum(dVdL: seq<real>, dLdS: Matrix, g: nat, j: nat, m: nat)
    requires g <= |dVdL| && m <= |dVdL| - g && m <= |dLdS| && forall i :: 0 <= i < m ==> j < |dLdS[i]|
    ensures Reachable(Lift(dVdL[g..]), dLdS, j, m)
    ensures DeltaSum(dVdL, dLdS, g, j, m) == ColumnSum(Lift(dVdL[g..]), dLdS, j, m)
  {
    if m > 0 {
      DeltaSumIsColumnSum(dVdL, dLdS, g, j, m - 1);
    }
  }

  /** The composition dV/dS = dV/dL . dL/dS: for a square dL/dS on the remaining Libors the
      delta is the vector product of the used part of dV/dL with dL/dS. */
  lemma DeltaIsChainRule(dVdL: seq<real>, dLdS: Matrix, g: nat)
    requires g < |dVdL| && Square(dLdS, |dVdL| - g)
    ensures DeltaForward(dVdL, dLdS, g) == VectorTimesMatrix(Lift(dVdL[g..]), dLdS)
  {
    var n := |dVdL| - g;
    forall j | 0 <= j < n
      ensures Reachable(Lift(dVdL[g..]), dLdS, j, n)
      ensures DeltaSum(dVdL, dLdS, g, j, n) == ColumnSum(Lift(dVdL[g..]), dLdS, j, n)
    {
      DeltaSumIsColumnSum(dVdL, dLdS, g, j, n);
    }
    var v := Lift(dVdL[g..]);
    assert |v| == n && |dLdS[0]| == n;
    assert VecMulDefined(v, dLdS);
    assert DeltaForward(dVdL, dLdS, g) == Ok(seq(n, j requires 0 <= j < n => DeltaSum(dVdL, dLdS, g, j, n)));
    assert seq(n, j requires 0 <= j < n => DeltaSum(dVdL, dLdS, g, j, n))
        == seq(|dLdS[0]|, j requires 0 <= j < |dLdS[0]| => ColumnSum(v, dLdS, j, |v|));
  }

  /** The top-left n by n block of a matrix with at least n rows of at least n entries. */
  function TopLeft(b: Matrix, n: nat): (r: Matrix)
    requires |b| >= n && forall i :: 0 <= i < n ==> |b[i]| >= n
    ensures Square(r, n)
    ensures forall i, j :: 0 <= i < n && 0 <= j < n ==> r[i][j] == b[i][j]
  {
    seq(n, i requires 0 <= i < n => b[i][..n])
  }

  /** The delta sums read dL/dS only inside the block of the first m rows and the columns used. */
  lemma {:induction false} DeltaSumOnBlock(dVdL: seq<real>, dLdS: Matrix, g: nat, j: nat, m: nat, n: nat)
    requires m <= n && j < n && n + g <= |dVdL| && |dLdS| >= n && forall i :: 0 <= i < n ==> |dLdS[i]| >= n
    ensures DeltaSum(dVdL, dLdS, g, j, m) == DeltaSum(dVdL, TopLeft(dLdS, n), g, j, m)
  {
    if m > 0 {
      DeltaSumOnBlock(dVdL, dLdS, g, j, m - 1, n);
    }
  }

  /** The composition dV/dS = dV/dL . dL/dS when dL/dS is larger than the remaining Libors, as the
      time-0 matrix of the constant weight method is at later times: the loops use only its top-left
      block, and the delta is the vector product with that block. */
  lemma DeltaIsChainRuleOnBlock(dVdL: seq<real>, dLdS: Matrix, g: nat)
    requires g < |dVdL| && |dLdS| >= |dVdL| - g && forall i :: 0 <= i < |dVdL| - g ==> |dLdS[i]| >= |dVdL| - g
    ensures DeltaForward(dVdL, dLdS, g) == VectorTimesMatrix(Lift(dVdL[g..]), TopLeft(dLdS, |dVdL| - g))
  {
    var n := |dVdL| - g;
    var block := TopLeft(dLdS, n);
    forall j | 0 <= j < n
      ensures DeltaSum(dVdL, dLdS, g, j, n) == DeltaSum(dVdL, block, g, j, n)
    {
      DeltaSumOnBlock(dVdL, dLdS, g, j, n, n);
    }
    var onMatrix := seq(n, j requires 0 <= j < n => DeltaSum(dVdL, dLdS, g, j, n));
    var onBlock := seq(n, j requires 0 <= j < n => DeltaSum(dVdL, block, g, j, n));
    assert DeltaForward(dVdL, dLdS, g) == Ok(onMatrix);
    assert DeltaForward(dVdL, block, g) == Ok(onBlock);
    assert onMatrix == onBlock;
    DeltaIsChainRule(dVdL, block, g);
  }

  /** Only the diagonal and the entry left of it may be non-null. */
  predicate LowerBidiagonal(l: Matrix) {
    Square(l, |l|) && forall i, j :: 0 <= i < |l| && 0 <= j < |l| && j != i && j != i - 1 ==> l[i][j].None?
  }

  function SumTo(df: nat -> real, l: nat): real {
    if l == 0 then df(0) else SumTo(df, l - 1) + df(l)
  }

  /** getLiborSwapSensitivities: dL/dS on the n remaining Libors. df(l) is the reciprocal numeraire
      at the end of period l and cond the conditional expectation operator, both supplied by the
      model. Row 0 is the unit vector; row l holds -E[S_{l-1}]/E[df_l] and E[S_l]/E[df_l] where
      S_l is the running sum df_0 + ... + df_l. */
  function LiborSwapSensitivities(n: int, df: nat -> real, cond: real -> real): (r: Result<Matrix>)
    requires forall l :: 1 <= l < n ==> cond(df(l)) != 0.0
    ensures r.Ok? <==> n >= 1
    ensures n < 0 ==> r == Err(NegativeArraySize)
    ensures n == 0 ==> r == Err(IndexOutOfBounds)
    ensures r.Ok? ==> Square(r.value, n) && r.value[0][0] == Some(1.0)
    ensures r.Ok? ==> LowerBidiagonal(r.value)
    ensures r.Ok? ==> forall l :: 1 <= l < n ==>
      r.value[l][l - 1] == Some(-(cond(SumTo(df, l - 1)) / cond(df(l))))
      && r.value[l][l] == Some(cond(SumTo(df, l)) / cond(df(l)))
  {
    if n < 0 then Err(NegativeArraySize)
    else if n == 0 then Err(IndexOutOfBounds)
    else Ok(LiborSwapMatrix(n, df, cond))
  }

  /** The n x n array of getLiborSwapSensitivities, entry by entry. */
  function LiborSwapMatrix(n: nat, df: nat -> real, cond: real -> real): (l: Matrix)
    requires forall k :: 1 <= k < n ==> cond(df(k)) != 0.0
    ensures Square(l, n)
    ensures forall i, j :: 0 <= i < n && 0 <= j < n ==> l[i][j] == LiborSwapEntry(df, cond, i, j)
    ensures LowerBidiagonal(l)
  {
    seq(n, i requires 0 <= i < n => seq(n, j requires 0 <= j < n => LiborSwapEntry(df, cond, i, j)))
  }

  /** Entry (l, m) of dL/dS: 1 at the origin, -E[S_{l-1}]/E[df_l] left of the diagonal,
      E[S_l]/E[df_l] on it, null elsewhere. */
  function LiborSwapEntry(df: nat -> real, cond: real -> real, l: nat, m: nat): Option<real>
    requires l >= 1 ==> cond(df(l)) != 0.0
  {
    if l == 0 && m == 0 then Some(1.0)
    else if l >= 1 && m == l - 1 then Some(-(cond(SumTo(df, l - 1)) / cond(df(l))))
    else if l >= 1 && m == l then Some(cond(SumTo(df, l)) / cond(df(l)))
    else None
  }

  lemma {:induction false} BidiagonalColumnPrefix(a: Vector, l: Matrix, j: nat, m: nat)
    requires LowerBidiagonal(l) && |a| == |l| && j < |l| && m <= |l|
    ensures Reachable(a, l, j, m)
    ensures ColumnSum(a, l, j, m) ==
      (if j < m then Term(a, l, j, j) else 0.0) + (if j + 1 < m then Term(a, l, j + 1, j) else 0.0)
  {
    if m > 0 {
      BidiagonalColumnPrefix(a, l, j, m - 1);
      if m - 1 != j && m - 1 != j + 1 {
        assert l[m - 1][j].None?;
      }
    }
  }

  /** Through a lower-bidiagonal dL/dS, swap j only sees Libors j and j + 1. */
  lemma BidiagonalProduct(a: Vector, l: Matrix, j: nat)
    requires LowerBidiagonal(l) && |a| == |l| && j < |l|
    ensures VectorTimesMatrix(a, l).Ok?
    ensures VectorTimesMatrix(a, l).value[j] ==
      Term(a, l, j, j) + (if j + 1 < |l| then Term(a, l, j + 1, j) else 0.0)
  {
    forall i | 0 <= i < |l|
      ensures Reachable(a, l, i, |a|)
    {
      BidiagonalColumnPrefix(a, l, i, |a|);
    }
    BidiagonalColumnPrefix(a, l, j, |a|);
  }

  /** Entry (swap s, bond p) of the bond-to-swap Jacobian before inversion; S_p is the running sum
      of the first p + 1 bond prices. */
  function BondSwapEntry(bond: nat -> real, s: nat, p: nat): real
    requires SumTo(bond, p) != 0.0
  {
    var sum := SumTo(bond, p);
    if s < p then 0.0
    else if s == p then -(sum + 1.0 - bond(p)) / (sum * sum)
    else (bond(p) - 1.0) / (sum * sum)
  }

  /** getBondSwapSensitivity before the pseudo-inverse: bond(p) is the conditional expectation of
      the zero bond maturing (p + 1) half-years after the evaluation time. */
  function BondSwapSensitivities(n: int, bond: nat -> real): (r: Result<Matrix>)
    requires forall p :: 0 <= p < n ==> SumTo(bond, p) != 0.0
    ensures r.Ok? <==> n >= 1
    ensures n < 0 ==> r == Err(NegativeArraySize)
    ensures n == 0 ==> r == Err(IndexOutOfBounds)
    ensures r.Ok? ==> Square(r.value, n)
    ensures r.Ok? ==> forall s, p :: 0 <= s < p < n ==> r.value[s][p] == Some(0.0)
  {
    if n < 0 then Err(NegativeArraySize)
    else if n == 0 then Err(IndexOutOfBounds)
    else Ok(seq(n, s requires 0 <= s < n => seq(n, p requires 0 <= p < n => Some(BondSwapEntry(bond, s, p)))))
  }

  /** Below the diagonal a column is constant, and the diagonal lies 1 / S_p below it. */
  lemma BondSwapColumn(n: int, bond: nat -> real, p: nat, s: nat)
    requires forall q :: 0 <= q < n ==> SumTo(bond, q) != 0.0
    requires p < s < n
    ensures var m := BondSwapSensitivities(n, bond).value;
      m[s][p] == m[p + 1][p]
      && ZeroIfNull(m[p][p]) == ZeroIfNull(m[s][p]) - 1.0 / SumTo(bond, p)
  {
    var sum := SumTo(bond, p);
    var sq := sum * sum;
    assert sq != 0.0;
    var d := -(sum + 1.0 - bond(p)) / sq;
    var u := (bond(p) - 1.0) / sq;
    assert d - u == (-(sum + 1.0 - bond(p)) - (bond(p) - 1.0)) / sq;
    assert -(sum + 1.0 - bond(p)) - (bond(p) - 1.0) == -sum;
    assert -sum / sq == -(1.0 / sum);
  }

  /** getDerivative: the gradient entry for a risk factor, zero when the gradient has none. */
  function Derivative(gradient: map<int, real>, id: int): (r: real)
    ensures id in gradient ==> r == gradient[id]
    ensures id !in gradient ==> r == 0.0
  {
    if id in gradient then gradient[id] else 0.0
  }
}
