/** The regression basis of the conditional expectation operator (getRegressionBasisFunctions):
    for every regressor, its powers 0, 1, ..., order, regressor by regressor. */
module Regression {
  /** x to the power p; the zeroth power is 1 for every x, as Math.pow gives. */
  function Pow(x: real, p: nat): real {
    if p == 0 then 1.0 else Pow(x, p - 1) * x
  }

  /** Number of basis functions per regressor. */
  function Width(order: int): nat {
    if order >= 0 then order + 1 else 0
  }

  /** Where block i starts when every block has w entries: i whole blocks, added one at a time. */
  function BlockStart(i: nat, w: nat): nat {
    if i == 0 then 0 else BlockStart(i - 1, w) + w
  }

  /** Block i starts at i·w. */
  lemma {:induction false} BlockStartIsProduct(i: nat, w: nat)
    ensures BlockStart(i, w) == i * w
  {
    if i > 0 {
      BlockStartIsProduct(i - 1, w);
      assert i * w == (i - 1) * w + w;
    }
  }

  function Monomials(x: real, order: int): (r: seq<real>)
    ensures |r| == Width(order)
  {
    seq(Width(order), p requires 0 <= p < Width(order) => Pow(x, p))
  }

  function RegressionBasis(libors: seq<real>, order: int): (r: seq<real>)
    ensures |r| == BlockStart(|libors|, Width(order))
  {
    if |libors| == 0 then []
    else Monomials(libors[0], order) + RegressionBasis(libors[1..], order)
  }

  /** One block per regressor: the basis has |libors|·(order+1) entries. */
  lemma BasisLength(libors: seq<real>, order: int)
    ensures |RegressionBasis(libors, order)| == |libors| * Width(order)
  {
    BlockStartIsProduct(|libors|, Width(order));
  }

  lemma {:induction false} BlockFits(i: nat, n: nat, w: nat, p: nat)
    requires i < n && p < w
    ensures BlockStart(i, w) + p < BlockStart(n, w)
    decreases n
  {
    if i + 1 < n {
      BlockFits(i, n - 1, w, p);
    }
  }

  /** Entry p of block i is the p-th power of regressor i. */
  lemma {:induction false} BasisEntry(libors: seq<real>, order: int, i: nat, p: nat)
    requires i < |libors| && p < Width(order)
    ensures BlockStart(i, Width(order)) + p < |RegressionBasis(libors, order)|
    ensures RegressionBasis(libors, order)[BlockStart(i, Width(order)) + p] == Pow(libors[i], p)
  {
    var w := Width(order);
    var head := Monomials(libors[0], order);
    var rest := RegressionBasis(libors[1..], order);
    assert RegressionBasis(libors, order) == head + rest;
    BlockFits(i, |libors|, w, p);
    if i == 0 {
      assert (head + rest)[p] == head[p];
    } else {
      BasisEntry(libors[1..], order, i - 1, p);
      assert libors[1..][i - 1] == libors[i];
      assert (head + rest)[BlockStart(i, w) + p] == rest[BlockStart(i - 1, w) + p];
    }
  }

  /** Every block starts with the constant 1. */
  lemma BlockStartsWithOne(libors: seq<real>, order: int, i: nat)
    requires i < |libors| && 0 < Width(order)
    ensures BlockStart(i, Width(order)) < |RegressionBasis(libors, order)|
    ensures RegressionBasis(libors, order)[BlockStart(i, Width(order))] == 1.0
  {
    BasisEntry(libors, order, i, 0);
  }
}
