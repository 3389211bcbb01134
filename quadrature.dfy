/** The discretised normal prior over the quadrature grid (`gaussian_pts`). */
module Quadrature {
  import opened Common

  /** The CDF is non-decreasing in its first argument for this mean and sd. */
  ghost predicate CdfMonotone(m: Math, mu: real, s: real)
  {
    forall x, y :: x <= y ==> m.pnorm(x, mu, s) <= m.pnorm(y, mu, s)
  }

  /** The CDF is strictly increasing, as the normal CDF is for sd > 0. */
  ghost predicate CdfStrictlyMonotone(m: Math, mu: real, s: real)
  {
    forall x, y :: x < y ==> m.pnorm(x, mu, s) < m.pnorm(y, mu, s)
  }

  ghost predicate Increasing(theta: Vec)
  {
    forall i, j :: 0 <= i < j < |theta| ==> theta[i] < theta[j]
  }

  /** Midpoint-rule mass of node `i`: the CDF difference over the cell of
      half-width (theta[1] - theta[0]) / 2 around it. */
  function CellMass(m: Math, mu: real, s: real, theta: Vec, i: int): real
    requires |theta| >= 2 && 0 <= i < |theta|
  {
    var half := (theta[1] - theta[0]) / 2.0;
    m.pnorm(theta[i] + half, mu, s) - m.pnorm(theta[i] - half, mu, s)
  }

  function CellMasses(m: Math, mu: real, s: real, theta: Vec): (w: Vec)
    requires |theta| >= 2
    ensures |w| == |theta|
  {
    seq(|theta|, i requires 0 <= i < |theta| => CellMass(m, mu, s, theta, i))
  }

  /** The weights `gaussian_pts` returns: the cell masses divided by their
      total. A zero total makes the division yield NaN in the source; the
      model reports that as None. */
  function GaussianWeights(m: Math, mu: real, s: real, theta: Vec): Option<Vec>
    requires |theta| >= 2
  {
    var w := CellMasses(m, mu, s, theta);
    if Sum(w) == 0.0 then None else Some(Scale(w, Sum(w)))
  }

  /** `gaussian_pts`: fills `out` node by node, then renormalises it. */
  method GaussianPts(m: Math, mu: real, s: real, theta: Vec) returns (r: Option<Vec>)
    requires |theta| >= 2
    ensures r == GaussianWeights(m, mu, s, theta)
  {
    var out := FillMasses(m, mu, s, theta);
    var total := Accu(out);
    if total == 0.0 {
      return None;
    }
    DivideBy(out, total);
    r := Some(out[..]);
  }

  /** The first loop of `gaussian_pts`: the CDF difference over each cell. */
  method FillMasses(m: Math, mu: real, s: real, theta: Vec) returns (out: array<real>)
    requires |theta| >= 2
    ensures fresh(out) && out[..] == CellMasses(m, mu, s, theta)
  {
    var nt := |theta|;
    out := new real[nt];
    var half := (theta[1] - theta[0]) / 2.0;
    for i := 0 to nt
      invariant forall k :: 0 <= k < i ==> out[k] == CellMass(m, mu, s, theta, k)
    {
      out[i] := m.pnorm(theta[i] + half, mu, s) - m.pnorm(theta[i] - half, mu, s);
    }
  }

  /** `out = out / accu(out)`. */
  method DivideBy(out: array<real>, total: real)
    requires total != 0.0
    modifies out
    ensures out[..] == Scale(old(out[..]), total)
  {
    ghost var w := out[..];
    for i := 0 to out.Length
      invariant forall k :: 0 <= k < i ==> out[k] == w[k] / total
      invariant forall k :: i <= k < out.Length ==> out[k] == w[k]
    {
      out[i] := out[i] / total;
    }
  }

  /** The weights have one entry per node and sum to 1. */
  lemma WeightsSumToOne(m: Math, mu: real, s: real, theta: Vec)
    requires |theta| >= 2 && GaussianWeights(m, mu, s, theta).Some?
    ensures |GaussianWeights(m, mu, s, theta).value| == |theta|
    ensures Sum(GaussianWeights(m, mu, s, theta).value) == 1.0
  {
    var w := CellMasses(m, mu, s, theta);
    SumScale(w, Sum(w));
  }

  /** With a monotone CDF and an increasing grid every cell mass is
      non-negative, and so is every weight. */
  lemma WeightsNonNegative(m: Math, mu: real, s: real, theta: Vec)
    requires |theta| >= 2 && Increasing(theta) && CdfMonotone(m, mu, s)
    requires GaussianWeights(m, mu, s, theta).Some?
    ensures NonNegative(GaussianWeights(m, mu, s, theta).value)
  {
    var w := CellMasses(m, mu, s, theta);
    forall i | 0 <= i < |w| ensures w[i] >= 0.0 {
      CellNonNegative(m, mu, s, theta, i);
    }
    SumNonNegative(w);
    var total := Sum(w);
    forall i | 0 <= i < |w| ensures Scale(w, total)[i] >= 0.0 {
      QuotientNonNegative(w[i], total);
    }
  }

  /** A cell of positive width has non-negative mass under a monotone CDF. */
  lemma CellNonNegative(m: Math, mu: real, s: real, theta: Vec, i: int)
    requires |theta| >= 2 && 0 <= i < |theta| && Increasing(theta) && CdfMonotone(m, mu, s)
    ensures CellMass(m, mu, s, theta, i) >= 0.0
  {
    var half := (theta[1] - theta[0]) / 2.0;
    assert m.pnorm(theta[i] - half, mu, s) <= m.pnorm(theta[i] + half, mu, s);
  }

  lemma QuotientNonNegative(x: real, t: real)
    requires x >= 0.0 && t > 0.0
    ensures x / t >= 0.0
  {
  }

  /** With a strictly increasing CDF (sd > 0) the total cannot vanish, so
      the weights are always defined and every one is positive. */
  lemma WeightsDefined(m: Math, mu: real, s: real, theta: Vec)
    requires |theta| >= 2 && Increasing(theta) && CdfStrictlyMonotone(m, mu, s)
    ensures GaussianWeights(m, mu, s, theta).Some?
    ensures forall i :: 0 <= i < |theta| ==> GaussianWeights(m, mu, s, theta).value[i] > 0.0
  {
    var w := CellMasses(m, mu, s, theta);
    forall i | 0 <= i < |w| ensures w[i] > 0.0 {
      CellPositive(m, mu, s, theta, i);
    }
    PositiveSum(w);
    var total := Sum(w);
    forall i | 0 <= i < |w| ensures Scale(w, total)[i] > 0.0 {
      QuotientPositive(w[i], total);
    }
  }

  /** A cell of positive width has positive mass under a strictly
      increasing CDF. */
  lemma CellPositive(m: Math, mu: real, s: real, theta: Vec, i: int)
    requires |theta| >= 2 && 0 <= i < |theta| && Increasing(theta) && CdfStrictlyMonotone(m, mu, s)
    ensures CellMass(m, mu, s, theta, i) > 0.0
  {
    var half := (theta[1] - theta[0]) / 2.0;
    assert m.pnorm(theta[i] - half, mu, s) < m.pnorm(theta[i] + half, mu, s);
  }

  lemma QuotientPositive(x: real, t: real)
    requires x > 0.0 && t > 0.0
    ensures x / t > 0.0
  {
  }

  lemma {:induction false} PositiveSum(w: Vec)
    requires |w| > 0 && forall i :: 0 <= i < |w| ==> w[i] > 0.0
    ensures Sum(w) > 0.0
    decreases |w|
  {
    if |w| > 1 {
      PositiveSum(w[..|w| - 1]);
    }
  }
}
