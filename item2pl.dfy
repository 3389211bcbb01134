/** The objective of one dichotomous 2PL item given its expected counts
    (`ll_2pl_dich`): minus the log-likelihood, its gradient and Hessian,
    each summed over the quadrature nodes. */
module Item2PL {
  import opened Common

  /** P(correct) at node `t` for discrimination `a` and difficulty `b`. */
  function Prob(m: Math, a: real, b: real, t: real): real
    requires m.ExpPositive()
  {
    1.0 / (1.0 + m.exp(-a * (t - b)))
  }

  /** Minus the log-likelihood of the first `k` nodes, accumulated as
      `ll -= r1[i] * log(p) + r0[i] * log(1 - p)`. */
  function NegLogLik(m: Math, a: real, b: real, r0: Vec, r1: Vec, theta: Vec, k: int): real
    requires m.ExpPositive() && 0 <= k <= |r0| && k <= |r1| && k <= |theta|
  {
    if k == 0 then 0.0
    else
      var p := Prob(m, a, b, theta[k - 1]);
      NegLogLik(m, a, b, r0, r1, theta, k - 1) - (r1[k - 1] * m.log(p) + r0[k - 1] * m.log(1.0 - p))
  }

  /** `e = exp(a (b - theta))`, the odds of an incorrect response. */
  function Odds(m: Math, a: real, b: real, t: real): real
  {
    m.exp(a * (b - t))
  }

  /** The weighted residual of node `i`, `(r0 - r1 e) / (e + 1)` with
      `e = exp(a (b - theta))`, shared by both gradient components. */
  function Residual(m: Math, a: real, b: real, r0: real, r1: real, t: real): real
    requires m.ExpPositive()
  {
    var e := Odds(m, a, b, t);
    (r0 - r1 * e) / (e + 1.0)
  }

  /** Node `t`'s contributions `(b - t) (r0 - r1 e) / (e + 1)` and
      `a (r0 - r1 e) / (e + 1)`, subtracted from `g[0]` and `g[1]`. */
  function GradATerm(m: Math, a: real, b: real, r0: real, r1: real, t: real): real
    requires m.ExpPositive()
  {
    var e := Odds(m, a, b, t);
    (b - t) * (r0 - r1 * e) / (e + 1.0)
  }

  function GradBTerm(m: Math, a: real, b: real, r0: real, r1: real, t: real): real
    requires m.ExpPositive()
  {
    var e := Odds(m, a, b, t);
    a * (r0 - r1 * e) / (e + 1.0)
  }

  /** `g[0]` after the first `k` nodes. */
  function GradA(m: Math, a: real, b: real, r0: Vec, r1: Vec, theta: Vec, k: int): real
    requires m.ExpPositive() && 0 <= k <= |r0| && k <= |r1| && k <= |theta|
  {
    if k == 0 then 0.0
    else
      GradA(m, a, b, r0, r1, theta, k - 1) - GradATerm(m, a, b, r0[k - 1], r1[k - 1], theta[k - 1])
  }

  /** `g[1]` after the first `k` nodes. */
  function GradB(m: Math, a: real, b: real, r0: Vec, r1: Vec, theta: Vec, k: int): real
    requires m.ExpPositive() && 0 <= k <= |r0| && k <= |r1| && k <= |theta|
  {
    if k == 0 then 0.0
    else
      GradB(m, a, b, r0, r1, theta, k - 1) - GradBTerm(m, a, b, r0[k - 1], r1[k - 1], theta[k - 1])
  }

  /** The sum of the residuals of the first `k` nodes, and that sum
      weighted by `b - theta`. */
  function ResidualSum(m: Math, a: real, b: real, r0: Vec, r1: Vec, theta: Vec, k: int): real
    requires m.ExpPositive() && 0 <= k <= |r0| && k <= |r1| && k <= |theta|
  {
    if k == 0 then 0.0
    else ResidualSum(m, a, b, r0, r1, theta, k - 1) + Residual(m, a, b, r0[k - 1], r1[k - 1], theta[k - 1])
  }

  function WeightedResidualSum(m: Math, a: real, b: real, r0: Vec, r1: Vec, theta: Vec, k: int): real
    requires m.ExpPositive() && 0 <= k <= |r0| && k <= |r1| && k <= |theta|
  {
    if k == 0 then 0.0
    else WeightedResidualSum(m, a, b, r0, r1, theta, k - 1)
         + (b - theta[k - 1]) * Residual(m, a, b, r0[k - 1], r1[k - 1], theta[k - 1])
  }

  /** The three distinct entries of the 2x2 Hessian. */
  datatype Hess2 = Hess2(h00: real, h01: real, h11: real)

  function Negate(h: Hess2): Hess2
  {
    Hess2(-h.h00, -h.h01, -h.h11)
  }

  /** The matrix `hess(ab, h, negative)` leaves: the accumulation itself
      when `negative` holds, its negation otherwise. */
  function Signed(h: Hess2, negative: bool): Hess2
  {
    if negative then h else Negate(h)
  }

  function SQR(v: real): real
  {
    v * v
  }

  /** Node `t`'s contribution to `h(0,0)` and `h(0,1)` (before the sign of
      the accumulation) and to `h(1,1)`. */
  function Term00(m: Math, a: real, b: real, r0: real, r1: real, t: real): real
    requires m.ExpPositive()
  {
    var e := Odds(m, a, b, t);
    (r0 * (e + 1.0) - r0 - r1 * (e + 1.0) * e - (2.0 * r0 - r1 * e) * e) * SQR(b - t) / SQR(e + 1.0)
  }

  function Term01(m: Math, a: real, b: real, r0: real, r1: real, t: real): real
    requires m.ExpPositive()
  {
    var e := Odds(m, a, b, t);
    (a * r0 * (t - b) - a * (b - t) * (2.0 * r0 - r1 * e) * e
     + r0 * (a * (b - t) + 1.0) * (e + 1.0)
     - r1 * (a * (b - t) + 1.0) * (e + 1.0) * e) / SQR(e + 1.0)
  }

  /** The `h(1,1)` term, through the total count `n = r0 + r1` only. */
  function Term11(m: Math, a: real, b: real, n: real, t: real): real
    requires m.ExpPositive()
  {
    var e := m.exp(a * (b + t));
    SQR(a) * n * e / (m.exp(2.0 * a * b) + m.exp(2.0 * a * t) + 2.0 * e)
  }

  /** The Hessian accumulated over the first `k` nodes with the signs of
      `hess(ab, h, true)`: `h00 -=`, `h01 -=`, `h11 +=`. */
  function HessAcc(m: Math, a: real, b: real, r0: Vec, r1: Vec, theta: Vec, k: int): Hess2
    requires m.ExpPositive() && 0 <= k <= |r0| && k <= |r1| && k <= |theta|
  {
    if k == 0 then Hess2(0.0, 0.0, 0.0)
    else
      var h := HessAcc(m, a, b, r0, r1, theta, k - 1);
      var i := k - 1;
      Hess2(h.h00 - Term00(m, a, b, r0[i], r1[i], theta[i]),
            h.h01 - Term01(m, a, b, r0[i], r1[i], theta[i]),
            h.h11 + Term11(m, a, b, r0[i] + r1[i], theta[i]))
  }

  /** `log` is non-positive on (0, 1), as the natural logarithm is. */
  ghost predicate LogNonPositiveOnUnit(m: Math)
  {
    forall x :: 0.0 < x < 1.0 ==> m.log(x) <= 0.0
  }

  /** The item's view of column `i` of `r0`/`r1` and of the grid. */
  class Item {
    var r0: Vec
    var r1: Vec
    var theta: Vec
    var n: int

    ghost predicate Valid()
      reads this
    {
      0 <= n && |r0| == n && |r1| == n && |theta| == n
    }

    /** `ll_2pl_dich(r1p, r0p, thetap, ni)`: the first `ni` entries of each
        buffer. */
    constructor(r1p: Vec, r0p: Vec, thetap: Vec, ni: int)
      requires 0 <= ni && ni <= |r1p| && ni <= |r0p| && ni <= |thetap|
      ensures Valid() && n == ni
      ensures r1 == r1p[..ni] && r0 == r0p[..ni] && theta == thetap[..ni]
    {
      n := ni;
      r1 := r1p[..ni];
      r0 := r0p[..ni];
      theta := thetap[..ni];
    }

    /** `operator()`: minus the log-likelihood at `ab`, or the error raised
        when the sum is infinite. */
    method Value(m: Math, ab: Vec) returns (r: Result<real>)
      requires Valid() && m.ExpPositive() && |ab| >= 2
      ensures var ll := NegLogLik(m, ab[0], ab[1], r0, r1, theta, n);
              r == if m.isInf(ll) then Failure("inf ll") else Success(ll)
    {
      var ll := 0.0;
      var a, b := ab[0], ab[1];
      for i := 0 to n
        invariant ll == NegLogLik(m, a, b, r0, r1, theta, i)
      {
        var p := Prob(m, a, b, theta[i]);
        ll := ll - (r1[i] * m.log(p) + r0[i] * m.log(1.0 - p));
      }
      if m.isInf(ll) {
        return Failure("inf ll");
      }
      return Success(ll);
    }

    /** `df`: zeroes `g`, accumulates both components node by node and
        reports failure when either is not finite. */
    method Gradient(m: Math, ab: Vec, g: array<real>) returns (ok: bool)
      requires Valid() && m.ExpPositive() && |ab| >= 2 && g.Length == 2
      modifies g
      ensures g[0] == GradA(m, ab[0], ab[1], r0, r1, theta, n)
      ensures g[1] == GradB(m, ab[0], ab[1], r0, r1, theta, n)
      ensures ok == (m.isFinite(g[0]) && m.isFinite(g[1]))
    {
      g[0], g[1] := 0.0, 0.0;
      var a, b := ab[0], ab[1];
      for i := 0 to n
        invariant g[0] == GradA(m, a, b, r0, r1, theta, i) && g[1] == GradB(m, a, b, r0, r1, theta, i)
      {
        g[0] := g[0] - GradATerm(m, a, b, r0[i], r1[i], theta[i]);
        g[1] := g[1] - GradBTerm(m, a, b, r0[i], r1[i], theta[i]);
      }
      ok := m.isFinite(g[0]) && m.isFinite(g[1]);
    }

    /** `hess(ab, h, negative)`: accumulates the three entries node by
        node, mirrors `h(0,1)` into `h(1,0)` and negates the whole matrix
        when `negative` is false. */
    method Hessian(m: Math, ab: Vec, h: array2<real>, negative: bool)
      requires Valid() && m.ExpPositive() && |ab| >= 2 && h.Length0 == 2 && h.Length1 == 2
      modifies h
      ensures h[0, 0] == Signed(HessAcc(m, ab[0], ab[1], r0, r1, theta, n), negative).h00
      ensures h[0, 1] == Signed(HessAcc(m, ab[0], ab[1], r0, r1, theta, n), negative).h01
      ensures h[1, 0] == Signed(HessAcc(m, ab[0], ab[1], r0, r1, theta, n), negative).h01
      ensures h[1, 1] == Signed(HessAcc(m, ab[0], ab[1], r0, r1, theta, n), negative).h11
    {
      var a, b := ab[0], ab[1];
      var h00, h01, h11 := 0.0, 0.0, 0.0;
      for i := 0 to n
        invariant Hess2(h00, h01, h11) == HessAcc(m, a, b, r0, r1, theta, i)
      {
        h00 := h00 - Term00(m, a, b, r0[i], r1[i], theta[i]);
        h01 := h01 - Term01(m, a, b, r0[i], r1[i], theta[i]);
        h11 := h11 + Term11(m, a, b, r0[i] + r1[i], theta[i]);
      }
      var hh := Signed(Hess2(h00, h01, h11), negative);
      h[0, 0], h[0, 1], h[1, 0], h[1, 1] := hh.h00, hh.h01, hh.h01, hh.h11;
    }
  }

  // ---------------------------------------------------------------------
  // Properties of the objective.
  // ---------------------------------------------------------------------

  lemma NonPositiveProduct(c: real, l: real)
    requires c >= 0.0 && l <= 0.0
    ensures c * l <= 0.0
  {
  }

  /** With non-negative counts, minus the log-likelihood is non-negative:
      every `log p` and `log(1 - p)` is at most 0. */
  lemma {:induction false} NegLogLikNonNegative(m: Math, a: real, b: real, r0: Vec, r1: Vec, theta: Vec, k: int)
    requires m.ExpPositive() && LogNonPositiveOnUnit(m) && 0 <= k <= |r0| && k <= |r1| && k <= |theta|
    requires NonNegative(r0) && NonNegative(r1)
    ensures NegLogLik(m, a, b, r0, r1, theta, k) >= 0.0
    decreases k
  {
    if k > 0 {
      NegLogLikNonNegative(m, a, b, r0, r1, theta, k - 1);
      var p := Prob(m, a, b, theta[k - 1]);
      LogisticInUnit(m.exp(-a * (theta[k - 1] - b)));
      NonPositiveProduct(r1[k - 1], m.log(p));
      NonPositiveProduct(r0[k - 1], m.log(1.0 - p));
    }
  }

  lemma TermDivides(a: real, x: real, d: real)
    requires d != 0.0
    ensures a * x / d == a * (x / d)
  {
  }

  /** Both gradient components are (weighted) sums of one residual per
      node: `g[1] = -a * sum(res)` and `g[0] = -sum((b - theta) * res)`. */
  lemma GradientFromResiduals(m: Math, a: real, b: real, r0: Vec, r1: Vec, theta: Vec, k: int)
    requires m.ExpPositive() && 0 <= k <= |r0| && k <= |r1| && k <= |theta|
    ensures GradB(m, a, b, r0, r1, theta, k) == -a * ResidualSum(m, a, b, r0, r1, theta, k)
    ensures GradA(m, a, b, r0, r1, theta, k) == -WeightedResidualSum(m, a, b, r0, r1, theta, k)
  {
    GradBFromResiduals(m, a, b, r0, r1, theta, k);
    GradAFromResiduals(m, a, b, r0, r1, theta, k);
  }

  lemma {:induction false} GradBFromResiduals(m: Math, a: real, b: real, r0: Vec, r1: Vec, theta: Vec, k: int)
    requires m.ExpPositive() && 0 <= k <= |r0| && k <= |r1| && k <= |theta|
    ensures GradB(m, a, b, r0, r1, theta, k) == -a * ResidualSum(m, a, b, r0, r1, theta, k)
    decreases k
  {
    if k > 0 {
      var i := k - 1;
      GradBFromResiduals(m, a, b, r0, r1, theta, i);
      var res := Residual(m, a, b, r0[i], r1[i], theta[i]);
      GradBTermIsResidual(m, a, b, r0[i], r1[i], theta[i]);
      Distribute(-a, ResidualSum(m, a, b, r0, r1, theta, i), res);
    }
  }

  lemma {:induction false} GradAFromResiduals(m: Math, a: real, b: real, r0: Vec, r1: Vec, theta: Vec, k: int)
    requires m.ExpPositive() && 0 <= k <= |r0| && k <= |r1| && k <= |theta|
    ensures GradA(m, a, b, r0, r1, theta, k) == -WeightedResidualSum(m, a, b, r0, r1, theta, k)
    decreases k
  {
    if k > 0 {
      var i := k - 1;
      GradAFromResiduals(m, a, b, r0, r1, theta, i);
      GradATermIsResidual(m, a, b, r0[i], r1[i], theta[i]);
    }
  }

  lemma GradBTermIsResidual(m: Math, a: real, b: real, r0: real, r1: real, t: real)
    requires m.ExpPositive()
    ensures GradBTerm(m, a, b, r0, r1, t) == a * Residual(m, a, b, r0, r1, t)
  {
    var e := Odds(m, a, b, t);
    TermDivides(a, r0 - r1 * e, e + 1.0);
  }

  lemma GradATermIsResidual(m: Math, a: real, b: real, r0: real, r1: real, t: real)
    requires m.ExpPositive()
    ensures GradATerm(m, a, b, r0, r1, t) == (b - t) * Residual(m, a, b, r0, r1, t)
  {
    var e := Odds(m, a, b, t);
    TermDivides(b - t, r0 - r1 * e, e + 1.0);
  }

  /** The `h(1,1)` entry depends on the counts only through `r0 + r1`:
      two count vectors with the same node totals give the same entry. */
  lemma {:induction false} H11ThroughTotals(m: Math, a: real, b: real, r0: Vec, r1: Vec, s0: Vec, s1: Vec,
                                           theta: Vec, k: int)
    requires m.ExpPositive() && 0 <= k <= |r0| && k <= |r1| && k <= |s0| && k <= |s1| && k <= |theta|
    requires forall i :: 0 <= i < k ==> r0[i] + r1[i] == s0[i] + s1[i]
    ensures HessAcc(m, a, b, r0, r1, theta, k).h11 == HessAcc(m, a, b, s0, s1, theta, k).h11
    decreases k
  {
    if k > 0 {
      H11ThroughTotals(m, a, b, r0, r1, s0, s1, theta, k - 1);
    }
  }
}
