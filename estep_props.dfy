/** What the E-step's results mean: normalised posteriors, conserved
    mass, posterior means inside the grid and consistent group sums. */
module EStepProperties {
  import opened Common
  import opened Quadrature
  import opened Responses
  import opened EStep2PL

  // ---------------------------------------------------------------------
  // Signs of traces, likelihoods and posteriors.
  // ---------------------------------------------------------------------

  ghost predicate Positive(v: Vec)
  {
    forall t :: 0 <= t < |v| ==> v[t] > 0.0
  }

  /** Every trace value is a probability strictly between 0 and 1. */
  ghost predicate UnitTraces(itrace: seq<Vec>)
  {
    forall i, t :: 0 <= i < |itrace| && 0 <= t < |itrace[i]| ==> 0.0 < itrace[i][t] < 1.0
  }

  lemma TracesInUnit(m: Math, a: Vec, b: Vec, theta: Vec)
    requires m.ExpPositive() && |a| == |b|
    ensures UnitTraces(Traces(m, a, b, theta))
  {
    var itrace := Traces(m, a, b, theta);
    forall i, t | 0 <= i < |itrace| && 0 <= t < |itrace[i]| ensures 0.0 < itrace[i][t] < 1.0 {
      LogisticInUnit(m.exp(-a[i] * (theta[t] - b[i])));
    }
  }

  lemma MulSign(x: real, y: real)
    requires y > 0.0
    ensures x >= 0.0 ==> x * y >= 0.0
    ensures x > 0.0 ==> x * y > 0.0
  {
  }

  /** Multiplying by factors in (0, 1) keeps a prior non-negative, or
      positive. */
  lemma {:induction false} LikelihoodSign(prior: Vec, itrace: seq<Vec>, r: Responses, lo: int, hi: int)
    requires r.Valid(|itrace|) && TracesFit(itrace, |prior|) && UnitTraces(itrace)
    requires 0 <= lo <= hi <= |r.pi|
    ensures NonNegative(prior) ==> NonNegative(Likelihood(prior, itrace, r, lo, hi))
    ensures Positive(prior) ==> Positive(Likelihood(prior, itrace, r, lo, hi))
    decreases hi - lo
  {
    if hi > lo {
      LikelihoodSign(prior, itrace, r, lo, hi - 1);
      var v := Likelihood(prior, itrace, r, lo, hi - 1);
      var f := Factor(itrace[r.pi[hi - 1]], r.px[hi - 1]);
      forall t | 0 <= t < |v|
        ensures (NonNegative(prior) ==> v[t] * f[t] >= 0.0) && (Positive(prior) ==> v[t] * f[t] > 0.0)
      {
        assert 0.0 < f[t] < 1.0;
        MulSign(v[t], f[t]);
      }
    }
  }

  lemma DivSign(x: real, c: real)
    requires c > 0.0 && x >= 0.0
    ensures x / c >= 0.0
  {
  }

  lemma DivSelf(c: real)
    requires c != 0.0
    ensures c / c == 1.0
  {
  }

  /** `v / accu(v)` sums to 1 whenever the total is nonzero. */
  lemma NormalizeSumsToOne(v: Vec)
    requires Sum(v) != 0.0
    ensures Sum(Normalize(v)) == 1.0
  {
    SumScale(v, Sum(v));
    DivSelf(Sum(v));
  }

  lemma NormalizeNonNegative(v: Vec)
    requires NonNegative(v)
    ensures NonNegative(Normalize(v))
  {
    SumNonNegative(v);
    var c := Sum(v);
    if c != 0.0 {
      forall t | 0 <= t < |v| ensures Scale(v, c)[t] >= 0.0 {
        assert Scale(v, c)[t] == v[t] / c;
        DivSign(v[t], c);
      }
    }
  }

  /** A normalised posterior is non-negative, and sums to 1 unless the
      person's marginal likelihood vanished. */
  lemma PosteriorShape(s: Setup, p: int)
    requires s.Valid() && 0 <= p < s.resp.Persons()
    requires UnitTraces(s.itrace) && NonNegative(s.priors[s.pgroup[p]])
    ensures NonNegative(Posterior(s, p))
    ensures Sum(Unnormalized(s, p)) != 0.0 ==> Sum(Posterior(s, p)) == 1.0
  {
    var v := Unnormalized(s, p);
    LikelihoodSign(s.priors[s.pgroup[p]], s.itrace, s.resp, s.resp.pcni[p], s.resp.pcni[p + 1]);
    NormalizeNonNegative(v);
    if Sum(v) != 0.0 {
      NormalizeSumsToOne(v);
    }
  }

  /** Normalisation alone: a person with nonzero mass has a posterior
      summing to 1 (`posterior / sp`). */
  lemma PosteriorSumsToOne(s: Setup, p: int)
    requires s.Valid() && 0 <= p < s.resp.Persons() && Sum(Unnormalized(s, p)) != 0.0
    ensures Sum(Posterior(s, p)) == 1.0
  {
    NormalizeSumsToOne(Unnormalized(s, p));
  }

  lemma AllPosteriorsSumToOne(s: Setup)
    requires s.Valid() && Massive(s, s.resp.Persons())
    ensures forall q :: 0 <= q < s.resp.Persons() ==> |Posteriors(s)[q]| == s.nt && Sum(Posteriors(s)[q]) == 1.0
  {
    forall q | 0 <= q < s.resp.Persons() ensures Sum(Posteriors(s)[q]) == 1.0 {
      PosteriorSumsToOne(s, q);
    }
  }

  // ---------------------------------------------------------------------
  // Conservation: r0 and r1 together hold one unit of mass per response.
  // ---------------------------------------------------------------------

  /** Cell (t, i) of `r0 + r1` contributed by entries `lo .. hi`. */
  function PersonCell(r: Responses, post: Vec, lo: int, hi: int, i: int, t: int): real
    requires |r.pi| == |r.px| && 0 <= lo <= hi <= |r.pi|
  {
    PersonScatter(r, post, lo, hi, 0, i, t) + PersonScatter(r, post, lo, hi, 1, i, t)
  }

  function PersonColumn(r: Responses, post: Vec, lo: int, hi: int, i: int, nt: int): real
    requires |r.pi| == |r.px| && 0 <= lo <= hi <= |r.pi|
  {
    SumF(t => PersonCell(r, post, lo, hi, i, t), nt)
  }

  function PersonTotal(r: Responses, post: Vec, lo: int, hi: int, nit: int, nt: int): real
    requires |r.pi| == |r.px| && 0 <= lo <= hi <= |r.pi|
  {
    SumF(i => PersonColumn(r, post, lo, hi, i, nt), nit)
  }

  /** Each response entry adds the whole posterior exactly once, to one
      column of one of the two matrices. */
  lemma {:induction false} PersonTotalIsCount(r: Responses, post: Vec, lo: int, hi: int, nit: int, nt: int)
    requires |r.pi| == |r.px| && 0 <= lo <= hi <= |r.pi| && |post| == nt
    requires forall k :: lo <= k < hi ==> 0 <= r.pi[k] < nit
    ensures PersonTotal(r, post, lo, hi, nit, nt) == (hi - lo) as real * Sum(post)
    decreases hi - lo
  {
    if hi == lo {
      PersonTotalEmpty(r, post, lo, nit, nt);
    } else {
      PersonTotalIsCount(r, post, lo, hi - 1, nit, nt);
      PersonTotalStep(r, post, lo, hi - 1, nit, nt);
      AddOnce((hi - 1 - lo) as real, (hi - lo) as real, Sum(post));
    }
  }

  lemma PersonTotalEmpty(r: Responses, post: Vec, lo: int, nit: int, nt: int)
    requires |r.pi| == |r.px| && 0 <= lo <= |r.pi|
    ensures PersonTotal(r, post, lo, lo, nit, nt) == 0.0
  {
    forall i | 0 <= i < nit ensures PersonColumn(r, post, lo, lo, i, nt) == 0.0 {
      SumFZero(t => PersonCell(r, post, lo, lo, i, t), nt);
    }
    SumFZero(i => PersonColumn(r, post, lo, lo, i, nt), nit);
  }

  /** Entry `k` adds `sum(post)` to the total. */
  lemma PersonTotalStep(r: Responses, post: Vec, lo: int, k: int, nit: int, nt: int)
    requires |r.pi| == |r.px| && 0 <= lo <= k < |r.pi| && |post| == nt && 0 <= r.pi[k] < nit
    ensures PersonTotal(r, post, lo, k + 1, nit, nt) == PersonTotal(r, post, lo, k, nit, nt) + Sum(post)
  {
    var j := r.pi[k];
    forall i | 0 <= i < nit
      ensures PersonColumn(r, post, lo, k + 1, i, nt)
              == PersonColumn(r, post, lo, k, i, nt) + (if i == j then Sum(post) else 0.0)
    {
      PersonColumnStep(r, post, lo, k, i, nt);
    }
    SumFAdd(i => PersonColumn(r, post, lo, k, i, nt), i => if i == j then Sum(post) else 0.0,
            i => PersonColumn(r, post, lo, k + 1, i, nt), nit);
    SumFPoint(i => if i == j then Sum(post) else 0.0, j, Sum(post), nit);
  }

  /** Entry `k` adds the posterior to column `pi[k]` and nothing elsewhere. */
  lemma PersonColumnStep(r: Responses, post: Vec, lo: int, k: int, i: int, nt: int)
    requires |r.pi| == |r.px| && 0 <= lo <= k < |r.pi| && |post| == nt
    ensures PersonColumn(r, post, lo, k + 1, i, nt)
            == PersonColumn(r, post, lo, k, i, nt) + (if i == r.pi[k] then Sum(post) else 0.0)
  {
    var j := r.pi[k];
    forall t | 0 <= t < nt
      ensures PersonCell(r, post, lo, k + 1, i, t)
              == PersonCell(r, post, lo, k, i, t) + (if i == j then At(post, t) else 0.0)
    {
      PersonCellStep(r, post, lo, k, i, t);
    }
    SumFAdd(t => PersonCell(r, post, lo, k, i, t), t => if i == j then At(post, t) else 0.0,
            t => PersonCell(r, post, lo, k + 1, i, t), nt);
    if i == j {
      SumAsSumF(post);
      SumFExt(t => if i == j then At(post, t) else 0.0, t => At(post, t), nt);
    } else {
      SumFZero(t => if i == j then At(post, t) else 0.0, nt);
    }
  }

  /** Entry `k` lands in exactly one of `r0` and `r1`. */
  lemma PersonCellStep(r: Responses, post: Vec, lo: int, k: int, i: int, t: int)
    requires |r.pi| == |r.px| && 0 <= lo <= k < |r.pi|
    ensures PersonCell(r, post, lo, k + 1, i, t)
            == PersonCell(r, post, lo, k, i, t) + (if i == r.pi[k] then At(post, t) else 0.0)
  {
    assert PersonScatter(r, post, lo, k + 1, 0, i, t)
           == PersonScatter(r, post, lo, k, 0, i, t)
              + (if r.pi[k] == i && Category(r.px[k]) == 0 then At(post, t) else 0.0);
    assert PersonScatter(r, post, lo, k + 1, 1, i, t)
           == PersonScatter(r, post, lo, k, 1, i, t)
              + (if r.pi[k] == i && Category(r.px[k]) == 1 then At(post, t) else 0.0);
  }

  /** Cell (t, i) of `r0 + r1` after the first `n` persons. */
  function CellTotal(r: Responses, posts: seq<Vec>, n: int, i: int, t: int): real
    requires r.Ranges() && 0 <= n <= r.Persons() && n <= |posts|
  {
    Scattered(r, posts, n, 0, i, t) + Scattered(r, posts, n, 1, i, t)
  }

  function ColumnTotal(r: Responses, posts: seq<Vec>, n: int, i: int, nt: int): real
    requires r.Ranges() && 0 <= n <= r.Persons() && n <= |posts|
  {
    SumF(t => CellTotal(r, posts, n, i, t), nt)
  }

  function MatrixTotal(r: Responses, posts: seq<Vec>, n: int, nit: int, nt: int): real
    requires r.Ranges() && 0 <= n <= r.Persons() && n <= |posts|
  {
    SumF(i => ColumnTotal(r, posts, n, i, nt), nit)
  }

  lemma {:induction false} MatrixTotalIsCount(r: Responses, posts: seq<Vec>, n: int, nit: int, nt: int)
    requires r.Valid(nit) && 0 <= n <= r.Persons() && n <= |posts|
    requires forall q :: 0 <= q < n ==> |posts[q]| == nt && Sum(posts[q]) == 1.0
    ensures MatrixTotal(r, posts, n, nit, nt) == r.NumResponses(n) as real
    decreases n
  {
    if n == 0 {
      forall i | 0 <= i < nit ensures ColumnTotal(r, posts, 0, i, nt) == 0.0 {
        SumFZero(t => CellTotal(r, posts, 0, i, t), nt);
      }
      SumFZero(i => ColumnTotal(r, posts, 0, i, nt), nit);
    } else {
      var q := n - 1;
      var lo, hi := r.pcni[q], r.pcni[n];
      MatrixTotalIsCount(r, posts, q, nit, nt);
      forall i | 0 <= i < nit
        ensures ColumnTotal(r, posts, n, i, nt)
                == ColumnTotal(r, posts, q, i, nt) + PersonColumn(r, posts[q], lo, hi, i, nt)
      {
        SumFAdd(t => CellTotal(r, posts, q, i, t), t => PersonCell(r, posts[q], lo, hi, i, t),
                t => CellTotal(r, posts, n, i, t), nt);
      }
      SumFAdd(i => ColumnTotal(r, posts, q, i, nt), i => PersonColumn(r, posts[q], lo, hi, i, nt),
              i => ColumnTotal(r, posts, n, i, nt), nit);
      PersonTotalIsCount(r, posts[q], lo, hi, nit, nt);
    }
  }

  /** Total over a list of columns. */
  function TotalOf(cols: seq<Vec>): real
  {
    SumF(i => if 0 <= i < |cols| then Sum(cols[i]) else 0.0, |cols|)
  }

  /** The total mass of `r0` plus `r1` is the number of responses,
      `pcni[np] - pcni[0]`. */
  lemma TotalMassIsResponseCount(m: Math, a: Vec, b: Vec, r: Responses, theta: Vec,
                                 mu: Vec, sigma: Vec, pgroup: seq<int>)
    requires Inputs(m, a, b, r, theta, mu, sigma, pgroup)
    requires EStepSpec(m, a, b, r, theta, mu, sigma, pgroup).Some?
    ensures var e := EStepSpec(m, a, b, r, theta, mu, sigma, pgroup).value;
            TotalOf(e.r0) + TotalOf(e.r1) == (r.pcni[r.Persons()] - r.pcni[0]) as real
  {
    EStepSpecUnfold(m, a, b, r, theta, mu, sigma, pgroup);
    var e := EStepSpec(m, a, b, r, theta, mu, sigma, pgroup).value;
    var s := SetupOf(m, a, b, r, theta, GroupPriors(m, mu, sigma, theta).value, pgroup);
    var posts := Posteriors(s);
    var np, nit, nt := r.Persons(), |a|, |theta|;
    AllPosteriorsSumToOne(s);
    forall i | 0 <= i < nit
      ensures Sum(e.r0[i]) + Sum(e.r1[i]) == ColumnTotal(r, posts, np, i, nt)
    {
      SumAsSumF(e.r0[i]);
      SumAsSumF(e.r1[i]);
      SumFExt(t => At(e.r0[i], t), t => Scattered(r, posts, np, 0, i, t), nt);
      SumFExt(t => At(e.r1[i], t), t => Scattered(r, posts, np, 1, i, t), nt);
      SumFAdd(t => Scattered(r, posts, np, 0, i, t), t => Scattered(r, posts, np, 1, i, t),
              t => CellTotal(r, posts, np, i, t), nt);
    }
    SumFAdd(i => if 0 <= i < |e.r0| then Sum(e.r0[i]) else 0.0, i => if 0 <= i < |e.r1| then Sum(e.r1[i]) else 0.0,
            i => ColumnTotal(r, posts, np, i, nt), nit);
    MatrixTotalIsCount(r, posts, np, nit, nt);
    NumResponsesSpan(r, np);
  }

  // ---------------------------------------------------------------------
  // Posterior means lie on the grid's span.
  // ---------------------------------------------------------------------

  /** With a monotone CDF per group and an increasing grid, every
      `thetabar[p]` lies between the first and the last node. */
  lemma MeansWithinGrid(m: Math, a: Vec, b: Vec, r: Responses, theta: Vec,
                        mu: Vec, sigma: Vec, pgroup: seq<int>)
    requires Inputs(m, a, b, r, theta, mu, sigma, pgroup) && Increasing(theta)
    requires forall g :: 0 <= g < |mu| ==> CdfMonotone(m, mu[g], sigma[g])
    requires EStepSpec(m, a, b, r, theta, mu, sigma, pgroup).Some?
    ensures var e := EStepSpec(m, a, b, r, theta, mu, sigma, pgroup).value;
            forall p :: 0 <= p < r.Persons() ==> theta[0] <= e.thetabar[p] <= theta[|theta| - 1]
  {
    EStepSpecUnfold(m, a, b, r, theta, mu, sigma, pgroup);
    var e := EStepSpec(m, a, b, r, theta, mu, sigma, pgroup).value;
    var pri := GroupPriors(m, mu, sigma, theta).value;
    var s := SetupOf(m, a, b, r, theta, pri, pgroup);
    var lo, hi := theta[0], theta[|theta| - 1];
    TracesInUnit(m, a, b, theta);
    forall p | 0 <= p < r.Persons() ensures lo <= e.thetabar[p] <= hi {
      WeightsNonNegative(m, mu[pgroup[p]], sigma[pgroup[p]], theta);
      MeanWithinGrid(s, theta, p);
    }
  }

  lemma IncreasingBounds(theta: Vec)
    requires |theta| >= 1 && Increasing(theta)
    ensures forall t :: 0 <= t < |theta| ==> theta[0] <= theta[t] <= theta[|theta| - 1]
  {
  }

  /** One person's posterior mean lies between the first and last node. */
  lemma MeanWithinGrid(s: Setup, theta: Vec, p: int)
    requires s.Valid() && s.nt == |theta| >= 1 && Increasing(theta) && 0 <= p < s.resp.Persons()
    requires UnitTraces(s.itrace) && NonNegative(s.priors[s.pgroup[p]]) && Sum(Unnormalized(s, p)) != 0.0
    ensures theta[0] <= Dot(Posterior(s, p), theta) <= theta[|theta| - 1]
  {
    var post := Posterior(s, p);
    PosteriorShape(s, p);
    IncreasingBounds(theta);
    DotBounds(post, theta, theta[0], theta[|theta| - 1]);
  }

  // ---------------------------------------------------------------------
  // Group sums.
  // ---------------------------------------------------------------------

  /** The entries of `v` among the first `n` that belong to group `g`. */
  function GroupSum(v: Vec, pgroup: seq<int>, n: int, g: int): real
    requires 0 <= n <= |v| && n <= |pgroup|
  {
    if n == 0 then 0.0 else GroupSum(v, pgroup, n - 1, g) + (if pgroup[n - 1] == g then v[n - 1] else 0.0)
  }

  lemma {:induction false} ThetaSumOfMeans(posts: seq<Vec>, theta: Vec, pgroup: seq<int>, n: int, g: int, means: Vec)
    requires 0 <= n <= |posts| && n <= |pgroup| && n <= |means|
    requires forall q :: 0 <= q < n ==> |posts[q]| == |theta| && means[q] == Dot(posts[q], theta)
    ensures GroupThetaSum(posts, theta, pgroup, n, g) == GroupSum(means, pgroup, n, g)
    decreases n
  {
    if n > 0 {
      ThetaSumOfMeans(posts, theta, pgroup, n - 1, g, means);
    }
  }

  /** `sumtheta[g]` is the sum of `thetabar[p]` over the persons of group g. */
  lemma SumThetaIsGroupSumOfMeans(m: Math, a: Vec, b: Vec, r: Responses, theta: Vec,
                                  mu: Vec, sigma: Vec, pgroup: seq<int>)
    requires Inputs(m, a, b, r, theta, mu, sigma, pgroup)
    requires EStepSpec(m, a, b, r, theta, mu, sigma, pgroup).Some?
    ensures var e := EStepSpec(m, a, b, r, theta, mu, sigma, pgroup).value;
            forall g :: 0 <= g < |mu| ==> e.sumTheta[g] == GroupSum(e.thetabar, pgroup, r.Persons(), g)
  {
    EStepSpecUnfold(m, a, b, r, theta, mu, sigma, pgroup);
    var e := EStepSpec(m, a, b, r, theta, mu, sigma, pgroup).value;
    var s := SetupOf(m, a, b, r, theta, GroupPriors(m, mu, sigma, theta).value, pgroup);
    forall g | 0 <= g < |mu| ensures e.sumTheta[g] == GroupSum(e.thetabar, pgroup, r.Persons(), g) {
      ThetaSumOfMeans(Posteriors(s), theta, pgroup, r.Persons(), g, e.thetabar);
    }
  }

  lemma {:induction false} GroupMassIsCount(posts: seq<Vec>, pgroup: seq<int>, n: int, g: int, nt: int)
    requires 0 <= n <= |posts| && n <= |pgroup|
    requires forall q :: 0 <= q < n ==> |posts[q]| == nt && Sum(posts[q]) == 1.0
    ensures SumF(t => GroupMass(posts, pgroup, n, g, t), nt) == GroupCount(pgroup, n, g) as real
    decreases n
  {
    if n == 0 {
      SumFZero(t => GroupMass(posts, pgroup, n, g, t), nt);
    } else {
      var q := n - 1;
      GroupMassIsCount(posts, pgroup, q, g, nt);
      var f := t => if pgroup[q] == g then At(posts[q], t) else 0.0;
      SumFAdd(t => GroupMass(posts, pgroup, q, g, t), f, t => GroupMass(posts, pgroup, n, g, t), nt);
      if pgroup[q] == g {
        SumAsSumF(posts[q]);
        SumFExt(f, t => At(posts[q], t), nt);
      } else {
        SumFZero(f, nt);
      }
    }
  }

  /** Column g of `sigma2` carries one unit of mass per person of group g. */
  lemma GroupMassIsGroupSize(s: Setup, g: int)
    requires s.Valid() && Massive(s, s.resp.Persons())
    ensures SumF(t => GroupMass(Posteriors(s), s.pgroup, s.resp.Persons(), g, t), s.nt)
            == GroupCount(s.pgroup, s.resp.Persons(), g) as real
  {
    AllPosteriorsSumToOne(s);
    GroupMassIsCount(Posteriors(s), s.pgroup, s.resp.Persons(), g, s.nt);
  }

  // ---------------------------------------------------------------------
  // When the E-step is defined.
  // ---------------------------------------------------------------------

  /** With strictly increasing CDFs (every sd > 0) and an increasing grid
      no prior and no person's marginal likelihood vanishes, so the E-step
      never reports the degenerate case. */
  lemma EStepDefined(m: Math, a: Vec, b: Vec, r: Responses, theta: Vec,
                     mu: Vec, sigma: Vec, pgroup: seq<int>)
    requires Inputs(m, a, b, r, theta, mu, sigma, pgroup) && Increasing(theta)
    requires forall g :: 0 <= g < |mu| ==> CdfStrictlyMonotone(m, mu[g], sigma[g])
    ensures EStepSpec(m, a, b, r, theta, mu, sigma, pgroup).Some?
  {
    forall g | 0 <= g < |mu| ensures GaussianWeights(m, mu[g], sigma[g], theta).Some? {
      WeightsDefined(m, mu[g], sigma[g], theta);
    }
    EStepSpecUnfold(m, a, b, r, theta, mu, sigma, pgroup);
    var pri := GroupPriors(m, mu, sigma, theta).value;
    var s := SetupOf(m, a, b, r, theta, pri, pgroup);
    TracesInUnit(m, a, b, theta);
    forall p | 0 <= p < r.Persons() ensures Sum(Unnormalized(s, p)) != 0.0 {
      var g := pgroup[p];
      WeightsDefined(m, mu[g], sigma[g], theta);
      LikelihoodSign(pri[g], s.itrace, r, r.pcni[p], r.pcni[p + 1]);
      PositiveSum(Unnormalized(s, p));
    }
  }
}
