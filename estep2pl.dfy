/** The 2PL E-step over the sparse response store
    (`estep_2pl_dich`, both overloads, and `LL_2pl_dich`). */
module EStep2PL {
  import opened Common
  import opened Quadrature
  import opened Responses

  // ---------------------------------------------------------------------
  // Specification: item traces, posteriors and accumulated statistics.
  // ---------------------------------------------------------------------

  /** Column `i` of `itrace`: P(correct) = 1/(1+exp(-a(theta-b))) per node. */
  function ItemTrace(m: Math, a: real, b: real, theta: Vec): (tr: Vec)
    requires m.ExpPositive()
    ensures |tr| == |theta|
  {
    seq(|theta|, t requires 0 <= t < |theta| => 1.0 / (1.0 + m.exp(-a * (theta[t] - b))))
  }

  function Traces(m: Math, a: Vec, b: Vec, theta: Vec): (itrace: seq<Vec>)
    requires m.ExpPositive() && |a| == |b|
    ensures |itrace| == |a| && forall i :: 0 <= i < |a| ==> |itrace[i]| == |theta|
  {
    seq(|a|, i requires 0 <= i < |a| => ItemTrace(m, a[i], b[i], theta))
  }

  /** `1 - tr`, the trace of an incorrect response. */
  function Complement(tr: Vec): (c: Vec)
    ensures |c| == |tr|
  {
    seq(|tr|, t requires 0 <= t < |tr| => 1.0 - tr[t])
  }

  /** The factor response `x` contributes: the trace when `x == 1`,
      its complement for any other value. */
  function Factor(tr: Vec, x: int): (f: Vec)
    ensures |f| == |tr|
  {
    if x == 1 then tr else Complement(tr)
  }

  /** The matrix `r1` receives responses equal to 1, `r0` all others. */
  function Category(x: int): int
  {
    if x == 1 then 1 else 0
  }

  ghost predicate TracesFit(itrace: seq<Vec>, nt: int)
  {
    forall i :: 0 <= i < |itrace| ==> |itrace[i]| == nt
  }

  /** The prior multiplied elementwise by the factors of entries `lo .. hi`. */
  function Likelihood(prior: Vec, itrace: seq<Vec>, r: Responses, lo: int, hi: int): (v: Vec)
    requires r.Valid(|itrace|) && TracesFit(itrace, |prior|)
    requires 0 <= lo <= hi <= |r.pi|
    ensures |v| == |prior|
    decreases hi - lo
  {
    if hi == lo then prior
    else Hadamard(Likelihood(prior, itrace, r, lo, hi - 1), Factor(itrace[r.pi[hi - 1]], r.px[hi - 1]))
  }

  /** Everything one E-step reads: the number of nodes, one prior column per
      group, one trace column per item, the responses and the group labels. */
  datatype Setup = Setup(nt: int, priors: seq<Vec>, itrace: seq<Vec>, resp: Responses, pgroup: seq<int>)
  {
    ghost predicate Valid()
    {
      (forall g :: 0 <= g < |priors| ==> |priors[g]| == nt)
      && TracesFit(itrace, nt)
      && resp.Valid(|itrace|)
      && ValidGroups(pgroup, resp.Persons(), |priors|)
    }
  }

  /** Person `p`'s posterior before normalisation; its sum `sp` is the
      person's marginal likelihood. */
  function Unnormalized(s: Setup, p: int): (v: Vec)
    requires s.Valid() && 0 <= p < s.resp.Persons()
    ensures |v| == s.nt
  {
    Likelihood(s.priors[s.pgroup[p]], s.itrace, s.resp, s.resp.pcni[p], s.resp.pcni[p + 1])
  }

  /** `v / accu(v)`; a zero total is the degenerate case the E-step
      reports, where the vector is left as it is. */
  function Normalize(v: Vec): (r: Vec)
    ensures |r| == |v|
  {
    if Sum(v) == 0.0 then v else Scale(v, Sum(v))
  }

  function Posterior(s: Setup, p: int): (v: Vec)
    requires s.Valid() && 0 <= p < s.resp.Persons()
    ensures |v| == s.nt
  {
    Normalize(Unnormalized(s, p))
  }

  function Posteriors(s: Setup): (posts: seq<Vec>)
    requires s.Valid()
    ensures |posts| == s.resp.Persons()
    ensures forall p :: 0 <= p < |posts| ==> posts[p] == Posterior(s, p)
  {
    seq(s.resp.Persons(), p requires 0 <= p < s.resp.Persons() => Posterior(s, p))
  }

  /** No person's marginal likelihood vanishes among the first `n`. */
  ghost predicate Massive(s: Setup, n: int)
    requires s.Valid() && n <= s.resp.Persons()
  {
    forall p :: 0 <= p < n ==> Sum(Unnormalized(s, p)) != 0.0
  }

  lemma MassiveStep(s: Setup, n: int)
    requires s.Valid() && 0 <= n < s.resp.Persons()
    requires Massive(s, n) && Sum(Unnormalized(s, n)) != 0.0
    ensures Massive(s, n + 1)
  {
  }

  /** What entries `lo .. hi` of one person add to cell (t, i) of `r0`
      (c == 0) or `r1` (c == 1). */
  function PersonScatter(r: Responses, post: Vec, lo: int, hi: int, c: int, i: int, t: int): real
    requires |r.pi| == |r.px| && 0 <= lo <= hi <= |r.pi|
    decreases hi - lo
  {
    if hi == lo then 0.0
    else PersonScatter(r, post, lo, hi - 1, c, i, t)
         + (if r.pi[hi - 1] == i && Category(r.px[hi - 1]) == c then At(post, t) else 0.0)
  }

  /** Cell (t, i) of `r0`/`r1` once the first `n` persons are scattered. */
  function Scattered(r: Responses, posts: seq<Vec>, n: int, c: int, i: int, t: int): real
    requires r.Ranges() && 0 <= n <= r.Persons() && n <= |posts|
  {
    if n == 0 then 0.0
    else Scattered(r, posts, n - 1, c, i, t) + PersonScatter(r, posts[n - 1], r.pcni[n - 1], r.pcni[n], c, i, t)
  }

  /** Cell (t, g) of `sigma2`: the posterior mass at node t summed over the
      first `n` persons of group g. */
  function GroupMass(posts: seq<Vec>, pgroup: seq<int>, n: int, g: int, t: int): real
    requires 0 <= n <= |posts| && n <= |pgroup|
  {
    if n == 0 then 0.0
    else GroupMass(posts, pgroup, n - 1, g, t) + (if pgroup[n - 1] == g then At(posts[n - 1], t) else 0.0)
  }

  /** `sumtheta[g]`: the posterior means of the first `n` persons of group g. */
  function GroupThetaSum(posts: seq<Vec>, theta: Vec, pgroup: seq<int>, n: int, g: int): real
    requires 0 <= n <= |posts| && n <= |pgroup|
    requires forall q :: 0 <= q < n ==> |posts[q]| == |theta|
  {
    if n == 0 then 0.0
    else GroupThetaSum(posts, theta, pgroup, n - 1, g) + (if pgroup[n - 1] == g then Dot(posts[n - 1], theta) else 0.0)
  }

  /** The Bock-Aitkin log-likelihood of the first `n` persons: the sum of
      log(sp), without the omitted constant. */
  function LogLik(m: Math, s: Setup, n: int): real
    requires s.Valid() && 0 <= n <= s.resp.Persons()
  {
    if n == 0 then 0.0 else LogLik(m, s, n - 1) + m.log(Sum(Unnormalized(s, n - 1)))
  }

  function Squares(theta: Vec): (sq: Vec)
    ensures |sq| == |theta|
  {
    seq(|theta|, t requires 0 <= t < |theta| => theta[t] * theta[t])
  }

  /** The prior column of every group, or None when one of them is
      degenerate. */
  function GroupPriors(m: Math, mu: Vec, sigma: Vec, theta: Vec): (pri: Option<seq<Vec>>)
    requires |theta| >= 2 && |mu| == |sigma|
    ensures pri.Some? ==> |pri.value| == |mu| && forall g :: 0 <= g < |mu| ==> |pri.value[g]| == |theta|
  {
    if forall g :: 0 <= g < |mu| ==> GaussianWeights(m, mu[g], sigma[g], theta).Some?
    then
      var pri := seq(|mu|, g requires 0 <= g < |mu| => GaussianWeights(m, mu[g], sigma[g], theta).value);
      assert forall g :: 0 <= g < |mu| ==> |pri[g]| == |theta| by {
        forall g | 0 <= g < |mu| {
          WeightsSumToOne(m, mu[g], sigma[g], theta);
        }
      }
      Some(pri)
    else None
  }

  /** The results of one E-step: `r0` and `r1` by column (item), the
      posterior means, the per-group sums and the log-likelihood. */
  datatype EStepOut = EStepOut(r0: seq<Vec>, r1: seq<Vec>, thetabar: Vec,
                               sumTheta: Vec, sumSig2: Vec, ll: real)

  ghost predicate Inputs(m: Math, a: Vec, b: Vec, r: Responses, theta: Vec,
                         mu: Vec, sigma: Vec, pgroup: seq<int>)
  {
    m.ExpPositive() && |theta| >= 2 && |a| == |b| && |mu| == |sigma|
    && r.Valid(|a|) && ValidGroups(pgroup, r.Persons(), |mu|)
  }

  /** The setup an E-step works on, once the priors are known. */
  function SetupOf(m: Math, a: Vec, b: Vec, r: Responses, theta: Vec,
                   pri: seq<Vec>, pgroup: seq<int>): (s: Setup)
    requires m.ExpPositive() && |a| == |b| && r.Valid(|a|)
    requires ValidGroups(pgroup, r.Persons(), |pri|)
    requires forall g :: 0 <= g < |pri| ==> |pri[g]| == |theta|
    ensures s.Valid() && s.nt == |theta| && s.resp == r && s.pgroup == pgroup && s.priors == pri
  {
    Setup(|theta|, pri, Traces(m, a, b, theta), r, pgroup)
  }

  /** What the multigroup E-step computes, or None when a prior or a
      person's marginal likelihood degenerates (NaN in the source). */
  ghost function EStepSpec(m: Math, a: Vec, b: Vec, r: Responses, theta: Vec,
                     mu: Vec, sigma: Vec, pgroup: seq<int>): (e: Option<EStepOut>)
    requires Inputs(m, a, b, r, theta, mu, sigma, pgroup)
    ensures e.Some? ==> |e.value.r0| == |e.value.r1| == |a|
                        && (forall i :: 0 <= i < |a| ==> |e.value.r0[i]| == |e.value.r1[i]| == |theta|)
                        && |e.value.thetabar| == r.Persons()
                        && |e.value.sumTheta| == |e.value.sumSig2| == |mu|
  {
    var pri := GroupPriors(m, mu, sigma, theta);
    if pri.None? then None
    else
      var s := SetupOf(m, a, b, r, theta, pri.value, pgroup);
      var np, nt, nit, ng := r.Persons(), |theta|, |a|, |mu|;
      if !Massive(s, np) then None
      else
        var posts := Posteriors(s);
        Some(EStepOut(
          seq(nit, i => seq(nt, t => Scattered(r, posts, np, 0, i, t))),
          seq(nit, i => seq(nt, t => Scattered(r, posts, np, 1, i, t))),
          seq(np, p requires 0 <= p < np => Dot(posts[p], theta)),
          seq(ng, g => GroupThetaSum(posts, theta, pgroup, np, g)),
          seq(ng, g => Dot(seq(nt, t => GroupMass(posts, pgroup, np, g, t)), Squares(theta))),
          LogLik(m, s, np)))
  }

  /** Every person in group 0: the single-group E-step. */
  function SingleGroup(np: int): (pgroup: seq<int>)
    requires np >= 0
    ensures ValidGroups(pgroup, np, 1)
  {
    seq(np, p => 0)
  }

  // ---------------------------------------------------------------------
  // The E-step as the source runs it: in-place updates of caller buffers.
  // ---------------------------------------------------------------------

  /** Column `j` of a matrix. */
  function Column(mat: array2<real>, j: int): (v: Vec)
    reads mat
    requires 0 <= j < mat.Length1
    ensures |v| == mat.Length0 && forall t :: 0 <= t < mat.Length0 ==> v[t] == mat[t, j]
  {
    seq(mat.Length0, t requires 0 <= t < mat.Length0 reads mat => mat[t, j])
  }

  /** `posterior0.col(g) = gaussian_pts(mu[g], sigma[g], theta)` for every group. */
  method ComputePriors(m: Math, mu: Vec, sigma: Vec, theta: Vec) returns (pri: Option<seq<Vec>>)
    requires |theta| >= 2 && |mu| == |sigma|
    ensures pri == GroupPriors(m, mu, sigma, theta)
  {
    var cols: seq<Vec> := [];
    for g := 0 to |mu|
      invariant |cols| == g
      invariant forall h :: 0 <= h < g ==> Some(cols[h]) == GaussianWeights(m, mu[h], sigma[h], theta)
    {
      var w := GaussianPts(m, mu[g], sigma[g], theta);
      if w.None? {
        PriorsFail(m, mu, sigma, theta, g);
        return None;
      }
      cols := cols + [w.value];
    }
    PriorsAre(m, mu, sigma, theta, cols);
    return Some(cols);
  }

  /** One group's undefined weights leave every prior undefined. */
  lemma PriorsFail(m: Math, mu: Vec, sigma: Vec, theta: Vec, g: int)
    requires |theta| >= 2 && |mu| == |sigma| && 0 <= g < |mu|
    requires GaussianWeights(m, mu[g], sigma[g], theta).None?
    ensures GroupPriors(m, mu, sigma, theta).None?
  {
  }

  /** Every group's weights, in group order, are the priors. */
  lemma PriorsAre(m: Math, mu: Vec, sigma: Vec, theta: Vec, cols: seq<Vec>)
    requires |theta| >= 2 && |mu| == |sigma| == |cols|
    requires forall h :: 0 <= h < |cols| ==> Some(cols[h]) == GaussianWeights(m, mu[h], sigma[h], theta)
    ensures GroupPriors(m, mu, sigma, theta) == Some(cols)
  {
    assert cols == seq(|mu|, g requires 0 <= g < |mu| => GaussianWeights(m, mu[g], sigma[g], theta).value);
  }

  /** `mat.zeros()`. */
  method ZeroMatrix(mat: array2<real>)
    modifies mat
    ensures forall t, i :: 0 <= t < mat.Length0 && 0 <= i < mat.Length1 ==> mat[t, i] == 0.0
  {
    for t := 0 to mat.Length0
      invariant forall t', i :: 0 <= t' < t && 0 <= i < mat.Length1 ==> mat[t', i] == 0.0
    {
      for i := 0 to mat.Length1
        invariant forall t', i' :: 0 <= t' < t && 0 <= i' < mat.Length1 ==> mat[t', i'] == 0.0
        invariant forall i' :: 0 <= i' < i ==> mat[t, i'] == 0.0
      {
        mat[t, i] := 0.0;
      }
    }
  }

  /** `v.zeros()`. */
  method ZeroVector(v: array<real>)
    modifies v
    ensures forall k :: 0 <= k < v.Length ==> v[k] == 0.0
  {
    for k := 0 to v.Length
      invariant forall k' :: 0 <= k' < k ==> v[k'] == 0.0
    {
      v[k] := 0.0;
    }
  }

  /** `mat.col(j) += v`: column j gains v, every other column is unchanged. */
  method AddColumn(mat: array2<real>, j: int, v: Vec)
    requires mat.Length0 == |v| && 0 <= j < mat.Length1
    modifies mat
    ensures forall t, i :: 0 <= t < mat.Length0 && 0 <= i < mat.Length1 ==>
              mat[t, i] == old(mat[t, i]) + (if i == j then v[t] else 0.0)
  {
    for t := 0 to |v|
      invariant forall t', i :: 0 <= t' < mat.Length0 && 0 <= i < mat.Length1 ==>
                  mat[t', i] == old(mat[t', i]) + (if i == j && t' < t then v[t'] else 0.0)
    {
      mat[t, j] := mat[t, j] + v[t];
    }
  }

  /** `v += w`. */
  method AddVector(v: array<real>, w: Vec)
    requires v.Length == |w|
    modifies v
    ensures forall t :: 0 <= t < v.Length ==> v[t] == old(v[t]) + w[t]
  {
    for t := 0 to |w|
      invariant forall t' :: 0 <= t' < t ==> v[t'] == old(v[t']) + w[t']
      invariant forall t' :: t <= t' < v.Length ==> v[t'] == old(v[t'])
    {
      v[t] := v[t] + w[t];
    }
  }

  /** The first response loop of a person: start from the prior and
      multiply by the trace, or its complement, of every answered item. */
  method UnnormalizedPosterior(prior: Vec, itrace: seq<Vec>, r: Responses, p: int) returns (posterior: Vec)
    requires r.Valid(|itrace|) && TracesFit(itrace, |prior|) && 0 <= p < r.Persons()
    ensures posterior == Likelihood(prior, itrace, r, r.pcni[p], r.pcni[p + 1])
  {
    posterior := prior;
    var indx := r.pcni[p];
    while indx < r.pcni[p + 1]
      invariant r.pcni[p] <= indx <= r.pcni[p + 1]
      invariant posterior == Likelihood(prior, itrace, r, r.pcni[p], indx)
    {
      posterior := Hadamard(posterior, Factor(itrace[r.pi[indx]], r.px[indx]));
      indx := indx + 1;
    }
  }

  /** The second response loop of a person: add the posterior to column
      `pi[indx]` of `r1` when `px[indx] == 1`, of `r0` otherwise. */
  method ScatterPerson(r0: array2<real>, r1: array2<real>, r: Responses, p: int, posterior: Vec)
    requires r.Valid(r0.Length1) && 0 <= p < r.Persons() && r0 != r1
    requires r0.Length0 == r1.Length0 == |posterior| && r0.Length1 == r1.Length1
    modifies r0, r1
    ensures forall t, i :: 0 <= t < r0.Length0 && 0 <= i < r0.Length1 ==>
              r0[t, i] == old(r0[t, i]) + PersonScatter(r, posterior, r.pcni[p], r.pcni[p + 1], 0, i, t)
              && r1[t, i] == old(r1[t, i]) + PersonScatter(r, posterior, r.pcni[p], r.pcni[p + 1], 1, i, t)
  {
    var lo := r.pcni[p];
    var indx := lo;
    while indx < r.pcni[p + 1]
      invariant lo <= indx <= r.pcni[p + 1]
      invariant forall t, i :: 0 <= t < r0.Length0 && 0 <= i < r0.Length1 ==>
                  r0[t, i] == old(r0[t, i]) + PersonScatter(r, posterior, lo, indx, 0, i, t)
                  && r1[t, i] == old(r1[t, i]) + PersonScatter(r, posterior, lo, indx, 1, i, t)
    {
      if r.px[indx] == 1 {
        AddColumn(r1, r.pi[indx], posterior);
      } else {
        AddColumn(r0, r.pi[indx], posterior);
      }
      indx := indx + 1;
    }
  }

  /** `r0` and `r1` hold the scatter of the first `n` persons. */
  ghost predicate ItemsScattered(r: Responses, posts: seq<Vec>, n: int, r0: array2<real>, r1: array2<real>)
    reads r0, r1
    requires r.Ranges() && 0 <= n <= r.Persons() && n <= |posts|
    requires r0.Length0 == r1.Length0 && r0.Length1 == r1.Length1
  {
    forall t, i :: 0 <= t < r0.Length0 && 0 <= i < r0.Length1 ==>
      r0[t, i] == Scattered(r, posts, n, 0, i, t) && r1[t, i] == Scattered(r, posts, n, 1, i, t)
  }

  /** `sigma2` and `sumtheta` hold the group sums of the first `n` persons. */
  ghost predicate GroupsAccumulated(posts: seq<Vec>, theta: Vec, pgroup: seq<int>, n: int,
                                    sigma2: array2<real>, sumtheta: array<real>)
    reads sigma2, sumtheta
    requires 0 <= n <= |posts| && n <= |pgroup| && forall q :: 0 <= q < n ==> |posts[q]| == |theta|
  {
    (forall t, g :: 0 <= t < sigma2.Length0 && 0 <= g < sigma2.Length1 ==>
       sigma2[t, g] == GroupMass(posts, pgroup, n, g, t))
    && forall g :: 0 <= g < sumtheta.Length ==> sumtheta[g] == GroupThetaSum(posts, theta, pgroup, n, g)
  }

  /** `thetabar` holds the posterior means of the first `n` persons. */
  ghost predicate MeansRecorded(posts: seq<Vec>, theta: Vec, n: int, thetabar: array<real>)
    reads thetabar
    requires 0 <= n <= |posts| && n <= thetabar.Length && forall q :: 0 <= q < n ==> |posts[q]| == |theta|
  {
    forall q :: 0 <= q < n ==> thetabar[q] == Dot(posts[q], theta)
  }

  /** Scatters person `p`'s normalised posterior into `r0`/`r1`. */
  method ScatterStep(r: Responses, ghost posts: seq<Vec>, p: int, posterior: Vec, r0: array2<real>, r1: array2<real>)
    requires r.Valid(r0.Length1) && 0 <= p < r.Persons() && p < |posts| && posterior == posts[p]
    requires r0 != r1 && r0.Length0 == r1.Length0 == |posterior| && r0.Length1 == r1.Length1
    requires ItemsScattered(r, posts, p, r0, r1)
    modifies r0, r1
    ensures ItemsScattered(r, posts, p + 1, r0, r1)
  {
    ScatterPerson(r0, r1, r, p, posterior);
  }

  /** Records person `p`'s posterior mean and adds it and the posterior to
      the group sums. */
  method GroupStep(ghost posts: seq<Vec>, theta: Vec, pgroup: seq<int>, p: int, posterior: Vec,
                   thetabar: array<real>, sigma2: array2<real>, sumtheta: array<real>)
    requires 0 <= p < |posts| && p < |pgroup| && p < thetabar.Length && posterior == posts[p]
    requires forall q :: 0 <= q <= p ==> |posts[q]| == |theta|
    requires sigma2.Length0 == |theta| && sigma2.Length1 == sumtheta.Length && 0 <= pgroup[p] < sumtheta.Length
    requires thetabar != sumtheta
    requires GroupsAccumulated(posts, theta, pgroup, p, sigma2, sumtheta)
    requires MeansRecorded(posts, theta, p, thetabar)
    modifies thetabar, sigma2, sumtheta
    ensures GroupsAccumulated(posts, theta, pgroup, p + 1, sigma2, sumtheta)
    ensures MeansRecorded(posts, theta, p + 1, thetabar)
  {
    var g := pgroup[p];
    var tb := Dot(posterior, theta);
    thetabar[p] := tb;
    sumtheta[g] := sumtheta[g] + tb;
    AddColumn(sigma2, g, posterior);
  }

  /** `sumsig2[g] = accu(sigma2.col(g) % square(theta))`. */
  method SecondMoments(sigma2: array2<real>, theta: Vec, sumsig2: array<real>)
    requires sigma2.Length0 == |theta| && sigma2.Length1 == sumsig2.Length
    modifies sumsig2
    ensures forall g :: 0 <= g < sumsig2.Length ==> sumsig2[g] == Dot(Column(sigma2, g), Squares(theta))
  {
    for g := 0 to sumsig2.Length
      invariant forall h :: 0 <= h < g ==> sumsig2[h] == Dot(Column(sigma2, h), Squares(theta))
    {
      sumsig2[g] := Dot(Column(sigma2, g), Squares(theta));
    }
  }

  /** How EStepSpec decomposes: the priors, then the person masses, then
      the statistics of the posteriors. */
  lemma EStepSpecUnfold(m: Math, a: Vec, b: Vec, r: Responses, theta: Vec,
                        mu: Vec, sigma: Vec, pgroup: seq<int>)
    requires Inputs(m, a, b, r, theta, mu, sigma, pgroup)
    ensures GroupPriors(m, mu, sigma, theta).None? ==> EStepSpec(m, a, b, r, theta, mu, sigma, pgroup).None?
    ensures GroupPriors(m, mu, sigma, theta).Some? ==>
              var s := SetupOf(m, a, b, r, theta, GroupPriors(m, mu, sigma, theta).value, pgroup);
              var posts := Posteriors(s);
              var np, nt := r.Persons(), |theta|;
              var e := EStepSpec(m, a, b, r, theta, mu, sigma, pgroup);
              (e.Some? <==> Massive(s, np))
              && (e.Some? ==>
                    (forall t, i :: 0 <= t < nt && 0 <= i < |a| ==>
                       e.value.r0[i][t] == Scattered(r, posts, np, 0, i, t)
                       && e.value.r1[i][t] == Scattered(r, posts, np, 1, i, t))
                    && (forall p :: 0 <= p < np ==> e.value.thetabar[p] == Dot(posts[p], theta))
                    && (forall g :: 0 <= g < |mu| ==>
                          e.value.sumTheta[g] == GroupThetaSum(posts, theta, pgroup, np, g)
                          && e.value.sumSig2[g] == Dot(seq(nt, t => GroupMass(posts, pgroup, np, g, t)), Squares(theta)))
                    && e.value.ll == LogLik(m, s, np))
  {
  }

  /** Frame conditions shared by the person loop and its body. */
  ghost predicate PassFrame(s: Setup, theta: Vec, r0: array2<real>, r1: array2<real>,
                            thetabar: array<real>, sigma2: array2<real>, sumtheta: array<real>)
  {
    s.Valid() && s.nt == |theta|
    && r0.Length0 == r1.Length0 == |theta| && r0.Length1 == r1.Length1 == |s.itrace| && r0 != r1
    && sigma2.Length0 == |theta| && sigma2.Length1 == sumtheta.Length == |s.priors|
    && thetabar.Length == s.resp.Persons() && thetabar != sumtheta && sigma2 != r0 && sigma2 != r1
  }

  /** The statistics of the first `n` persons are in place. */
  ghost predicate Accumulated(s: Setup, theta: Vec, n: int, r0: array2<real>, r1: array2<real>,
                              thetabar: array<real>, sigma2: array2<real>, sumtheta: array<real>)
    reads r0, r1, thetabar, sigma2, sumtheta
    requires PassFrame(s, theta, r0, r1, thetabar, sigma2, sumtheta) && 0 <= n <= s.resp.Persons()
  {
    var posts := Posteriors(s);
    ItemsScattered(s.resp, posts, n, r0, r1)
    && GroupsAccumulated(posts, theta, s.pgroup, n, sigma2, sumtheta)
    && MeansRecorded(posts, theta, n, thetabar)
  }

  /** The person loop has handled the first `n` persons: none of them had
      a vanishing marginal likelihood, their statistics are in place and
      `ll` is their log-likelihood. */
  ghost predicate Progress(m: Math, s: Setup, theta: Vec, n: int, ll: real,
                           r0: array2<real>, r1: array2<real>,
                           thetabar: array<real>, sigma2: array2<real>, sumtheta: array<real>)
    reads r0, r1, thetabar, sigma2, sumtheta
  {
    PassFrame(s, theta, r0, r1, thetabar, sigma2, sumtheta) && 0 <= n <= s.resp.Persons()
    && Massive(s, n) && Accumulated(s, theta, n, r0, r1, thetabar, sigma2, sumtheta)
    && ll == LogLik(m, s, n)
  }

  /** One iteration of the person loop: form person `p`'s posterior,
      normalise it and scatter it; `ok` is false when `sp` is zero. */
  method PersonStep(m: Math, s: Setup, theta: Vec, p: int, ll: real, r0: array2<real>, r1: array2<real>,
                    thetabar: array<real>, sigma2: array2<real>, sumtheta: array<real>)
    returns (ll': real, ok: bool)
    requires Progress(m, s, theta, p, ll, r0, r1, thetabar, sigma2, sumtheta) && p < s.resp.Persons()
    modifies r0, r1, thetabar, sigma2, sumtheta
    ensures ok ==> Progress(m, s, theta, p + 1, ll', r0, r1, thetabar, sigma2, sumtheta)
    ensures !ok ==> !Massive(s, s.resp.Persons())
  {
    ghost var posts := Posteriors(s);
    var posterior := UnnormalizedPosterior(s.priors[s.pgroup[p]], s.itrace, s.resp, p);
    assert posterior == Unnormalized(s, p);
    var sp := Sum(posterior);
    if sp == 0.0 {
      return ll, false;
    }
    ll' := ll + m.log(sp);
    posterior := Scale(posterior, sp);
    assert posterior == posts[p];
    GroupStep(posts, theta, s.pgroup, p, posterior, thetabar, sigma2, sumtheta);
    ScatterStep(s.resp, posts, p, posterior, r0, r1);
    MassiveStep(s, p);
    ok := true;
  }

  /** The person loop of the multigroup E-step. `ok` turns false at the
      first person whose marginal likelihood `sp` is zero. */
  method PersonPass(m: Math, s: Setup, theta: Vec, r0: array2<real>, r1: array2<real>,
                    thetabar: array<real>, sigma2: array2<real>, sumtheta: array<real>)
    returns (ll: real, ok: bool)
    requires Progress(m, s, theta, 0, 0.0, r0, r1, thetabar, sigma2, sumtheta)
    modifies r0, r1, thetabar, sigma2, sumtheta
    ensures ok == Massive(s, s.resp.Persons())
    ensures ok ==> Progress(m, s, theta, s.resp.Persons(), ll, r0, r1, thetabar, sigma2, sumtheta)
  {
    var np := s.resp.Persons();
    ll := 0.0;
    var p := 0;
    while p < np
      invariant 0 <= p <= np
      invariant Progress(m, s, theta, p, ll, r0, r1, thetabar, sigma2, sumtheta)
    {
      ll, ok := PersonStep(m, s, theta, p, ll, r0, r1, thetabar, sigma2, sumtheta);
      if !ok {
        return;
      }
      p := p + 1;
    }
    ok := true;
  }

  /** Zeroed buffers are the statistics of no persons. */
  lemma ProgressStart(m: Math, s: Setup, theta: Vec, r0: array2<real>, r1: array2<real>,
                      thetabar: array<real>, sigma2: array2<real>, sumtheta: array<real>)
    requires PassFrame(s, theta, r0, r1, thetabar, sigma2, sumtheta)
    requires forall t, i :: 0 <= t < r0.Length0 && 0 <= i < r0.Length1 ==> r0[t, i] == 0.0 && r1[t, i] == 0.0
    requires forall t, g :: 0 <= t < sigma2.Length0 && 0 <= g < sigma2.Length1 ==> sigma2[t, g] == 0.0
    requires forall g :: 0 <= g < sumtheta.Length ==> sumtheta[g] == 0.0
    ensures Progress(m, s, theta, 0, 0.0, r0, r1, thetabar, sigma2, sumtheta)
  {
  }

  /** At the end of the person loop the buffers hold what EStepSpec says:
      the item matrices and the log-likelihood, ... */
  lemma DoneItems(m: Math, a: Vec, b: Vec, r: Responses, theta: Vec, mu: Vec, sigma: Vec,
                  pgroup: seq<int>, s: Setup, ll: real, r0: array2<real>, r1: array2<real>,
                  thetabar: array<real>, sigma2: array2<real>, sumtheta: array<real>)
    requires Inputs(m, a, b, r, theta, mu, sigma, pgroup)
    requires GroupPriors(m, mu, sigma, theta).Some?
    requires s == SetupOf(m, a, b, r, theta, GroupPriors(m, mu, sigma, theta).value, pgroup)
    requires Progress(m, s, theta, r.Persons(), ll, r0, r1, thetabar, sigma2, sumtheta)
    ensures EStepSpec(m, a, b, r, theta, mu, sigma, pgroup).Some?
    ensures var e := EStepSpec(m, a, b, r, theta, mu, sigma, pgroup).value;
            (forall t, i :: 0 <= t < |theta| && 0 <= i < |a| ==> r0[t, i] == e.r0[i][t] && r1[t, i] == e.r1[i][t])
            && ll == e.ll
  {
    EStepSpecUnfold(m, a, b, r, theta, mu, sigma, pgroup);
  }

  /** ... the person means and group sums of means ... */
  lemma DoneMeans(m: Math, a: Vec, b: Vec, r: Responses, theta: Vec, mu: Vec, sigma: Vec,
                  pgroup: seq<int>, s: Setup, ll: real, r0: array2<real>, r1: array2<real>,
                  thetabar: array<real>, sigma2: array2<real>, sumtheta: array<real>)
    requires Inputs(m, a, b, r, theta, mu, sigma, pgroup)
    requires GroupPriors(m, mu, sigma, theta).Some?
    requires s == SetupOf(m, a, b, r, theta, GroupPriors(m, mu, sigma, theta).value, pgroup)
    requires Progress(m, s, theta, r.Persons(), ll, r0, r1, thetabar, sigma2, sumtheta)
    ensures EStepSpec(m, a, b, r, theta, mu, sigma, pgroup).Some?
    ensures var e := EStepSpec(m, a, b, r, theta, mu, sigma, pgroup).value;
            thetabar[..] == e.thetabar && sumtheta[..] == e.sumTheta
  {
    EStepSpecUnfold(m, a, b, r, theta, mu, sigma, pgroup);
    ghost var e := EStepSpec(m, a, b, r, theta, mu, sigma, pgroup).value;
    assert thetabar[..] == e.thetabar;
    assert sumtheta[..] == e.sumTheta;
  }

  /** ... and the second moments, from the group masses in `sigma2`. */
  lemma DoneMoments(m: Math, a: Vec, b: Vec, r: Responses, theta: Vec, mu: Vec, sigma: Vec,
                    pgroup: seq<int>, s: Setup, ll: real, r0: array2<real>, r1: array2<real>,
                    thetabar: array<real>, sigma2: array2<real>, sumtheta: array<real>)
    requires Inputs(m, a, b, r, theta, mu, sigma, pgroup)
    requires GroupPriors(m, mu, sigma, theta).Some?
    requires s == SetupOf(m, a, b, r, theta, GroupPriors(m, mu, sigma, theta).value, pgroup)
    requires Progress(m, s, theta, r.Persons(), ll, r0, r1, thetabar, sigma2, sumtheta)
    ensures EStepSpec(m, a, b, r, theta, mu, sigma, pgroup).Some?
    ensures var e := EStepSpec(m, a, b, r, theta, mu, sigma, pgroup).value;
            forall g :: 0 <= g < |mu| ==> e.sumSig2[g] == Dot(Column(sigma2, g), Squares(theta))
  {
    EStepSpecUnfold(m, a, b, r, theta, mu, sigma, pgroup);
    ghost var e := EStepSpec(m, a, b, r, theta, mu, sigma, pgroup).value;
    ghost var posts := Posteriors(s);
    forall g | 0 <= g < |mu| ensures e.sumSig2[g] == Dot(Column(sigma2, g), Squares(theta)) {
      assert Column(sigma2, g) == seq(|theta|, t => GroupMass(posts, pgroup, r.Persons(), g, t));
    }
  }

  /** At the end of the multigroup E-step every buffer holds its part of EStepSpec. */
  lemma Done(m: Math, a: Vec, b: Vec, r: Responses, theta: Vec, mu: Vec, sigma: Vec,
             pgroup: seq<int>, s: Setup, ll: real, r0: array2<real>, r1: array2<real>,
             thetabar: array<real>, sigma2: array2<real>, sumtheta: array<real>, sumsig2: array<real>)
    requires Inputs(m, a, b, r, theta, mu, sigma, pgroup)
    requires GroupPriors(m, mu, sigma, theta).Some?
    requires s == SetupOf(m, a, b, r, theta, GroupPriors(m, mu, sigma, theta).value, pgroup)
    requires Progress(m, s, theta, r.Persons(), ll, r0, r1, thetabar, sigma2, sumtheta)
    requires sumsig2.Length == |mu|
    requires forall g :: 0 <= g < sumsig2.Length ==> sumsig2[g] == Dot(Column(sigma2, g), Squares(theta))
    ensures EStepSpec(m, a, b, r, theta, mu, sigma, pgroup).Some?
    ensures var e := EStepSpec(m, a, b, r, theta, mu, sigma, pgroup).value;
            (forall t, i :: 0 <= t < |theta| && 0 <= i < |a| ==> r0[t, i] == e.r0[i][t] && r1[t, i] == e.r1[i][t])
            && thetabar[..] == e.thetabar && sumtheta[..] == e.sumTheta
            && sumsig2[..] == e.sumSig2 && ll == e.ll
  {
    DoneItems(m, a, b, r, theta, mu, sigma, pgroup, s, ll, r0, r1, thetabar, sigma2, sumtheta);
    DoneMeans(m, a, b, r, theta, mu, sigma, pgroup, s, ll, r0, r1, thetabar, sigma2, sumtheta);
    DoneMoments(m, a, b, r, theta, mu, sigma, pgroup, s, ll, r0, r1, thetabar, sigma2, sumtheta);
  }

  /** The multigroup `estep_2pl_dich`: resets `r0`, `r1` and `sumtheta`,
      then for every person forms and normalises the posterior and scatters
      it into the item, group and person statistics. `ok` is false exactly
      when a prior or a person's marginal likelihood degenerates. */
  method EStep(m: Math, a: Vec, b: Vec, r: Responses, theta: Vec,
               r0: array2<real>, r1: array2<real>, thetabar: array<real>,
               sumtheta: array<real>, sumsig2: array<real>,
               mu: Vec, sigma: Vec, pgroup: seq<int>) returns (ll: real, ok: bool)
    requires Inputs(m, a, b, r, theta, mu, sigma, pgroup)
    requires r0.Length0 == r1.Length0 == |theta| && r0.Length1 == r1.Length1 == |a| && r0 != r1
    requires thetabar.Length == r.Persons() && sumtheta.Length == sumsig2.Length == |mu|
    requires thetabar != sumtheta && thetabar != sumsig2 && sumtheta != sumsig2
    modifies r0, r1, thetabar, sumtheta, sumsig2
    ensures ok == EStepSpec(m, a, b, r, theta, mu, sigma, pgroup).Some?
    ensures ok ==> var e := EStepSpec(m, a, b, r, theta, mu, sigma, pgroup).value;
                   (forall t, i :: 0 <= t < |theta| && 0 <= i < |a| ==> r0[t, i] == e.r0[i][t] && r1[t, i] == e.r1[i][t])
                   && thetabar[..] == e.thetabar && sumtheta[..] == e.sumTheta
                   && sumsig2[..] == e.sumSig2 && ll == e.ll
  {
    var nt, ng := |theta|, |mu|;
    var pri := ComputePriors(m, mu, sigma, theta);
    EStepSpecUnfold(m, a, b, r, theta, mu, sigma, pgroup);
    if pri.None? {
      return 0.0, false;
    }
    ZeroMatrix(r0);
    ZeroMatrix(r1);
    ZeroVector(sumtheta);
    var sigma2 := new real[nt, ng]((t, g) => 0.0);
    var s := Setup(nt, pri.value, Traces(m, a, b, theta), r, pgroup);
    ProgressStart(m, s, theta, r0, r1, thetabar, sigma2, sumtheta);
    ll, ok := PersonPass(m, s, theta, r0, r1, thetabar, sigma2, sumtheta);
    if !ok {
      return;
    }
    SecondMoments(sigma2, theta, sumsig2);
    Done(m, a, b, r, theta, mu, sigma, pgroup, s, ll, r0, r1, thetabar, sigma2, sumtheta, sumsig2);
  }

  // ---------------------------------------------------------------------
  // The single-group overload: one prior, `sigma2` a vector and the second
  // moment a scalar. The deviance it prints is not part of the model.
  // ---------------------------------------------------------------------

  /** Buffers of the single-group person loop. */
  ghost predicate SingleFrame(s: Setup, theta: Vec, r0: array2<real>, r1: array2<real>,
                              thetabar: array<real>, sigma2: array<real>)
  {
    s.Valid() && s.nt == |theta| && |s.priors| == 1
    && r0.Length0 == r1.Length0 == |theta| && r0.Length1 == r1.Length1 == |s.itrace| && r0 != r1
    && sigma2.Length == |theta| && thetabar.Length == s.resp.Persons() && thetabar != sigma2
  }

  /** The single-group loop has handled the first `n` persons. */
  ghost predicate SingleProgress(s: Setup, theta: Vec, n: int, r0: array2<real>, r1: array2<real>,
                                 thetabar: array<real>, sigma2: array<real>)
    reads r0, r1, thetabar, sigma2
  {
    SingleFrame(s, theta, r0, r1, thetabar, sigma2) && 0 <= n <= s.resp.Persons() && Massive(s, n)
    && var posts := Posteriors(s);
       ItemsScattered(s.resp, posts, n, r0, r1)
       && MeansRecorded(posts, theta, n, thetabar)
       && forall t :: 0 <= t < sigma2.Length ==> sigma2[t] == GroupMass(posts, s.pgroup, n, 0, t)
  }

  /** One person of the single-group loop. */
  method SinglePersonStep(s: Setup, theta: Vec, p: int, r0: array2<real>, r1: array2<real>,
                          thetabar: array<real>, sigma2: array<real>) returns (ok: bool)
    requires SingleProgress(s, theta, p, r0, r1, thetabar, sigma2) && p < s.resp.Persons()
    modifies r0, r1, thetabar, sigma2
    ensures ok ==> SingleProgress(s, theta, p + 1, r0, r1, thetabar, sigma2)
    ensures !ok ==> !Massive(s, s.resp.Persons())
  {
    ghost var posts := Posteriors(s);
    var posterior := UnnormalizedPosterior(s.priors[0], s.itrace, s.resp, p);
    assert posterior == Unnormalized(s, p);
    var sp := Sum(posterior);
    if sp == 0.0 {
      return false;
    }
    posterior := Scale(posterior, sp);
    assert posterior == posts[p];
    SingleGroupStep(posts, theta, s.pgroup, p, posterior, thetabar, sigma2);
    ScatterStep(s.resp, posts, p, posterior, r0, r1);
    MassiveStep(s, p);
    ok := true;
  }

  /** Records person `p`'s posterior mean and adds the posterior to the
      one group's masses. */
  method SingleGroupStep(ghost posts: seq<Vec>, theta: Vec, pgroup: seq<int>, p: int, posterior: Vec,
                         thetabar: array<real>, sigma2: array<real>)
    requires 0 <= p < |posts| && p < |pgroup| && p < thetabar.Length && posterior == posts[p]
    requires forall q :: 0 <= q <= p ==> |posts[q]| == |theta|
    requires sigma2.Length == |theta| && pgroup[p] == 0 && thetabar != sigma2
    requires MeansRecorded(posts, theta, p, thetabar)
    requires forall t :: 0 <= t < sigma2.Length ==> sigma2[t] == GroupMass(posts, pgroup, p, 0, t)
    modifies thetabar, sigma2
    ensures MeansRecorded(posts, theta, p + 1, thetabar)
    ensures forall t :: 0 <= t < sigma2.Length ==> sigma2[t] == GroupMass(posts, pgroup, p + 1, 0, t)
  {
    thetabar[p] := Dot(posterior, theta);
    AddVector(sigma2, posterior);
  }

  method SinglePass(s: Setup, theta: Vec, r0: array2<real>, r1: array2<real>,
                    thetabar: array<real>, sigma2: array<real>) returns (ok: bool)
    requires SingleProgress(s, theta, 0, r0, r1, thetabar, sigma2)
    modifies r0, r1, thetabar, sigma2
    ensures ok == Massive(s, s.resp.Persons())
    ensures ok ==> SingleProgress(s, theta, s.resp.Persons(), r0, r1, thetabar, sigma2)
  {
    var np := s.resp.Persons();
    var p := 0;
    while p < np
      invariant 0 <= p <= np
      invariant SingleProgress(s, theta, p, r0, r1, thetabar, sigma2)
    {
      ok := SinglePersonStep(s, theta, p, r0, r1, thetabar, sigma2);
      if !ok {
        return;
      }
      p := p + 1;
    }
    ok := true;
  }

  /** The prior list of a single group is the one `gaussian_pts` column. */
  lemma SinglePriors(m: Math, mu: real, sigma: real, theta: Vec)
    requires |theta| >= 2
    ensures GroupPriors(m, [mu], [sigma], theta)
            == if GaussianWeights(m, mu, sigma, theta).None? then None
               else Some([GaussianWeights(m, mu, sigma, theta).value])
  {
    if GaussianWeights(m, mu, sigma, theta).Some? {
      var pri := seq(1, g requires 0 <= g < 1 => GaussianWeights(m, [mu][g], [sigma][g], theta).value);
      assert pri == [GaussianWeights(m, mu, sigma, theta).value];
    } else {
      assert !GaussianWeights(m, [mu][0], [sigma][0], theta).Some?;
    }
  }

  /** At the end of the single-group loop the buffers hold the one-group
      EStepSpec. */
  lemma SingleDone(m: Math, a: Vec, b: Vec, r: Responses, theta: Vec, mu: real, sigma: real,
                   s: Setup, r0: array2<real>, r1: array2<real>, thetabar: array<real>, sigma2: array<real>)
    requires r.Ranges()
    requires Inputs(m, a, b, r, theta, [mu], [sigma], SingleGroup(r.Persons()))
    requires GaussianWeights(m, mu, sigma, theta).Some?
    requires s == Setup(|theta|, [GaussianWeights(m, mu, sigma, theta).value], Traces(m, a, b, theta), r, SingleGroup(r.Persons()))
    requires SingleProgress(s, theta, r.Persons(), r0, r1, thetabar, sigma2)
    ensures EStepSpec(m, a, b, r, theta, [mu], [sigma], SingleGroup(r.Persons())).Some?
    ensures var e := EStepSpec(m, a, b, r, theta, [mu], [sigma], SingleGroup(r.Persons())).value;
            (forall t, i :: 0 <= t < |theta| && 0 <= i < |a| ==> r0[t, i] == e.r0[i][t] && r1[t, i] == e.r1[i][t])
            && thetabar[..] == e.thetabar && Dot(sigma2[..], Squares(theta)) == e.sumSig2[0]
  {
    var pgroup := SingleGroup(r.Persons());
    SinglePriors(m, mu, sigma, theta);
    EStepSpecUnfold(m, a, b, r, theta, [mu], [sigma], pgroup);
    ghost var e := EStepSpec(m, a, b, r, theta, [mu], [sigma], pgroup).value;
    ghost var posts := Posteriors(s);
    assert thetabar[..] == e.thetabar;
    assert sigma2[..] == seq(|theta|, t => GroupMass(posts, pgroup, r.Persons(), 0, t));
  }

  /** The single-group `estep_2pl_dich`: the multigroup E-step with one
      group holding every person, without the per-group means. */
  method EStepSingle(m: Math, a: Vec, b: Vec, r: Responses, theta: Vec,
                     r0: array2<real>, r1: array2<real>, thetabar: array<real>,
                     mu: real, sigma: real) returns (sumsig2: real, ok: bool)
    requires m.ExpPositive() && |theta| >= 2 && |a| == |b| && r.Valid(|a|)
    requires r0.Length0 == r1.Length0 == |theta| && r0.Length1 == r1.Length1 == |a| && r0 != r1
    requires thetabar.Length == r.Persons()
    modifies r0, r1, thetabar
    ensures ok == EStepSpec(m, a, b, r, theta, [mu], [sigma], SingleGroup(r.Persons())).Some?
    ensures ok ==> var e := EStepSpec(m, a, b, r, theta, [mu], [sigma], SingleGroup(r.Persons())).value;
                   (forall t, i :: 0 <= t < |theta| && 0 <= i < |a| ==> r0[t, i] == e.r0[i][t] && r1[t, i] == e.r1[i][t])
                   && thetabar[..] == e.thetabar && sumsig2 == e.sumSig2[0]
  {
    var np := r.Persons();
    var pgroup := SingleGroup(np);
    assert Inputs(m, a, b, r, theta, [mu], [sigma], pgroup);
    SinglePriors(m, mu, sigma, theta);
    EStepSpecUnfold(m, a, b, r, theta, [mu], [sigma], pgroup);
    var posterior0 := GaussianPts(m, mu, sigma, theta);
    if posterior0.None? {
      return 0.0, false;
    }
    ZeroMatrix(r0);
    ZeroMatrix(r1);
    var sigma2 := new real[|theta|](t => 0.0);
    var s := Setup(|theta|, [posterior0.value], Traces(m, a, b, theta), r, pgroup);
    ok := SinglePass(s, theta, r0, r1, thetabar, sigma2);
    if !ok {
      return 0.0, false;
    }
    sumsig2 := Dot(sigma2[..], Squares(theta));
    SingleDone(m, a, b, r, theta, mu, sigma, s, r0, r1, thetabar, sigma2);
  }

  // ---------------------------------------------------------------------
  // `LL_2pl_dich`, the reduced E-step: only the sum of log(sp).
  // ---------------------------------------------------------------------

  /** The log-likelihood `LL_2pl_dich` returns, or None when a prior is
      degenerate. A zero `sp` is passed to `log` as it is. */
  ghost function ReducedLL(m: Math, a: Vec, b: Vec, r: Responses, theta: Vec,
                           mu: Vec, sigma: Vec, pgroup: seq<int>): Option<real>
    requires Inputs(m, a, b, r, theta, mu, sigma, pgroup)
  {
    var pri := GroupPriors(m, mu, sigma, theta);
    if pri.None? then None
    else Some(LogLik(m, SetupOf(m, a, b, r, theta, pri.value, pgroup), r.Persons()))
  }

  method LL2PLDich(m: Math, a: Vec, b: Vec, r: Responses, theta: Vec,
                   mu: Vec, sigma: Vec, pgroup: seq<int>) returns (ll: Option<real>)
    requires Inputs(m, a, b, r, theta, mu, sigma, pgroup)
    ensures ll == ReducedLL(m, a, b, r, theta, mu, sigma, pgroup)
  {
    var pri := ComputePriors(m, mu, sigma, theta);
    if pri.None? {
      return None;
    }
    var s := SetupOf(m, a, b, r, theta, pri.value, pgroup);
    var acc := 0.0;
    for p := 0 to r.Persons()
      invariant acc == LogLik(m, s, p)
    {
      var posterior := UnnormalizedPosterior(s.priors[pgroup[p]], s.itrace, r, p);
      acc := acc + m.log(Sum(posterior));
    }
    ll := Some(acc);
  }

  /** The reduced log-likelihood is the one the full E-step reports. */
  lemma ReducedMatchesEStep(m: Math, a: Vec, b: Vec, r: Responses, theta: Vec,
                            mu: Vec, sigma: Vec, pgroup: seq<int>)
    requires Inputs(m, a, b, r, theta, mu, sigma, pgroup)
    requires EStepSpec(m, a, b, r, theta, mu, sigma, pgroup).Some?
    ensures ReducedLL(m, a, b, r, theta, mu, sigma, pgroup)
            == Some(EStepSpec(m, a, b, r, theta, mu, sigma, pgroup).value.ll)
  {
    EStepSpecUnfold(m, a, b, r, theta, mu, sigma, pgroup);
  }
}
