// `estimate_nrm` and `loglikelihood_nrm` in nrm_est.cpp: EM estimation of
// the nominal response model. The item traces, the E-step, the marginal
// likelihood and the two minimizers live in headers that are not part of
// this model; they enter as the oracles of `NrmOracles`. What is modelled is
// the driver around them: the `exp_at` lookup table, the item loop that
// skips fixed items and rewrites rows `1 .. ncat-1` of each free column of
// `b`, the group update, and the additive stop code.

module NRM {
  import opened Common
  import opened EStep2PL
  import opened MStep2PL
  import opened EM2PL

  /** A matrix handed to or returned by an oracle (an item trace `nt x ncat`
      or the expected counts `r(i)`), by rows. */
  type Mat = seq<Vec>

  /** What a minimizer leaves behind: the parameters it overwrote in place
      and its error count. */
  datatype Fit = Fit(pars: Vec, err: int)

  /** What `estep` writes: the expected counts `r` (into the buffers it is
      handed), the posterior means, the per-group sums and the log
      likelihood. */
  datatype Posterior = Posterior(r: seq<Mat>, thetabar: Vec, sumTheta: Vec, sumSig2: Vec, ll: real)

  /** The person-side inputs that are only passed through to the oracles:
      `pni`, `pcni`, `pi`, `px` and `pgroup`. */
  datatype Persons = Persons(pni: seq<int>, pcni: seq<int>, pi: seq<int>, px: seq<int>, pgroup: seq<int>)

  /** The calls into code outside this model:
      `nrm_trace(theta, a.col(i), b.col(i), ncat[i], exp_at)`,
      `estep(itrace, persons, theta, r, mu, sigma)`,
      `loglikelihood(itrace, persons, theta, mu, sigma)`, and the two
      minimizers `D1min` and `nlm` of `ll_nrm(a.col(i), exp_at, r(i))`
      started, with a tolerance, from the free parameters. */
  datatype NrmOracles = NrmOracles(
    trace: (Vec, seq<int>, Vec, int, Mat) -> Mat,
    estep: (seq<Mat>, Persons, Vec, seq<Mat>, Vec, Vec) -> Posterior,
    loglik: (seq<Mat>, Persons, Vec, Vec, Vec) -> real,
    d1min: (real, seq<int>, Mat, Mat, Vec) -> Fit,
    nlm: (real, seq<int>, Mat, Mat, Vec) -> Fit)
  {
    /** The minimizers work on `pars` in place, so they keep its length. */
    ghost predicate InPlace()
    {
      (forall tol, x, e, r, p :: |d1min(tol, x, e, r, p).pars| == |p|)
      && (forall tol, x, e, r, p :: |nlm(tol, x, e, r, p).pars| == |p|)
    }

    /** `estep` writes into the `r` buffers it is handed and into group sums
        of length `ng`. */
    ghost predicate Shaped(ng: int)
    {
      forall tr, ps, th, r, mu, sd ::
        |estep(tr, ps, th, r, mu, sd).r| == |r|
        && |estep(tr, ps, th, r, mu, sd).sumTheta| == ng && |estep(tr, ps, th, r, mu, sd).sumSig2| == ng
    }
  }

  /** The tolerance handed to both minimizers. */
  const MinimizerTol: real := 0.0000000001

  /** The loop ends once no free parameter moved more than this. */
  const MinChange: real := 0.0001

  // ---------------------------------------------------------------------
  // The score matrix `a` and the lookup table `exp_at`.
  // ---------------------------------------------------------------------

  /** Column `i` of the integer score matrix. */
  function IntColumn(a: array2<int>, i: int): (v: seq<int>)
    reads a
    requires 0 <= i < a.Length1
    ensures |v| == a.Length0 && forall k :: 0 <= k < a.Length0 ==> v[k] == a[k, i]
  {
    seq(a.Length0, k requires 0 <= k < a.Length0 reads a => a[k, i])
  }

  function IntColumns(a: array2<int>): (cols: seq<seq<int>>)
    reads a
    ensures |cols| == a.Length1 && forall i :: 0 <= i < a.Length1 ==> cols[i] == IntColumn(a, i)
  {
    seq(a.Length1, i requires 0 <= i < a.Length1 reads a => IntColumn(a, i))
  }

  function IntMax(x: int, y: int): int
  {
    if x < y then y else x
  }

  /** The running maximum after the entries of `col`, front to back. */
  function ColMax(acc: int, col: seq<int>): int
  {
    if |col| == 0 then acc else IntMax(ColMax(acc, col[..|col| - 1]), col[|col| - 1])
  }

  /** The running maximum after every column, in Armadillo's column-major order. */
  function MatMax(acc: int, cols: seq<seq<int>>): int
  {
    if |cols| == 0 then acc else ColMax(MatMax(acc, cols[..|cols| - 1]), cols[|cols| - 1])
  }

  /** `a.max()`, started from the first entry. */
  function MaxScore(cols: seq<seq<int>>): int
    requires |cols| > 0 && |cols[0]| > 0
  {
    MatMax(cols[0][0], cols)
  }

  lemma {:induction false} ColMaxBounds(acc: int, col: seq<int>)
    ensures ColMax(acc, col) >= acc && forall k :: 0 <= k < |col| ==> col[k] <= ColMax(acc, col)
    ensures ColMax(acc, col) == acc || exists k :: 0 <= k < |col| && ColMax(acc, col) == col[k]
    decreases |col|
  {
    if |col| > 0 {
      ColMaxBounds(acc, col[..|col| - 1]);
    }
  }

  lemma {:induction false} MatMaxBounds(acc: int, cols: seq<seq<int>>)
    ensures MatMax(acc, cols) >= acc
    ensures forall i, k :: 0 <= i < |cols| && 0 <= k < |cols[i]| ==> cols[i][k] <= MatMax(acc, cols)
    ensures MatMax(acc, cols) == acc
            || exists i, k :: 0 <= i < |cols| && 0 <= k < |cols[i]| && MatMax(acc, cols) == cols[i][k]
    decreases |cols|
  {
    if |cols| > 0 {
      var n := |cols| - 1;
      MatMaxBounds(acc, cols[..n]);
      ColMaxBounds(MatMax(acc, cols[..n]), cols[n]);
      var mx := MatMax(acc, cols);
      if mx != acc && mx != MatMax(acc, cols[..n]) {
        var k :| 0 <= k < |cols[n]| && mx == cols[n][k];
        assert cols[n][k] == mx;
      } else if mx != acc {
        var i, k :| 0 <= i < n && 0 <= k < |cols[..n][i]| && MatMax(acc, cols[..n]) == cols[..n][i][k];
        assert cols[i][k] == mx;
      }
    }
  }

  /** `a.max()` is an entry of `a` and no entry exceeds it. */
  lemma MaxScoreIsMax(cols: seq<seq<int>>)
    requires |cols| > 0 && |cols[0]| > 0
    ensures forall i, k :: 0 <= i < |cols| && 0 <= k < |cols[i]| ==> cols[i][k] <= MaxScore(cols)
    ensures exists i, k :: 0 <= i < |cols| && 0 <= k < |cols[i]| && MaxScore(cols) == cols[i][k]
  {
    MatMaxBounds(cols[0][0], cols);
  }

  /** `a.max()` as the loop over the entries. */
  method MaxEntry(a: array2<int>) returns (mx: int)
    requires a.Length0 > 0 && a.Length1 > 0
    ensures mx == MaxScore(IntColumns(a))
  {
    ghost var cols := IntColumns(a);
    mx := a[0, 0];
    for i := 0 to a.Length1
      invariant mx == MatMax(a[0, 0], cols[..i])
    {
      ghost var before := mx;
      for k := 0 to a.Length0
        invariant mx == ColMax(before, cols[i][..k])
      {
        assert cols[i][..k + 1][..k] == cols[i][..k];
        mx := IntMax(mx, a[k, i]);
      }
      assert cols[i][..a.Length0] == cols[i];
      assert cols[..i + 1][..i] == cols[..i];
    }
    assert cols[..a.Length1] == cols;
  }

  /** `std::exp`. */
  function Exp(m: Math, x: real): real
  {
    m.exp(x)
  }

  /** Entry `(k, t)` of `exp_at`: 1 in row 0, `exp(k theta[t])` below. */
  function ExpEntry(m: Math, theta: Vec, k: int, t: int): real
    requires 0 <= t < |theta|
  {
    if k == 0 then 1.0 else Exp(m, k as real * theta[t])
  }

  /** The table `exp_at`, `max_a + 1` rows by `nt` columns, by rows. */
  function ExpAt(m: Math, maxA: int, theta: Vec): (e: Mat)
    ensures |e| == if maxA + 1 < 0 then 0 else maxA + 1
    ensures forall k :: 0 <= k < |e| ==> |e[k]| == |theta|
  {
    seq(if maxA + 1 < 0 then 0 else maxA + 1, k =>
      seq(|theta|, t requires 0 <= t < |theta| => ExpEntry(m, theta, k, t)))
  }

  /** `mat exp_at(max_a+1, nt, fill::ones)`, then `exp(k theta[t])` into
      rows `1 .. max_a` column by column. */
  method ExpTable(m: Math, maxA: int, theta: Vec) returns (e: array2<real>)
    requires maxA >= 0
    ensures fresh(e) && e.Length0 == maxA + 1 && e.Length1 == |theta|
    ensures Rows(e) == ExpAt(m, maxA, theta)
  {
    e := new real[maxA + 1, |theta|]((k, t) => 1.0);
    for t := 0 to |theta|
      invariant forall k, u :: 0 <= k <= maxA && 0 <= u < |theta| ==>
                  e[k, u] == if u < t then ExpEntry(m, theta, k, u) else 1.0
    {
      for k := 1 to maxA + 1
        invariant forall kk, u :: 0 <= kk <= maxA && 0 <= u < |theta| ==>
                    e[kk, u] == if u < t || (u == t && 1 <= kk < k) then ExpEntry(m, theta, kk, u) else 1.0
      {
        e[k, t] := ExpEntry(m, theta, k, t);
      }
    }
    forall k | 0 <= k <= maxA
      ensures Rows(e)[k] == ExpAt(m, maxA, theta)[k]
    {
    }
  }

  /** `exp` turns sums into products. */
  ghost predicate ExpAdditive(m: Math)
  {
    forall x, y :: ExpSum(m, x, y)
  }

  ghost predicate ExpSum(m: Math, x: real, y: real)
  {
    Exp(m, x + y) == Exp(m, x) * Exp(m, y)
  }

  function Power(x: real, k: nat): real
  {
    if k == 0 then 1.0 else Power(x, k - 1) * x
  }

  /** With an additive `exp`, row `k` of the table holds the `k`-th powers
      of `exp(theta[t])`: the table caches powers, and its row of ones is
      the 0-th power. */
  lemma ExpAtPowers(m: Math, maxA: int, theta: Vec, k: nat, t: int)
    requires ExpAdditive(m) && 0 <= t < |theta| && k <= maxA
    ensures ExpAt(m, maxA, theta)[k][t] == Power(Exp(m, theta[t]), k)
  {
    assert ExpAt(m, maxA, theta)[k][t] == ExpEntry(m, theta, k, t);
    EntryPowers(m, theta, k, t);
  }

  lemma {:induction false} EntryPowers(m: Math, theta: Vec, k: nat, t: int)
    requires ExpAdditive(m) && 0 <= t < |theta|
    ensures ExpEntry(m, theta, k, t) == Power(Exp(m, theta[t]), k)
    decreases k
  {
    if k == 1 {
      EntryOne(m, theta, k, t);
      assert Power(Exp(m, theta[t]), 0) == 1.0;
    } else if k > 1 {
      EntryPowers(m, theta, k - 1, t);
      AddOnce((k - 1) as real, k as real, theta[t]);
      ExpSplit(m, k as real * theta[t], (k - 1) as real * theta[t], theta[t]);
      assert ExpEntry(m, theta, k, t) == ExpEntry(m, theta, k - 1, t) * Exp(m, theta[t]);
    }
  }

  lemma EntryOne(m: Math, theta: Vec, k: int, t: int)
    requires 0 <= t < |theta| && k == 1
    ensures ExpEntry(m, theta, k, t) == Exp(m, theta[t])
  {
    assert ExpEntry(m, theta, k, t) == Exp(m, k as real * theta[t]);
    ExpArgs(m, k as real * theta[t], theta[t]);
  }

  lemma ExpArgs(m: Math, x: real, y: real)
    requires x == y
    ensures Exp(m, x) == Exp(m, y)
  {
  }

  lemma ExpSplit(m: Math, w: real, u: real, v: real)
    requires ExpAdditive(m) && w == u + v
    ensures Exp(m, w) == Exp(m, u) * Exp(m, v)
  {
    assert ExpSum(m, u, v);
  }

  // ---------------------------------------------------------------------
  // One pass of the EM loop.
  // ---------------------------------------------------------------------

  /** `nrm_trace` of items `0 .. |ncat|` at the columns `b` of `b`. */
  function Traces(o: NrmOracles, theta: Vec, acols: seq<seq<int>>, b: seq<Vec>, ncat: seq<int>, table: Mat): (tr: seq<Mat>)
    requires |ncat| <= |acols| && |ncat| <= |b|
    ensures |tr| == |ncat|
  {
    seq(|ncat|, i requires 0 <= i < |ncat| => o.trace(theta, acols[i], b[i], ncat[i], table))
  }

  /** The inputs every pass shares: the score columns, the categories, the
      fixed flags, the persons, the grid, the group sizes, `ref_group` and
      `exp_at`. */
  datatype Problem = Problem(acols: seq<seq<int>>, ncat: seq<int>, fixed: seq<int>, persons: Persons,
                             theta: Vec, gn: seq<int>, ref: int, table: Mat)

  /** The minimizer item `i` gets from the column `bcol`: `D1min` for two
      categories, `nlm` otherwise, both from rows `1 .. ncat[i]-1`. */
  function FitNrm(o: NrmOracles, p: Problem, r: Mat, bcol: Vec, i: int): (f: Fit)
    requires 0 <= i < |p.ncat| && i < |p.acols| && 1 <= p.ncat[i] <= |bcol|
    requires o.InPlace()
    ensures |f.pars| == p.ncat[i] - 1
  {
    var pars := bcol[1..p.ncat[i]];
    if p.ncat[i] == 2 then o.d1min(MinimizerTol, p.acols[i], p.table, r, pars)
    else o.nlm(MinimizerTol, p.acols[i], p.table, r, pars)
  }

  /** A column with rows `1 .. nc-1` overwritten by `pars`. */
  ghost function Replaced(col: Vec, pars: Vec, nc: int): (v: Vec)
    requires 1 <= nc <= |col| && |pars| == nc - 1
    ensures |v| == |col|
  {
    seq(|col|, q requires 0 <= q < |col| => if 1 <= q < nc then pars[q - 1] else col[q])
  }

  /** The running maximum of `|x[k] - y[k]|`, front to back, from `acc`. */
  ghost function DifFrom(acc: real, x: Vec, y: Vec): real
    requires |x| == |y|
  {
    if |x| == 0 then acc
    else Max(DifFrom(acc, x[..|x| - 1], y[..|y| - 1]), Abs(x[|x| - 1] - y[|y| - 1]))
  }

  /** What the item loop leaves: the new columns, the summed minimizer
      errors and `maxdif_b`. */
  datatype Pass = Pass(cols: seq<Vec>, err: int, dif: real)

  /** What the item loop needs of its inputs. */
  ghost predicate PassInputs(o: NrmOracles, p: Problem, r: seq<Mat>, b: seq<Vec>)
  {
    |p.acols| == |p.fixed| == |p.ncat| == |b| == |r|
    && (forall i :: 0 <= i < |b| ==> 1 <= p.ncat[i] <= |b[i]|)
    && o.InPlace()
  }

  /** The item loop over items `0 .. k`: a fixed item is skipped, any
      other has its free rows replaced by its minimizer's result, adds its
      error count and extends the running maximum of the changes. */
  ghost function ItemsPass(o: NrmOracles, p: Problem, r: seq<Mat>, b: seq<Vec>, k: int): (q: Pass)
    requires PassInputs(o, p, r, b) && 0 <= k <= |b|
    ensures |q.cols| == k && forall i :: 0 <= i < k ==> |q.cols[i]| == |b[i]|
    decreases k
  {
    if k == 0 then Pass([], 0, 0.0)
    else
      var q := ItemsPass(o, p, r, b, k - 1);
      var i := k - 1;
      if p.fixed[i] == 1 then Pass(q.cols + [b[i]], q.err, q.dif)
      else
        var f := FitNrm(o, p, r[i], b[i], i);
        Pass(q.cols + [Replaced(b[i], f.pars, p.ncat[i])], q.err + f.err,
             DifFrom(q.dif, b[i][1..p.ncat[i]], f.pars))
  }

  /** The group update of `estimate_nrm`: every group's sd from its second
      moment, the reference group's about mean 0. None when a group is
      empty (the source divides by zero there). */
  function NrmGroupUpdate(m: Math, sumTheta: Vec, sumSig2: Vec, gn: seq<int>, ref: int): (u: Option<(Vec, Vec)>)
    requires |sumTheta| == |sumSig2| == |gn|
    ensures u.Some? ==> |u.value.0| == |u.value.1| == |gn|
  {
    if exists g :: 0 <= g < |gn| && gn[g] == 0 then None
    else
      Some((seq(|gn|, g requires 0 <= g < |gn| => GroupMu(sumTheta, gn, ref, g)),
            seq(|gn|, g requires 0 <= g < |gn| => NrmSigma(m, sumSig2, gn, ref, g, GroupMu(sumTheta, gn, ref, g)))))
  }

  /** `sigma[g]` given the new `mu[g]`. */
  function NrmSigma(m: Math, sumSig2: Vec, gn: seq<int>, ref: int, g: int, mu: real): real
    requires 0 <= g < |sumSig2| == |gn| && gn[g] != 0
  {
    if g == ref then m.sqrt(sumSig2[g] / gn[g] as real) else Sd(m, sumSig2[g], gn[g], mu)
  }

  /** The driver's variables besides `b`, `mu` and `sigma`: `thetabar`, the
      `r` buffers, the last E-step's `ll`, `old_ll` (None while it holds the
      lowest long double, so that no comparison can fail), `min_error` and
      `maxdif_b` (None until the first item loop sets it). */
  datatype Locals = Locals(thetabar: Vec, r: seq<Mat>, ll: real, oldLL: Option<real>, minError: int,
                           maxdif: Option<real>)

  /** The loop state: `b` by columns, the group parameters and the rest. */
  datatype Nrm = Nrm(b: seq<Vec>, mu: Vec, sigma: Vec, loc: Locals)

  /** How a pass ends: on to the next, a `break` adding `code` to `stop`,
      or an error. */
  datatype Verdict = Go | Halt(code: int) | Fail(error: string)

  /** What a pass needs of the inputs and the state. */
  ghost predicate Fits(o: NrmOracles, p: Problem, s: Nrm)
  {
    PassInputs(o, p, s.loc.r, s.b) && |s.mu| == |s.sigma| == |p.gn| && o.Shaped(|p.gn|)
  }

  /** One pass from `s`: the traces and the E-step; a likelihood below
      `old_ll` breaks with 2 before anything else changes; then the item
      loop; any minimizer error breaks with 1 before the group update; then
      the group update, and a break with 0 when no free parameter moved by
      `MinChange`; otherwise `old_ll` takes this pass's likelihood. */
  ghost function NrmStep(o: NrmOracles, m: Math, p: Problem, s: Nrm): (c: (Nrm, Verdict))
    requires Fits(o, p, s)
    ensures Fits(o, p, c.0) && |c.0.b| == |s.b|
    ensures forall i :: 0 <= i < |s.b| ==> |c.0.b[i]| == |s.b[i]|
  {
    var e := o.estep(Traces(o, p.theta, p.acols, s.b, p.ncat, p.table), p.persons, p.theta, s.loc.r, s.mu, s.sigma);
    var l1 := s.loc.(thetabar := e.thetabar, r := e.r, ll := e.ll);
    if s.loc.oldLL.Some? && e.ll < s.loc.oldLL.value then (s.(loc := l1), Halt(2))
    else
      var q := ItemsPass(o, p, e.r, s.b, |s.b|);
      var l2 := l1.(minError := s.loc.minError + q.err, maxdif := Some(q.dif));
      if l2.minError > 0 then (s.(b := q.cols, loc := l2), Halt(1))
      else
        var u := NrmGroupUpdate(m, e.sumTheta, e.sumSig2, p.gn, p.ref);
        if u.None? then (s.(b := q.cols, loc := l2), Fail(EmptyGroup))
        else if q.dif < MinChange then (Nrm(q.cols, u.value.0, u.value.1, l2), Halt(0))
        else (Nrm(q.cols, u.value.0, u.value.1, l2.(oldLL := Some(e.ll))), Go)
  }

  /** `NrmStep` as a step of the loop state. */
  ghost function Stepper(o: NrmOracles, m: Math, p: Problem): Nrm -> (Nrm, Verdict)
  {
    (s: Nrm) => if Fits(o, p, s) then NrmStep(o, m, p, s) else (s, Fail(Degenerate))
  }

  /** The loop from pass `iter` with `maxIter` allowed: the final state,
      the final `iter` and the code of the `break` (0 when the passes run
      out). A `break` leaves `iter` where it is. */
  ghost function Run(step: Nrm -> (Nrm, Verdict), maxIter: int, iter: nat, s: Nrm): Result<(Nrm, nat, int)>
    decreases if iter < maxIter then maxIter - iter else 0
  {
    if iter >= maxIter then Success((s, iter, 0))
    else
      var c := step(s);
      match c.1
      case Fail(err) => Failure(err)
      case Halt(code) => Success((c.0, iter, code))
      case Go => Run(step, maxIter, iter + 1, c.0)
  }

  // ---------------------------------------------------------------------
  // `loglikelihood_nrm` and `estimate_nrm` as functions of their inputs.
  // ---------------------------------------------------------------------

  /** `loglikelihood_nrm`: the table from the largest score, the trace of
      every item, then the marginal likelihood. */
  ghost function LoglikSpec(o: NrmOracles, m: Math, acols: seq<seq<int>>, b: seq<Vec>, ncat: seq<int>,
                            persons: Persons, theta: Vec, mu: Vec, sigma: Vec): real
    requires |acols| > 0 && |acols[0]| > 0 && |ncat| <= |acols| && |ncat| <= |b|
  {
    var table := ExpAt(m, MaxScore(acols), theta);
    o.loglik(Traces(o, theta, acols, b, ncat, table), persons, theta, mu, sigma)
  }

  /** A zero matrix of `n` rows and `c` columns, by rows. */
  function ZeroMat(n: nat, c: int): (z: Mat)
    ensures |z| == n && forall t :: 0 <= t < n ==> z[t] == Zeros(if c < 0 then 0 else c)
  {
    seq(n, t => Zeros(if c < 0 then 0 else c))
  }

  /** The `r` buffers: `r(i) = mat(nt, ncat[i])`. */
  function RBuffers(nt: nat, ncat: seq<int>): (r: seq<Mat>)
    ensures |r| == |ncat|
    ensures forall i :: 0 <= i < |ncat| && ncat[i] >= 0 ==>
              |r[i]| == nt && forall t :: 0 <= t < nt ==> |r[i][t]| == ncat[i]
  {
    seq(|ncat|, i requires 0 <= i < |ncat| => ZeroMat(nt, ncat[i]))
  }

  /** What `estimate_nrm` returns besides the unchanged `a`. */
  datatype NrmOut = NrmOut(b: seq<Vec>, thetabar: Vec, mu: Vec, sd: Vec, ll: real, niter: int, err: int,
                           maxdifB: Option<real>)

  /** What `estimate_nrm` demands of its inputs: a non-empty score matrix
      whose largest score is not negative, one category count in `1 ..`
      rows of `b` and one fixed flag per item, one start value per group,
      and oracles that write in place. */
  ghost predicate NrmInputs(o: NrmOracles, acols: seq<seq<int>>, bStart: seq<Vec>, ncat: seq<int>, fixed: seq<int>,
                            muStart: Vec, sigmaStart: Vec, gn: seq<int>)
  {
    |acols| > 0 && |acols[0]| > 0 && MaxScore(acols) >= 0
    && |ncat| == |acols| == |bStart| == |fixed|
    && (forall i :: 0 <= i < |ncat| ==> 1 <= ncat[i] <= |bStart[i]|)
    && |muStart| == |sigmaStart| == |gn|
    && o.InPlace() && o.Shaped(|gn|)
  }

  /** The state before the first pass. */
  function NrmStart(p: Problem, bStart: seq<Vec>, muStart: Vec, sigmaStart: Vec): Nrm
  {
    Nrm(bStart, muStart, sigmaStart, Locals(Zeros(|p.persons.pni|), RBuffers(|p.theta|, p.ncat), 0.0, None, 0, None))
  }

  /** `estimate_nrm`: the loop, 4 more on `stop` when it used up all but
      at most one of the `max_iter` passes, then the likelihood at the
      final parameters. */
  ghost function NrmSpec(o: NrmOracles, m: Math, acols: seq<seq<int>>, bStart: seq<Vec>, ncat: seq<int>,
                         persons: Persons, theta: Vec, muStart: Vec, sigmaStart: Vec, gn: seq<int>,
                         fixed: seq<int>, ref: int, maxIter: int): Result<NrmOut>
    requires NrmInputs(o, acols, bStart, ncat, fixed, muStart, sigmaStart, gn)
  {
    var p := NrmProblem(m, acols, ncat, fixed, persons, theta, gn, ref);
    match NrmRun(o, m, p, maxIter, NrmStart(p, bStart, muStart, sigmaStart))
    case Failure(err) => Failure(err)
    case Success(v) =>
      var s, iter, code := v.0, v.1, v.2;
      Success(NrmOut(s.b, s.loc.thetabar, s.mu, s.sigma,
                     LoglikSpec(o, m, acols, s.b, ncat, persons, theta, s.mu, s.sigma),
                     iter, code + (if iter >= maxIter - 1 then 4 else 0), s.loc.maxdif))
  }

  /** The loop of `estimate_nrm` from `s`; it keeps the number of items. */
  ghost function NrmRun(o: NrmOracles, m: Math, p: Problem, maxIter: int, s: Nrm): (res: Result<(Nrm, nat, int)>)
    requires Fits(o, p, s)
    ensures res.Success? ==> Fits(o, p, res.value.0) && |res.value.0.b| == |s.b|
  {
    RunKeeps(Stepper(o, m, p), Sized(o, p, |s.b|), maxIter, 0, s);
    Run(Stepper(o, m, p), maxIter, 0, s)
  }

  /** The states `NrmStep` applies to, with `n` items. */
  ghost function Sized(o: NrmOracles, p: Problem, n: int): Nrm -> bool
  {
    (t: Nrm) => Fits(o, p, t) && |t.b| == n
  }

  // ---------------------------------------------------------------------
  // The loop in general.
  // ---------------------------------------------------------------------

  /** A property every step keeps holds of the loop's final state. */
  lemma {:induction false} RunKeeps(step: Nrm -> (Nrm, Verdict), inv: Nrm -> bool, maxIter: int, iter: nat, s: Nrm)
    requires inv(s) && forall t :: inv(t) ==> inv(step(t).0)
    ensures Run(step, maxIter, iter, s).Success? ==> inv(Run(step, maxIter, iter, s).value.0)
    decreases if iter < maxIter then maxIter - iter else 0
  {
    if iter < maxIter && step(s).1.Go? {
      RunKeeps(step, inv, maxIter, iter + 1, step(s).0);
    }
  }

  /** The loop ends after at most `maxIter` passes; before that only on a
      `break`, whose code and state then satisfy `post`, and when the
      passes run out with code 0. */
  lemma {:induction false} RunEnds(step: Nrm -> (Nrm, Verdict), inv: Nrm -> bool, post: (Nrm, int) -> bool,
                                   maxIter: int, iter: nat, s: Nrm)
    requires inv(s) && forall t :: inv(t) ==> inv(step(t).0)
    requires forall t :: inv(t) && step(t).1.Halt? ==> post(step(t).0, step(t).1.code)
    requires Run(step, maxIter, iter, s).Success?
    ensures var v := Run(step, maxIter, iter, s).value;
            iter <= v.1 && (v.1 <= maxIter || v.1 == iter)
            && (v.1 < maxIter ==> post(v.0, v.2)) && (v.1 >= maxIter ==> v.2 == 0)
    decreases if iter < maxIter then maxIter - iter else 0
  {
    if iter < maxIter && step(s).1.Go? {
      RunEnds(step, inv, post, maxIter, iter + 1, step(s).0);
    }
  }

  lemma RunFails(step: Nrm -> (Nrm, Verdict), maxIter: int, iter: nat, s: Nrm)
    requires iter < maxIter && step(s).1.Fail?
    ensures Run(step, maxIter, iter, s) == Failure(step(s).1.error)
  {
  }

  lemma RunHalts(step: Nrm -> (Nrm, Verdict), maxIter: int, iter: nat, s: Nrm)
    requires iter < maxIter && step(s).1.Halt?
    ensures Run(step, maxIter, iter, s) == Success((step(s).0, iter, step(s).1.code))
  {
  }

  lemma RunGoes(step: Nrm -> (Nrm, Verdict), maxIter: int, iter: nat, s: Nrm)
    requires iter < maxIter && step(s).1.Go?
    ensures Run(step, maxIter, iter, s) == Run(step, maxIter, iter + 1, step(s).0)
  {
  }

  // ---------------------------------------------------------------------
  // The driver's loops over its buffers.
  // ---------------------------------------------------------------------

  /** `itrace(i) = nrm_trace(theta, a.col(i), b.col(i), ncat[i], exp_at)`
      for every item. */
  method TracesOf(o: NrmOracles, theta: Vec, acols: seq<seq<int>>, b: array2<real>, ncat: seq<int>, table: Mat)
    returns (tr: seq<Mat>)
    requires |ncat| <= |acols| && |ncat| <= b.Length1
    ensures tr == Traces(o, theta, acols, Columns(b), ncat, table)
  {
    tr := [];
    for i := 0 to |ncat|
      invariant |tr| == i
      invariant forall j :: 0 <= j < i ==> tr[j] == o.trace(theta, acols[j], Columns(b)[j], ncat[j], table)
    {
      tr := tr + [o.trace(theta, acols[i], Column(b, i), ncat[i], table)];
    }
  }

  /** The inner loop over `k = 1 .. nc-1`: the running maximum of
      `|b(k,i) - pars[k-1]|`, then `b(k,i) = pars[k-1]`. */
  method WriteFree(b: array2<real>, i: int, pars: Vec, nc: int, acc: real) returns (maxd: real)
    requires 0 <= i < b.Length1 && 1 <= nc <= b.Length0 && |pars| == nc - 1
    modifies b
    ensures maxd == DifFrom(acc, old(Column(b, i))[1..nc], pars)
    ensures forall t, j :: 0 <= t < b.Length0 && 0 <= j < b.Length1 ==>
              b[t, j] == if j == i then Replaced(old(Column(b, i)), pars, nc)[t] else old(b[t, j])
  {
    ghost var col := Column(b, i);
    ghost var free := col[1..nc];
    maxd := acc;
    for k := 1 to nc
      invariant maxd == DifFrom(acc, free[..k - 1], pars[..k - 1])
      invariant forall t, j :: 0 <= t < b.Length0 && 0 <= j < b.Length1 ==>
                  b[t, j] == if j == i && 1 <= t < k then pars[t - 1] else old(b[t, j])
    {
      assert free[..k][..k - 1] == free[..k - 1] && pars[..k][..k - 1] == pars[..k - 1];
      maxd := Max(maxd, Abs(b[k, i] - pars[k - 1]));
      b[k, i] := pars[k - 1];
    }
    assert free[..nc - 1] == free && pars[..nc - 1] == pars;
  }

  /** The item loop: fixed items skipped, every other item's free rows
      refitted and overwritten. */
  method FitItemsNrm(o: NrmOracles, p: Problem, r: seq<Mat>, b: array2<real>, ghost b0: seq<Vec>)
    returns (errs: int, maxd: real)
    requires PassInputs(o, p, r, b0) && Columns(b) == b0
    modifies b
    ensures var q := ItemsPass(o, p, r, b0, |b0|);
            Columns(b) == q.cols && errs == q.err && maxd == q.dif
  {
    errs, maxd := 0, 0.0;
    ghost var q := ItemsPass(o, p, r, b0, 0);
    for i := 0 to b.Length1
      invariant q == ItemsPass(o, p, r, b0, i) && errs == q.err && maxd == q.dif
      invariant Written(b, b0, q.cols, i)
    {
      ghost var q1 := ItemsPass(o, p, r, b0, i + 1);
      errs, maxd := ItemNrm(o, p, r, b, b0, i, q, q1, errs, maxd);
      q := q1;
    }
    ColumnsAre(b, q.cols);
  }

  /** One item of the item loop: skipped when fixed, otherwise refitted
      and its free rows overwritten. */
  method ItemNrm(o: NrmOracles, p: Problem, r: seq<Mat>, b: array2<real>, ghost b0: seq<Vec>, i: int,
                 ghost q: Pass, ghost q1: Pass, errs: int, maxd: real)
    returns (errs': int, maxd': real)
    requires PassInputs(o, p, r, b0) && 0 <= i < |b0|
    requires q == ItemsPass(o, p, r, b0, i) && q1 == ItemsPass(o, p, r, b0, i + 1)
    requires errs == q.err && maxd == q.dif && Written(b, b0, q.cols, i)
    modifies b
    ensures errs' == q1.err && maxd' == q1.dif && Written(b, b0, q1.cols, i + 1)
  {
    PassStep(o, p, r, b0, i);
    if p.fixed[i] != 1 {
      assert Column(b, i) == b0[i];
      var f := FitNrm(o, p, r[i], Column(b, i), i);
      errs' := errs + f.err;
      maxd' := WriteItem(b, b0, q.cols, q1.cols, i, f.pars, p.ncat[i], maxd);
    } else {
      WrittenSkip(b, b0, q.cols, q1.cols, i);
      errs', maxd' := errs, maxd;
    }
  }

  /** Columns `0 .. i` of `b` hold `cols`, the others still `b0`. */
  ghost predicate Written(b: array2<real>, b0: seq<Vec>, cols: seq<Vec>, i: int)
    reads b
  {
    |b0| == b.Length1 && 0 <= i <= |cols| && i <= b.Length1
    && (forall j :: 0 <= j < |cols| ==> |cols[j]| == b.Length0)
    && (forall j :: 0 <= j < |b0| ==> |b0[j]| == b.Length0)
    && forall t, j :: 0 <= t < b.Length0 && 0 <= j < b.Length1 ==>
         b[t, j] == if j < i then cols[j][t] else b0[j][t]
  }

  /** `WriteFree` on item `i` carries `Written` to the columns `cols1`. */
  method WriteItem(b: array2<real>, ghost b0: seq<Vec>, ghost cols: seq<Vec>, ghost cols1: seq<Vec>, i: int,
                   pars: Vec, nc: int, acc: real)
    returns (maxd: real)
    requires Written(b, b0, cols, i) && i < b.Length1 && i < |cols1|
    requires forall j :: 0 <= j < |cols1| ==> |cols1[j]| == b.Length0
    requires forall j :: 0 <= j < i ==> cols1[j] == cols[j]
    requires 1 <= nc <= b.Length0 && |pars| == nc - 1 && cols1[i] == Replaced(b0[i], pars, nc)
    modifies b
    ensures Written(b, b0, cols1, i + 1) && maxd == DifFrom(acc, b0[i][1..nc], pars)
  {
    assert Column(b, i) == b0[i];
    maxd := WriteFree(b, i, pars, nc, acc);
  }

  /** A skipped item carries `Written` to the columns `cols1`. */
  lemma WrittenSkip(b: array2<real>, b0: seq<Vec>, cols: seq<Vec>, cols1: seq<Vec>, i: int)
    requires Written(b, b0, cols, i) && i < b.Length1 && i < |cols1|
    requires forall j :: 0 <= j < |cols1| ==> |cols1[j]| == b.Length0
    requires forall j :: 0 <= j < i ==> cols1[j] == cols[j]
    requires cols1[i] == b0[i]
    ensures Written(b, b0, cols1, i + 1)
  {
  }

  /** One more item of the item loop. */
  lemma PassStep(o: NrmOracles, p: Problem, r: seq<Mat>, b: seq<Vec>, i: int)
    requires PassInputs(o, p, r, b) && 0 <= i < |b|
    ensures var q, q1 := ItemsPass(o, p, r, b, i), ItemsPass(o, p, r, b, i + 1);
            (forall j :: 0 <= j < i ==> q1.cols[j] == q.cols[j])
            && (p.fixed[i] == 1 ==> q1.cols[i] == b[i] && q1.err == q.err && q1.dif == q.dif)
            && (p.fixed[i] != 1 ==>
                  var f := FitNrm(o, p, r[i], b[i], i);
                  q1.cols[i] == Replaced(b[i], f.pars, p.ncat[i]) && q1.err == q.err + f.err
                  && q1.dif == DifFrom(q.dif, b[i][1..p.ncat[i]], f.pars))
  {
  }

  /** The group loop of `estimate_nrm`. It stops at the first empty group. */
  method NrmUpdateGroups(m: Math, mu: array<real>, sigma: array<real>, sumTheta: Vec, sumSig2: Vec, gn: seq<int>, ref: int)
    returns (ok: bool)
    requires mu != sigma && mu.Length == sigma.Length == |gn| == |sumTheta| == |sumSig2|
    modifies mu, sigma
    ensures var u := NrmGroupUpdate(m, sumTheta, sumSig2, gn, ref);
            ok == u.Some? && (ok ==> mu[..] == u.value.0 && sigma[..] == u.value.1)
  {
    for g := 0 to |gn|
      invariant forall k :: 0 <= k < g ==> gn[k] != 0
      invariant forall k :: 0 <= k < g ==> mu[k] == GroupMu(sumTheta, gn, ref, k)
      invariant forall k :: 0 <= k < g ==> sigma[k] == NrmSigma(m, sumSig2, gn, ref, k, GroupMu(sumTheta, gn, ref, k))
    {
      if gn[g] == 0 {
        return false;
      }
      if g == ref {
        mu[g] := 0.0;
        sigma[g] := m.sqrt(sumSig2[g] / gn[g] as real);
      } else {
        mu[g] := Mean(sumTheta[g], gn[g]);
        sigma[g] := Sd(m, sumSig2[g], gn[g], mu[g]);
      }
    }
    ok := true;
  }

  /** One pass of the loop on the driver's buffers. */
  method NrmIteration(o: NrmOracles, m: Math, p: Problem, b: array2<real>, mu: array<real>, sigma: array<real>,
                      loc: Locals, ghost s: Nrm)
    returns (next: Locals, v: Verdict)
    requires mu != sigma && Fits(o, p, s) && s == Nrm(Columns(b), mu[..], sigma[..], loc)
    modifies b, mu, sigma
    ensures v == NrmStep(o, m, p, s).1
    ensures !v.Fail? ==> NrmStep(o, m, p, s).0 == Nrm(Columns(b), mu[..], sigma[..], next)
  {
    var tr := TracesOf(o, p.theta, p.acols, b, p.ncat, p.table);
    var e := o.estep(tr, p.persons, p.theta, loc.r, mu[..], sigma[..]);
    next := loc.(thetabar := e.thetabar, r := e.r, ll := e.ll);
    if loc.oldLL.Some? && e.ll < loc.oldLL.value {
      return next, Halt(2);
    }
    var errs, maxd := FitItemsNrm(o, p, e.r, b, s.b);
    next := next.(minError := loc.minError + errs, maxdif := Some(maxd));
    if next.minError > 0 {
      return next, Halt(1);
    }
    var ok := NrmUpdateGroups(m, mu, sigma, e.sumTheta, e.sumSig2, p.gn, p.ref);
    if !ok {
      return next, Fail(EmptyGroup);
    }
    if maxd < MinChange {
      return next, Halt(0);
    }
    next := next.(oldLL := Some(e.ll));
    v := Go;
  }

  /** The loop of `estimate_nrm` on the driver's buffers, from the state
      `s0` they hold. */
  method NrmLoop(o: NrmOracles, m: Math, p: Problem, b: array2<real>, mu: array<real>, sigma: array<real>,
                 maxIter: int, ghost s0: Nrm)
    returns (loc: Locals, iter: nat, code: int, err: Option<string>)
    requires mu != sigma && Fits(o, p, s0) && s0 == NrmStart(p, Columns(b), mu[..], sigma[..])
    modifies b, mu, sigma
    ensures var run := NrmRun(o, m, p, maxIter, s0);
            (err.None? <==> run.Success?) && (run.Failure? ==> err == Some(run.error))
            && (run.Success? ==> run.value == (Nrm(Columns(b), mu[..], sigma[..], loc), iter, code))
  {
    loc := Locals(Zeros(|p.persons.pni|), RBuffers(|p.theta|, p.ncat), 0.0, None, 0, None);
    iter, code, err := 0, 0, None;
    ghost var step := Stepper(o, m, p);
    ghost var st := s0;
    while iter < maxIter
      invariant st == Nrm(Columns(b), mu[..], sigma[..], loc) && Fits(o, p, st)
      invariant Run(step, maxIter, 0, s0) == Run(step, maxIter, iter, st)
      decreases maxIter - iter
    {
      var v;
      loc, v := LoopPass(o, m, p, b, mu, sigma, maxIter, iter, loc, st);
      if v.Fail? {
        return loc, iter, 0, Some(v.error);
      }
      if v.Halt? {
        return loc, iter, v.code, None;
      }
      st := Nrm(Columns(b), mu[..], sigma[..], loc);
      iter := iter + 1;
    }
  }

  /** One pass as a step of `Run`: a failure or a break ends the run
      there, otherwise the run goes on from the new state. */
  method LoopPass(o: NrmOracles, m: Math, p: Problem, b: array2<real>, mu: array<real>, sigma: array<real>,
                  maxIter: int, iter: nat, loc: Locals, ghost st: Nrm)
    returns (next: Locals, v: Verdict)
    requires iter < maxIter && mu != sigma && Fits(o, p, st) && st == Nrm(Columns(b), mu[..], sigma[..], loc)
    modifies b, mu, sigma
    ensures var run, st' := Run(Stepper(o, m, p), maxIter, iter, st), Nrm(Columns(b), mu[..], sigma[..], next);
            (v.Fail? ==> run == Failure(v.error))
            && (v.Halt? ==> run == Success((st', iter, v.code)))
            && (v.Go? ==> run == Run(Stepper(o, m, p), maxIter, iter + 1, st') && Fits(o, p, st'))
  {
    ghost var step := Stepper(o, m, p);
    assert step(st) == NrmStep(o, m, p, st);
    next, v := NrmIteration(o, m, p, b, mu, sigma, loc, st);
    if v.Fail? {
      RunFails(step, maxIter, iter, st);
    } else if v.Halt? {
      RunHalts(step, maxIter, iter, st);
    } else {
      RunGoes(step, maxIter, iter, st);
    }
  }

  /** `mat b = b_start`. */
  method CopyMatrix(src: array2<real>) returns (dst: array2<real>)
    ensures fresh(dst) && dst.Length0 == src.Length0 && dst.Length1 == src.Length1
    ensures Columns(dst) == Columns(src)
  {
    dst := new real[src.Length0, src.Length1]((t, i) requires 0 <= t < src.Length0 && 0 <= i < src.Length1 reads src =>
                                                src[t, i]);
    ColumnsAre(dst, Columns(src));
  }

  /** `loglikelihood_nrm`. */
  method LoglikelihoodNRM(o: NrmOracles, m: Math, a: array2<int>, b: array2<real>, ncat: seq<int>,
                          persons: Persons, theta: Vec, mu: Vec, sigma: Vec)
    returns (ll: real)
    requires a.Length0 > 0 && a.Length1 > 0 && MaxScore(IntColumns(a)) >= 0
    requires |ncat| <= a.Length1 && |ncat| <= b.Length1
    ensures ll == LoglikSpec(o, m, IntColumns(a), Columns(b), ncat, persons, theta, mu, sigma)
  {
    var maxA := MaxEntry(a);
    var e := ExpTable(m, maxA, theta);
    var tr := TracesOf(o, theta, IntColumns(a), b, ncat, Rows(e));
    ll := o.loglik(tr, persons, theta, mu, sigma);
  }

  /** The inputs of every pass: `exp_at` from the largest score. */
  ghost function NrmProblem(m: Math, acols: seq<seq<int>>, ncat: seq<int>, fixed: seq<int>, persons: Persons,
                            theta: Vec, gn: seq<int>, ref: int): Problem
    requires |acols| > 0 && |acols[0]| > 0
  {
    Problem(acols, ncat, fixed, persons, theta, gn, ref, ExpAt(m, MaxScore(acols), theta))
  }

  /** The table and the copies of the start values `estimate_nrm` works on. */
  method NrmBuffers(o: NrmOracles, m: Math, a: array2<int>, bStart: array2<real>, ncat: seq<int>,
                    persons: Persons, theta: Vec, muStart: Vec, sigmaStart: Vec, gn: seq<int>,
                    fixed: seq<int>, ref: int)
    returns (p: Problem, b: array2<real>, mu: array<real>, sigma: array<real>)
    requires NrmInputs(o, IntColumns(a), Columns(bStart), ncat, fixed, muStart, sigmaStart, gn)
    ensures fresh(b) && fresh(mu) && fresh(sigma) && mu != sigma && b.Length1 == |ncat|
    ensures p == NrmProblem(m, IntColumns(a), ncat, fixed, persons, theta, gn, ref)
    ensures NrmStart(p, Columns(b), mu[..], sigma[..]) == NrmStart(p, Columns(bStart), muStart, sigmaStart)
    ensures Fits(o, p, NrmStart(p, Columns(bStart), muStart, sigmaStart))
  {
    var maxA := MaxEntry(a);
    var e := ExpTable(m, maxA, theta);
    p := Problem(IntColumns(a), ncat, fixed, persons, theta, gn, ref, Rows(e));
    b := CopyMatrix(bStart);
    mu := FromSeq(muStart);
    sigma := FromSeq(sigmaStart);
  }

  /** `estimate_nrm`. The score matrix `a` is only read. */
  method EstimateNRM(o: NrmOracles, m: Math, a: array2<int>, bStart: array2<real>, ncat: seq<int>,
                     persons: Persons, theta: Vec, muStart: Vec, sigmaStart: Vec, gn: seq<int>,
                     fixed: seq<int>, ref: int, maxIter: int)
    returns (res: Result<NrmOut>)
    requires NrmInputs(o, IntColumns(a), Columns(bStart), ncat, fixed, muStart, sigmaStart, gn)
    ensures res == NrmSpec(o, m, IntColumns(a), Columns(bStart), ncat, persons, theta, muStart, sigmaStart,
                           gn, fixed, ref, maxIter)
  {
    var p, b, mu, sigma := NrmBuffers(o, m, a, bStart, ncat, persons, theta, muStart, sigmaStart, gn, fixed, ref);
    ghost var s0 := NrmStart(p, Columns(bStart), muStart, sigmaStart);
    var loc, iter, code, err := NrmLoop(o, m, p, b, mu, sigma, maxIter, s0);
    if err.Some? {
      return Failure(err.value);
    }
    var stop := code + if iter >= maxIter - 1 then 4 else 0;
    var ll := LoglikelihoodNRM(o, m, a, b, ncat, persons, theta, mu[..], sigma[..]);
    res := Success(NrmOut(Columns(b), loc.thetabar, mu[..], sigma[..], ll, iter, stop, loc.maxdif));
  }

  // ---------------------------------------------------------------------
  // Properties.
  // ---------------------------------------------------------------------

  /** What the item loop leaves in column `i`: row 0 and the rows from
      `ncat[i]` on as they were, the whole column when the item is fixed,
      and otherwise the free rows as `D1min` (two categories) or `nlm`
      (any other count) left them, started from the old free rows. */
  ghost predicate Refit(o: NrmOracles, p: Problem, r: seq<Mat>, b: seq<Vec>, col: Vec, i: int)
    requires PassInputs(o, p, r, b) && 0 <= i < |b|
  {
    var nc := p.ncat[i];
    |col| == |b[i]| && col[0] == b[i][0]
    && (forall t :: nc <= t < |col| ==> col[t] == b[i][t])
    && (p.fixed[i] == 1 ==> col == b[i])
    && (p.fixed[i] != 1 && nc == 2 ==>
          col[1..nc] == o.d1min(MinimizerTol, p.acols[i], p.table, r[i], b[i][1..nc]).pars)
    && (p.fixed[i] != 1 && nc != 2 ==>
          col[1..nc] == o.nlm(MinimizerTol, p.acols[i], p.table, r[i], b[i][1..nc]).pars)
  }

  lemma {:induction false} ItemsPassPointwise(o: NrmOracles, p: Problem, r: seq<Mat>, b: seq<Vec>, k: int)
    requires PassInputs(o, p, r, b) && 0 <= k <= |b|
    ensures forall i :: 0 <= i < k ==> Refit(o, p, r, b, ItemsPass(o, p, r, b, k).cols[i], i)
    decreases k
  {
    if k > 0 {
      var i := k - 1;
      ItemsPassPointwise(o, p, r, b, i);
      PassStep(o, p, r, b, i);
      var col := ItemsPass(o, p, r, b, k).cols[i];
      if p.fixed[i] != 1 {
        var f := FitNrm(o, p, r[i], b[i], i);
        assert col[1..p.ncat[i]] == f.pars;
      }
    }
  }

  /** The running maximum is at least where it starts and every change,
      and is where it starts or one of the changes. */
  lemma {:induction false} DifFromBounds(acc: real, x: Vec, y: Vec)
    requires |x| == |y|
    ensures DifFrom(acc, x, y) >= acc
    ensures forall k :: 0 <= k < |x| ==> Abs(x[k] - y[k]) <= DifFrom(acc, x, y)
    ensures DifFrom(acc, x, y) == acc || exists k :: 0 <= k < |x| && DifFrom(acc, x, y) == Abs(x[k] - y[k])
    decreases |x|
  {
    if |x| > 0 {
      var n := |x| - 1;
      DifFromBounds(acc, x[..n], y[..n]);
      forall k | 0 <= k < n
        ensures Abs(x[k] - y[k]) <= DifFrom(acc, x, y)
      {
        assert x[..n][k] == x[k] && y[..n][k] == y[k];
      }
      if DifFrom(acc, x, y) != acc && DifFrom(acc, x, y) == DifFrom(acc, x[..n], y[..n]) {
        var k :| 0 <= k < n && DifFrom(acc, x[..n], y[..n]) == Abs(x[..n][k] - y[..n][k]);
        assert x[..n][k] == x[k] && y[..n][k] == y[k];
      }
    }
  }

  /** The change of row `t` of column `i` in the item loop. */
  ghost function Change(b: seq<Vec>, cols: seq<Vec>, i: int, t: int): real
    requires 0 <= i < |b| && i < |cols| && 0 <= t < |b[i]| && t < |cols[i]|
  {
    Abs(b[i][t] - cols[i][t])
  }

  /** `maxdif_b` is not negative, bounds the change of every free row of
      every item, and is 0 or one of those changes. */
  lemma {:induction false} ItemsPassDif(o: NrmOracles, p: Problem, r: seq<Mat>, b: seq<Vec>, k: int)
    requires PassInputs(o, p, r, b) && 0 <= k <= |b|
    ensures var q := ItemsPass(o, p, r, b, k);
            q.dif >= 0.0
            && (forall i, t :: 0 <= i < k && 1 <= t < p.ncat[i] ==> Change(b, q.cols, i, t) <= q.dif)
            && (q.dif == 0.0 || exists i, t :: 0 <= i < k && 1 <= t < p.ncat[i] && q.dif == Change(b, q.cols, i, t))
    decreases k
  {
    if k > 0 {
      var i := k - 1;
      ItemsPassDif(o, p, r, b, i);
      PassStep(o, p, r, b, i);
      var q, q1 := ItemsPass(o, p, r, b, i), ItemsPass(o, p, r, b, k);
      forall j, t | 0 <= j < i && 1 <= t < p.ncat[j]
        ensures Change(b, q1.cols, j, t) == Change(b, q.cols, j, t)
      {
      }
      var nc := p.ncat[i];
      if p.fixed[i] == 1 {
        forall t | 1 <= t < nc
          ensures Change(b, q1.cols, i, t) == 0.0
        {
        }
      } else {
        ReplacedDif(b, q1.cols, i, nc, FitNrm(o, p, r[i], b[i], i).pars, q.dif);
      }
    }
  }

  /** `DifFromBounds` for a column whose free rows were replaced. */
  lemma ReplacedDif(b: seq<Vec>, cols: seq<Vec>, i: int, nc: int, pars: Vec, acc: real)
    requires 0 <= i < |b| && i < |cols| && 1 <= nc <= |b[i]| && |pars| == nc - 1
    requires cols[i] == Replaced(b[i], pars, nc)
    ensures var d := DifFrom(acc, b[i][1..nc], pars);
            d >= acc && (forall t :: 1 <= t < nc ==> Change(b, cols, i, t) <= d)
            && (d == acc || exists t :: 1 <= t < nc && d == Change(b, cols, i, t))
  {
    var x := b[i][1..nc];
    DifFromBounds(acc, x, pars);
    forall t | 1 <= t < nc
      ensures Change(b, cols, i, t) == Abs(x[t - 1] - pars[t - 1])
    {
    }
    var d := DifFrom(acc, x, pars);
    if d != acc {
      var u :| 0 <= u < |x| && d == Abs(x[u] - pars[u]);
      assert d == Change(b, cols, i, u + 1);
    }
  }

  /** The group update exists exactly when no group is empty. Every group
      other than the reference group then has a mean that times its size
      gives back its sum, and the second-moment sd about that mean; the
      reference group has mean 0 and the second-moment sd about 0. */
  lemma NrmGroups(m: Math, sumTheta: Vec, sumSig2: Vec, gn: seq<int>, ref: int)
    requires |sumTheta| == |sumSig2| == |gn|
    ensures NrmGroupUpdate(m, sumTheta, sumSig2, gn, ref).Some? <==> forall g :: 0 <= g < |gn| ==> gn[g] != 0
    ensures var u := NrmGroupUpdate(m, sumTheta, sumSig2, gn, ref);
            u.Some? ==>
              (forall g :: 0 <= g < |gn| && g != ref ==>
                 u.value.0[g] * gn[g] as real == sumTheta[g] && u.value.1[g] == Sd(m, sumSig2[g], gn[g], u.value.0[g]))
              && (0 <= ref < |gn| ==> u.value.0[ref] == 0.0 && u.value.1[ref] == Sd(m, sumSig2[ref], gn[ref], 0.0))
  {
    var u := NrmGroupUpdate(m, sumTheta, sumSig2, gn, ref);
    if u.Some? && 0 <= ref < |gn| {
      assert sumSig2[ref] / gn[ref] as real - 0.0 * 0.0 == sumSig2[ref] / gn[ref] as real;
    }
  }

  /** Column `c` of item `i` still has the `c0`'s row 0 and rows from
      `ncat[i]` on, and all of `c0` when the item is fixed. */
  ghost predicate KeptColumn(p: Problem, c0: Vec, c: Vec, i: int)
    requires 0 <= i < |p.ncat| && i < |p.fixed|
  {
    |c| == |c0| && (|c0| > 0 ==> c[0] == c0[0])
    && (forall t :: 0 <= t < |c| && p.ncat[i] <= t ==> c[t] == c0[t])
    && (p.fixed[i] == 1 ==> c == c0)
  }

  /** Every column of `b` is kept from `b0`. */
  ghost predicate Kept(p: Problem, b0: seq<Vec>, b: seq<Vec>)
  {
    |b| == |b0| && |b0| <= |p.ncat| && |b0| <= |p.fixed|
    && forall i :: 0 <= i < |b| ==> KeptColumn(p, b0[i], b[i], i)
  }

  /** What holds of the state after a `break` with `code`: 0 when no free
      parameter moved by `MinChange`, 1 when a minimizer reported an error,
      2 when the likelihood fell below `old_ll`. */
  ghost function Halted(): (Nrm, int) -> bool
  {
    (c: Nrm, code: int) =>
      (code == 0 && c.loc.maxdif.Some? && c.loc.maxdif.value < MinChange)
      || (code == 1 && c.loc.minError > 0)
      || (code == 2 && c.loc.oldLL.Some? && c.loc.ll < c.loc.oldLL.value)
  }

  /** What one pass does to the loop state. A `break` has code 0, 1 or 2
      and leaves `old_ll`; a drop of the likelihood, impossible in the first
      pass, leaves `b`, `mu` and `sigma`; a minimizer error leaves `mu` and
      `sigma`; only a pass that goes on sets `old_ll`, to its `ll`. Every
      pass keeps each column's row 0, its rows from `ncat[i]` on, and the
      columns of fixed items. */
  lemma NrmStepFacts(o: NrmOracles, m: Math, p: Problem, s: Nrm)
    requires Fits(o, p, s)
    ensures var c := NrmStep(o, m, p, s);
            (c.1.Halt? ==> Halted()(c.0, c.1.code))
            && (c.1 == Halt(2) ==> c.0.b == s.b && c.0.mu == s.mu && c.0.sigma == s.sigma && s.loc.oldLL.Some?)
            && (c.1 == Halt(1) ==> c.0.mu == s.mu && c.0.sigma == s.sigma)
            && (!c.1.Go? ==> c.0.loc.oldLL == s.loc.oldLL)
            && (c.1.Go? ==> c.0.loc.oldLL == Some(c.0.loc.ll) && c.0.loc.maxdif.Some?
                              && c.0.loc.maxdif.value >= MinChange && c.0.loc.minError <= 0)
            && Kept(p, s.b, c.0.b)
  {
    var e := o.estep(Traces(o, p.theta, p.acols, s.b, p.ncat, p.table), p.persons, p.theta, s.loc.r, s.mu, s.sigma);
    ItemsPassPointwise(o, p, e.r, s.b, |s.b|);
    var q := ItemsPass(o, p, e.r, s.b, |s.b|);
    forall i | 0 <= i < |s.b|
      ensures KeptColumn(p, s.b[i], q.cols[i], i)
    {
      assert Refit(o, p, e.r, s.b, q.cols[i], i);
    }
  }

  /** `Kept` composes. */
  lemma KeptTrans(p: Problem, b0: seq<Vec>, b1: seq<Vec>, b2: seq<Vec>)
    requires Kept(p, b0, b1) && Kept(p, b1, b2)
    ensures Kept(p, b0, b2)
  {
    forall i | 0 <= i < |b2|
      ensures KeptColumn(p, b0[i], b2[i], i)
    {
      assert KeptColumn(p, b0[i], b1[i], i) && KeptColumn(p, b1[i], b2[i], i);
    }
  }

  /** The states kept from `b0`. */
  ghost function KeptFrom(o: NrmOracles, p: Problem, b0: seq<Vec>): Nrm -> bool
  {
    (t: Nrm) => Fits(o, p, t) && Kept(p, b0, t.b)
  }

  /** `NrmStepFacts` for every state of the loop. */
  lemma StepKeeps(o: NrmOracles, m: Math, p: Problem, b0: seq<Vec>)
    ensures var step, inv := Stepper(o, m, p), KeptFrom(o, p, b0);
            (forall t :: inv(t) ==> inv(step(t).0))
            && (forall t :: inv(t) && step(t).1.Halt? ==> Halted()(step(t).0, step(t).1.code))
  {
    var step, inv := Stepper(o, m, p), KeptFrom(o, p, b0);
    forall t | inv(t)
      ensures inv(step(t).0) && (step(t).1.Halt? ==> Halted()(step(t).0, step(t).1.code))
    {
      NrmStepFacts(o, m, p, t);
      KeptTrans(p, b0, t.b, step(t).0.b);
    }
  }

  /** What a successful `estimate_nrm` returns: `err` is one of 0, 1, 2, 4,
      5, 6, so a minimizer error and a likelihood drop never both count;
      it holds 4 exactly when at least `max_iter - 1` passes completed;
      at most `max_iter` passes complete, and fewer with no 1 or 2 only when
      the last pass moved no free parameter by `MinChange`. Every column of
      `b` keeps its row 0 and its rows from `ncat[i]` on, and the columns of
      fixed items are those of `b_start`. */
  lemma NrmResult(o: NrmOracles, m: Math, acols: seq<seq<int>>, bStart: seq<Vec>, ncat: seq<int>,
                  persons: Persons, theta: Vec, muStart: Vec, sigmaStart: Vec, gn: seq<int>,
                  fixed: seq<int>, ref: int, maxIter: int)
    requires NrmInputs(o, acols, bStart, ncat, fixed, muStart, sigmaStart, gn)
    requires NrmSpec(o, m, acols, bStart, ncat, persons, theta, muStart, sigmaStart, gn, fixed, ref, maxIter).Success?
    ensures var v := NrmSpec(o, m, acols, bStart, ncat, persons, theta, muStart, sigmaStart, gn, fixed, ref, maxIter).value;
            (v.err == 0 || v.err == 1 || v.err == 2 || v.err == 4 || v.err == 5 || v.err == 6)
            && (v.err >= 4 <==> v.niter >= maxIter - 1)
            && 0 <= v.niter && (maxIter >= 0 ==> v.niter <= maxIter)
            && (v.err % 4 == 0 && v.niter < maxIter ==> v.maxdifB.Some? && v.maxdifB.value < MinChange)
            && Kept(NrmProblem(m, acols, ncat, fixed, persons, theta, gn, ref), bStart, v.b)
  {
    var p := NrmProblem(m, acols, ncat, fixed, persons, theta, gn, ref);
    var s0 := NrmStart(p, bStart, muStart, sigmaStart);
    NrmRunEnds(o, m, p, maxIter, s0);
    var fin, iter, code := NrmRun(o, m, p, maxIter, s0).value.0, NrmRun(o, m, p, maxIter, s0).value.1,
                           NrmRun(o, m, p, maxIter, s0).value.2;
    StopCode(iter, code, maxIter, fin.loc.maxdif);
  }

  /** How the loop ends: after at most `maxIter` passes, before that only
      on a `break` and then as `Halted` says, and with every column kept
      from the start. */
  lemma NrmRunEnds(o: NrmOracles, m: Math, p: Problem, maxIter: int, s0: Nrm)
    requires Fits(o, p, s0) && |s0.b| <= |p.ncat| && |s0.b| <= |p.fixed|
    requires NrmRun(o, m, p, maxIter, s0).Success?
    ensures var v := NrmRun(o, m, p, maxIter, s0).value;
            0 <= v.1 && (v.1 <= maxIter || v.1 == 0)
            && (v.1 < maxIter ==>
                  (v.2 == 0 && v.0.loc.maxdif.Some? && v.0.loc.maxdif.value < MinChange) || v.2 == 1 || v.2 == 2)
            && (v.1 >= maxIter ==> v.2 == 0)
            && Kept(p, s0.b, v.0.b)
  {
    var run := NrmRun(o, m, p, maxIter, s0);
    assert run == Run(Stepper(o, m, p), maxIter, 0, s0);
    StepKeeps(o, m, p, s0.b);
    assert Kept(p, s0.b, s0.b);
    RunKeeps(Stepper(o, m, p), KeptFrom(o, p, s0.b), maxIter, 0, s0);
    RunEnds(Stepper(o, m, p), KeptFrom(o, p, s0.b), Halted(), maxIter, 0, s0);
    assert run.value.1 < maxIter ==> Halted()(run.value.0, run.value.2);
    assert KeptFrom(o, p, s0.b)(run.value.0);
  }

  /** The additive `stop` code from the loop's final `iter` and `break` code. */
  lemma StopCode(iter: int, code: int, maxIter: int, maxdif: Option<real>)
    requires iter < maxIter ==> (code == 0 && maxdif.Some? && maxdif.value < MinChange) || code == 1 || code == 2
    requires iter >= maxIter ==> code == 0
    ensures var err := code + (if iter >= maxIter - 1 then 4 else 0);
            (err == 0 || err == 1 || err == 2 || err == 4 || err == 5 || err == 6)
            && (err >= 4 <==> iter >= maxIter - 1)
            && (err % 4 == 0 && iter < maxIter ==> maxdif.Some? && maxdif.value < MinChange)
  {
  }
}
