/** The two 2PL EM drivers: `estimate_2pl_dich`, a fixed number of
    single-group cycles, and `estimate_2pl_dich_multigroup`, which pins a
    reference group, stops on convergence and ends with the observed
    information layout `obs`. */
module EM2PL {
  import opened Common
  import opened Quadrature
  import opened Responses
  import opened EStep2PL
  import opened EStepProperties
  import opened Item2PL
  import opened MStep2PL

  /** `max_iter` of `estimate_2pl_dich`. */
  const FixedIterations: nat := 60
  /** `max_iter` of the multigroup driver and its convergence threshold. */
  const MaxIter: nat := 100
  const Tol: real := 0.0001

  /** The error a degenerate E-step reports (NaN in the source), and the one
      an empty non-reference group reports (a division by zero there). */
  const Degenerate := "degenerate posterior"
  const EmptyGroup := "empty group"

  /** A copy of a vector, as `vec a(a_start.memptr(), nit)` makes. */
  method FromSeq(v: Vec) returns (arr: array<real>)
    ensures fresh(arr) && arr[..] == v
  {
    arr := new real[|v|](i requires 0 <= i < |v| => v[i]);
  }

  function Zeros(n: nat): (z: Vec)
    ensures |z| == n && forall i :: 0 <= i < n ==> z[i] == 0.0
  {
    seq(n, i => 0.0)
  }

  /** A matrix's columns are the given vectors. */
  lemma ColumnsAre(mat: array2<real>, cols: seq<Vec>)
    requires |cols| == mat.Length1 && forall i :: 0 <= i < |cols| ==> |cols[i]| == mat.Length0
    requires forall t, i :: 0 <= t < mat.Length0 && 0 <= i < mat.Length1 ==> mat[t, i] == cols[i][t]
    ensures Columns(mat) == cols
  {
    forall i | 0 <= i < |cols|
      ensures Column(mat, i) == cols[i]
    {
    }
  }

  // ---------------------------------------------------------------------
  // `estimate_2pl_dich`: 60 single-group cycles.
  // ---------------------------------------------------------------------

  /** What the single-group driver returns. */
  datatype FixedOut = FixedOut(a: Vec, b: Vec, thetabar: Vec, sumsig2: real)

  ghost predicate SingleInputs(m: Math, a: Vec, b: Vec, r: Responses, theta: Vec)
  {
    m.ExpPositive() && |theta| >= 2 && |a| == |b| && r.Valid(|a|)
  }

  /** One cycle: the single-group E-step under N(mu, sigma), then one fit
      per item from its current parameters. */
  ghost function SingleCycle(m: Math, fit: Minimizer, r: Responses, theta: Vec, mu: real, sigma: real,
                             a: Vec, b: Vec): (c: Result<FixedOut>)
    requires SingleInputs(m, a, b, r, theta)
    ensures c.Success? ==> |c.value.a| == |c.value.b| == |a|
  {
    var e := EStepSpec(m, a, b, r, theta, [mu], [sigma], SingleGroup(r.Persons()));
    if e.None? then Failure(Degenerate)
    else
      match ItemFits(fit, a, b, e.value.r0, e.value.r1, theta, |a|)
      case Failure(err) => Failure(err)
      case Success(ps) => Success(FixedOut(As(ps), Bs(ps), e.value.thetabar, e.value.sumSig2[0]))
  }

  /** One cycle as a step of the loop state. */
  ghost function Cycler(m: Math, fit: Minimizer, r: Responses, theta: Vec, mu: real, sigma: real)
    : FixedOut -> Result<FixedOut>
  {
    (s: FixedOut) =>
      if SingleInputs(m, s.a, s.b, r, theta) then SingleCycle(m, fit, r, theta, mu, sigma, s.a, s.b)
      else Failure(Degenerate)
  }

  /** `k` more steps of `cycle` from `s`; the first failure ends the run. */
  ghost function Cycles(cycle: FixedOut -> Result<FixedOut>, k: nat, s: FixedOut): Result<FixedOut>
    decreases k
  {
    if k == 0 then Success(s)
    else
      match cycle(s)
      case Failure(err) => Failure(err)
      case Success(c) => Cycles(cycle, k - 1, c)
  }

  /** `k` more cycles from `(a, b)`; with none left, the current state. */
  ghost function FixedRun(m: Math, fit: Minimizer, r: Responses, theta: Vec, mu: real, sigma: real,
                          k: nat, a: Vec, b: Vec, thetabar: Vec, sumsig2: real): Result<FixedOut>
    requires SingleInputs(m, a, b, r, theta)
  {
    Cycles(Cycler(m, fit, r, theta, mu, sigma), k, FixedOut(a, b, thetabar, sumsig2))
  }

  /** A successful run of at least one step is the output of its last step. */
  lemma {:induction false} CyclesLast(cycle: FixedOut -> Result<FixedOut>, k: nat, s: FixedOut) returns (last: FixedOut)
    requires k > 0 && Cycles(cycle, k, s).Success?
    ensures cycle(last) == Cycles(cycle, k, s)
    decreases k
  {
    var c := cycle(s).value;
    if k == 1 {
      last := s;
    } else {
      last := CyclesLast(cycle, k - 1, c);
    }
  }

  /** `estimate_2pl_dich`: the 60-cycle run from the starting values. */
  ghost function FixedSpec(m: Math, fit: Minimizer, r: Responses, theta: Vec, mu: real, sigma: real,
                           aStart: Vec, bStart: Vec): Result<FixedOut>
    requires SingleInputs(m, aStart, bStart, r, theta)
  {
    FixedRun(m, fit, r, theta, mu, sigma, FixedIterations, aStart, bStart, Zeros(r.Persons()), 0.0)
  }

  method Estimate2PLDich(m: Math, fit: Minimizer, aStart: Vec, bStart: Vec, r: Responses, theta: Vec,
                         mu: real, sigma: real) returns (res: Result<FixedOut>)
    requires SingleInputs(m, aStart, bStart, r, theta)
    ensures res == FixedSpec(m, fit, r, theta, mu, sigma, aStart, bStart)
  {
    var nit, nt, np := |aStart|, |theta|, r.Persons();
    var a := FromSeq(aStart);
    var b := FromSeq(bStart);
    var r0 := new real[nt, nit]((t, i) => 0.0);
    var r1 := new real[nt, nit]((t, i) => 0.0);
    var thetabar := new real[np](p => 0.0);
    var sumsig2 := 0.0;
    assert thetabar[..] == Zeros(np);
    ghost var left: nat := FixedIterations;
    for iter := 0 to FixedIterations
      invariant left == FixedIterations - iter
      invariant SingleInputs(m, a[..], b[..], r, theta)
      invariant FixedSpec(m, fit, r, theta, mu, sigma, aStart, bStart)
                == FixedRun(m, fit, r, theta, mu, sigma, left, a[..], b[..], thetabar[..], sumsig2)
    {
      ghost var a0, b0, tb0, ss0 := a[..], b[..], thetabar[..], sumsig2;
      var err;
      sumsig2, err := SingleCycleStep(m, fit, r, theta, mu, sigma, a, b, r0, r1, thetabar);
      if err.Some? {
        FixedRunFails(m, fit, r, theta, mu, sigma, left, a0, b0, tb0, ss0);
        return Failure(err.value);
      }
      FixedRunStep(m, fit, r, theta, mu, sigma, left, a0, b0, tb0, ss0, FixedOut(a[..], b[..], thetabar[..], sumsig2));
      left := left - 1;
    }
    res := Success(FixedOut(a[..], b[..], thetabar[..], sumsig2));
  }

  lemma FixedRunStep(m: Math, fit: Minimizer, r: Responses, theta: Vec, mu: real, sigma: real,
                     k: nat, a: Vec, b: Vec, thetabar: Vec, sumsig2: real, c: FixedOut)
    requires SingleInputs(m, a, b, r, theta) && k > 0
    requires SingleCycle(m, fit, r, theta, mu, sigma, a, b) == Success(c)
    ensures SingleInputs(m, c.a, c.b, r, theta)
    ensures FixedRun(m, fit, r, theta, mu, sigma, k, a, b, thetabar, sumsig2)
            == FixedRun(m, fit, r, theta, mu, sigma, k - 1, c.a, c.b, c.thetabar, c.sumsig2)
  {
  }

  lemma FixedRunFails(m: Math, fit: Minimizer, r: Responses, theta: Vec, mu: real, sigma: real,
                      k: nat, a: Vec, b: Vec, thetabar: Vec, sumsig2: real)
    requires SingleInputs(m, a, b, r, theta) && k > 0
    requires SingleCycle(m, fit, r, theta, mu, sigma, a, b).Failure?
    ensures FixedRun(m, fit, r, theta, mu, sigma, k, a, b, thetabar, sumsig2)
            == Failure(SingleCycle(m, fit, r, theta, mu, sigma, a, b).error)
  {
  }

  /** The body of the single-group loop on the driver's buffers. */
  method SingleCycleStep(m: Math, fit: Minimizer, r: Responses, theta: Vec, mu: real, sigma: real,
                         a: array<real>, b: array<real>, r0: array2<real>, r1: array2<real>, thetabar: array<real>)
    returns (sumsig2: real, err: Option<string>)
    requires SingleInputs(m, a[..], b[..], r, theta) && a != b && r0 != r1
    requires r0.Length0 == r1.Length0 == |theta| && r0.Length1 == r1.Length1 == a.Length
    requires thetabar.Length == r.Persons() && thetabar != a && thetabar != b
    modifies a, b, r0, r1, thetabar
    ensures var c := SingleCycle(m, fit, r, theta, mu, sigma, old(a[..]), old(b[..]));
            (err.None? <==> c.Success?) && (c.Failure? ==> err == Some(c.error))
            && (c.Success? ==> c.value == FixedOut(a[..], b[..], thetabar[..], sumsig2))
  {
    ghost var a0, b0 := a[..], b[..];
    var ok;
    sumsig2, ok := EStepSingle(m, a[..], b[..], r, theta, r0, r1, thetabar, mu, sigma);
    if !ok {
      return 0.0, Some(Degenerate);
    }
    ghost var e := EStepSpec(m, a0, b0, r, theta, [mu], [sigma], SingleGroup(r.Persons())).value;
    ColumnsAre(r0, e.r0);
    ColumnsAre(r1, e.r1);
    var maxA, maxB;
    maxA, maxB, err := FitItems(fit, a, b, r0, r1, theta);
    SingleCycleIs(m, fit, r, theta, mu, sigma, a0, b0, e);
  }

  /** A single-group cycle whose E-step gives `e`. */
  lemma SingleCycleIs(m: Math, fit: Minimizer, r: Responses, theta: Vec, mu: real, sigma: real,
                      a: Vec, b: Vec, e: EStepOut)
    requires SingleInputs(m, a, b, r, theta)
    requires EStepSpec(m, a, b, r, theta, [mu], [sigma], SingleGroup(r.Persons())) == Some(e)
    ensures var f := ItemFits(fit, a, b, e.r0, e.r1, theta, |a|);
            SingleCycle(m, fit, r, theta, mu, sigma, a, b)
            == if f.Failure? then Failure(f.error)
               else Success(FixedOut(As(f.value), Bs(f.value), e.thetabar, e.sumSig2[0]))
  {
  }

  /** With an increasing grid and a monotone CDF, every posterior mean the
      driver returns lies between the first and the last node. */
  lemma FixedMeansWithinGrid(m: Math, fit: Minimizer, r: Responses, theta: Vec, mu: real, sigma: real,
                              k: nat, a: Vec, b: Vec, thetabar: Vec, sumsig2: real)
    requires SingleInputs(m, a, b, r, theta) && Increasing(theta) && CdfMonotone(m, mu, sigma) && k > 0
    requires FixedRun(m, fit, r, theta, mu, sigma, k, a, b, thetabar, sumsig2).Success?
    ensures var out := FixedRun(m, fit, r, theta, mu, sigma, k, a, b, thetabar, sumsig2).value;
            |out.thetabar| == r.Persons()
            && forall p :: 0 <= p < r.Persons() ==> theta[0] <= out.thetabar[p] <= theta[|theta| - 1]
  {
    var cycle := Cycler(m, fit, r, theta, mu, sigma);
    var last := CyclesLast(cycle, k, FixedOut(a, b, thetabar, sumsig2));
    assert SingleInputs(m, last.a, last.b, r, theta);
    CycleMeansWithinGrid(m, fit, r, theta, mu, sigma, last.a, last.b);
  }

  lemma CycleMeansWithinGrid(m: Math, fit: Minimizer, r: Responses, theta: Vec, mu: real, sigma: real, a: Vec, b: Vec)
    requires SingleInputs(m, a, b, r, theta) && Increasing(theta) && CdfMonotone(m, mu, sigma)
    requires SingleCycle(m, fit, r, theta, mu, sigma, a, b).Success?
    ensures var c := SingleCycle(m, fit, r, theta, mu, sigma, a, b).value;
            |c.thetabar| == r.Persons()
            && forall p :: 0 <= p < r.Persons() ==> theta[0] <= c.thetabar[p] <= theta[|theta| - 1]
  {
    MeansWithinGrid(m, a, b, r, theta, [mu], [sigma], SingleGroup(r.Persons()));
  }

  // ---------------------------------------------------------------------
  // `estimate_2pl_dich_multigroup`: cycles until both parameter changes
  // fall below the tolerance, at most 100 of them.
  // ---------------------------------------------------------------------

  /** The state the multigroup loop carries: the parameters, the last
      E-step's means, log-likelihood and `r0`/`r1` (by column), the last
      M-step's largest changes. */
  datatype Multi = Multi(a: Vec, b: Vec, mu: Vec, sigma: Vec, thetabar: Vec, ll: real,
                         r0: seq<Vec>, r1: seq<Vec>, maxA: real, maxB: real)

  ghost predicate MultiInputs(m: Math, r: Responses, theta: Vec, gn: seq<int>, pgroup: seq<int>, s: Multi)
  {
    Inputs(m, s.a, s.b, r, theta, s.mu, s.sigma, pgroup) && |gn| == |s.mu|
    && |s.thetabar| == r.Persons()
    && |s.r0| == |s.r1| == |s.a| && (forall i :: 0 <= i < |s.a| ==> |s.r0[i]| == |s.r1[i]| == |theta|)
  }

  /** One multigroup cycle from `s`: the E-step under every group's prior,
      one fit per item, then the group update. */
  ghost function Cycle(m: Math, fit: Minimizer, r: Responses, theta: Vec, gn: seq<int>, pgroup: seq<int>,
                       ref: int, s: Multi): (c: Result<Multi>)
    requires MultiInputs(m, r, theta, gn, pgroup, s)
    ensures c.Success? ==> MultiInputs(m, r, theta, gn, pgroup, c.value)
    ensures c.Success? ==> |c.value.a| == |s.a|
  {
    var e := EStepSpec(m, s.a, s.b, r, theta, s.mu, s.sigma, pgroup);
    if e.None? then Failure(Degenerate)
    else
      match ItemFits(fit, s.a, s.b, e.value.r0, e.value.r1, theta, |s.a|)
      case Failure(err) => Failure(err)
      case Success(ps) =>
        var u := GroupUpdate(m, e.value.sumTheta, e.value.sumSig2, gn, ref);
        if u.None? then Failure(EmptyGroup)
        else Success(Multi(As(ps), Bs(ps), u.value.0, u.value.1, e.value.thetabar, e.value.ll,
                           e.value.r0, e.value.r1, MaxDif(s.a, As(ps)), MaxDif(s.b, Bs(ps))))
  }

  /** The break test: both largest changes below the tolerance. */
  predicate Converged(s: Multi)
  {
    s.maxA < Tol && s.maxB < Tol
  }

  /** One multigroup cycle as a step of the loop state. */
  ghost function CycleStep(m: Math, fit: Minimizer, r: Responses, theta: Vec, gn: seq<int>, pgroup: seq<int>,
                           ref: int): Multi -> Result<Multi>
  {
    (s: Multi) => if MultiInputs(m, r, theta, gn, pgroup, s) then Cycle(m, fit, r, theta, gn, pgroup, ref, s)
         else Failure(Degenerate)
  }

  /** The loop with `left` cycles still allowed, one `step` per cycle: it
      stops after a converged cycle or once no cycle is left. The result
      pairs the final state with the cycles still left then, so the
      source's final `iter` is `MaxIter` minus that count. */
  ghost function Run(step: Multi -> Result<Multi>, left: nat, s: Multi): Result<(Multi, nat)>
  {
    if left == 0 then Success((s, 0))
    else
      match step(s)
      case Failure(err) => Failure(err)
      case Success(c) =>
        if Converged(c) then Success((c, left))
        else Run(step, left - 1, c)
  }

  /** The multigroup loop from `s`, with `left` cycles allowed. */
  ghost function MultiRun(m: Math, fit: Minimizer, r: Responses, theta: Vec, gn: seq<int>, pgroup: seq<int>,
                          ref: int, left: nat, s: Multi): (res: Result<(Multi, nat)>)
    requires MultiInputs(m, r, theta, gn, pgroup, s)
    ensures res.Success? ==> MultiInputs(m, r, theta, gn, pgroup, res.value.0) && |res.value.0.a| == |s.a|
  {
    StepKeeps(m, fit, r, theta, gn, pgroup, ref, |s.a|);
    RunKeeps(CycleStep(m, fit, r, theta, gn, pgroup, ref), Shape(m, r, theta, gn, pgroup, |s.a|),
             GroupsUpdated(r, gn, pgroup, ref), left, s);
    Run(CycleStep(m, fit, r, theta, gn, pgroup, ref), left, s)
  }

  function ZeroColumns(nit: nat, nt: nat): (cols: seq<Vec>)
    ensures |cols| == nit && forall i :: 0 <= i < nit ==> cols[i] == Zeros(nt)
  {
    seq(nit, i => Zeros(nt))
  }

  /** The observed-information layout: item `i`'s Hessian (the source's
      own `hess`, which is `hess(ab, h, false)` of the item objective) at
      `(i, i)`, `(nit + i, nit + i)` and, mirrored, `(i, nit + i)`. */
  function ObsHess(m: Math, a: Vec, b: Vec, r0: seq<Vec>, r1: seq<Vec>, theta: Vec): (hs: seq<Hess2>)
    requires m.ExpPositive() && |a| == |b| == |r0| == |r1|
    requires forall i :: 0 <= i < |a| ==> |r0[i]| == |r1[i]| == |theta|
    ensures |hs| == |a|
  {
    seq(|a|, i requires 0 <= i < |a| => Signed(HessAcc(m, a[i], b[i], r0[i], r1[i], theta, |theta|), false))
  }

  /** Entry `(k, l)` of `obs` once items `0 .. n` are placed. */
  function ObsEntry(hs: seq<Hess2>, n: int, k: int, l: int): real
    requires 0 <= n <= |hs|
  {
    var nit := |hs|;
    if 0 <= k < n && l == k then hs[k].h00
    else if 0 <= k - nit < n && l == k then hs[k - nit].h11
    else if 0 <= k < n && l == k + nit then hs[k].h01
    else if 0 <= l < n && k == l + nit then hs[l].h01
    else 0.0
  }

  function ObsMatrix(hs: seq<Hess2>): (obs: seq<seq<real>>)
    ensures |obs| == 2 * |hs| && forall k :: 0 <= k < |obs| ==> |obs[k]| == 2 * |hs|
  {
    seq(2 * |hs|, k => seq(2 * |hs|, l => ObsEntry(hs, |hs|, k, l)))
  }

  /** What the multigroup driver returns. */
  datatype MultiOut = MultiOut(a: Vec, b: Vec, thetabar: Vec, mu: Vec, sd: Vec, ll: real, niter: int,
                               obs: seq<seq<real>>)

  ghost function MultigroupStart(aStart: Vec, bStart: Vec, r: Responses, theta: Vec,
                                 muStart: Vec, sigmaStart: Vec): Multi
    requires r.Ranges()
  {
    Multi(aStart, bStart, muStart, sigmaStart, Zeros(r.Persons()), 0.0,
          ZeroColumns(|aStart|, |theta|), ZeroColumns(|aStart|, |theta|), 0.0, 0.0)
  }

  /** `estimate_2pl_dich_multigroup`: the loop from the starting values,
      then `obs` at the final parameters and expected counts. */
  ghost function MultigroupSpec(m: Math, fit: Minimizer, aStart: Vec, bStart: Vec, r: Responses, theta: Vec,
                                muStart: Vec, sigmaStart: Vec, gn: seq<int>, pgroup: seq<int>, ref: int): Result<MultiOut>
    requires Inputs(m, aStart, bStart, r, theta, muStart, sigmaStart, pgroup) && |gn| == |muStart|
  {
    var s0 := MultigroupStart(aStart, bStart, r, theta, muStart, sigmaStart);
    var run := MultiRun(m, fit, r, theta, gn, pgroup, ref, MaxIter, s0);
    if run.Failure? then Failure(run.error)
    else
      var s := run.value.0;
      Success(MultiOut(s.a, s.b, s.thetabar, s.mu, s.sigma, s.ll, MaxIter - run.value.1,
                       ObsMatrix(ObsHess(m, s.a, s.b, s.r0, s.r1, theta))))
  }

  // The in-place driver.

  /** Sizes of the driver's buffers, and no two of them alias. */
  ghost predicate Buffers(nit: int, nt: int, np: int, ng: int, a: array<real>, b: array<real>,
                          mu: array<real>, sigma: array<real>, thetabar: array<real>,
                          sumtheta: array<real>, sumsig2: array<real>, r0: array2<real>, r1: array2<real>)
  {
    a.Length == b.Length == nit && mu.Length == sigma.Length == sumtheta.Length == sumsig2.Length == ng
    && thetabar.Length == np && r0.Length0 == r1.Length0 == nt && r0.Length1 == r1.Length1 == nit && r0 != r1
    && a != b && a != mu && a != sigma && a != thetabar && a != sumtheta && a != sumsig2
    && b != mu && b != sigma && b != thetabar && b != sumtheta && b != sumsig2
    && mu != sigma && mu != thetabar && mu != sumtheta && mu != sumsig2
    && sigma != thetabar && sigma != sumtheta && sigma != sumsig2
    && thetabar != sumtheta && thetabar != sumsig2 && sumtheta != sumsig2
  }

  /** The loop state held by the driver's buffers. */
  function StateOf(a: array<real>, b: array<real>, mu: array<real>, sigma: array<real>, thetabar: array<real>,
                   ll: real, r0: array2<real>, r1: array2<real>, maxA: real, maxB: real): Multi
    reads a, b, mu, sigma, thetabar, r0, r1
  {
    Multi(a[..], b[..], mu[..], sigma[..], thetabar[..], ll, Columns(r0), Columns(r1), maxA, maxB)
  }

  /** The body of the multigroup loop on the driver's buffers. */
  method MultiCycleStep(m: Math, fit: Minimizer, r: Responses, theta: Vec, gn: seq<int>, pgroup: seq<int>, ref: int,
                        a: array<real>, b: array<real>, mu: array<real>, sigma: array<real>, thetabar: array<real>,
                        sumtheta: array<real>, sumsig2: array<real>, r0: array2<real>, r1: array2<real>,
                        ghost s: Multi)
    returns (ll: real, maxA: real, maxB: real, err: Option<string>)
    requires Buffers(|s.a|, |theta|, r.Persons(), |s.mu|, a, b, mu, sigma, thetabar, sumtheta, sumsig2, r0, r1)
    requires MultiInputs(m, r, theta, gn, pgroup, s)
    requires a[..] == s.a && b[..] == s.b && mu[..] == s.mu && sigma[..] == s.sigma
    modifies a, b, mu, sigma, thetabar, sumtheta, sumsig2, r0, r1
    ensures var c := Cycle(m, fit, r, theta, gn, pgroup, ref, s);
            (err.None? <==> c.Success?) && (c.Failure? ==> err == Some(c.error))
            && (c.Success? ==> c.value == StateOf(a, b, mu, sigma, thetabar, ll, r0, r1, maxA, maxB))
  {
    var ok;
    ll, ok := EStep(m, a[..], b[..], r, theta, r0, r1, thetabar, sumtheta, sumsig2, mu[..], sigma[..], pgroup);
    if !ok {
      return ll, 0.0, 0.0, Some(Degenerate);
    }
    ghost var e := EStepSpec(m, s.a, s.b, r, theta, s.mu, s.sigma, pgroup).value;
    ColumnsAre(r0, e.r0);
    ColumnsAre(r1, e.r1);
    CycleIs(m, fit, r, theta, gn, pgroup, ref, s, e);
    maxA, maxB, err := MultiMStep(m, fit, theta, gn, ref, a, b, mu, sigma, sumtheta, sumsig2, r0, r1, e);
  }

  /** The M-step half of a multigroup cycle, from the E-step output `e`
      the buffers hold: the item fits, then the group update. */
  method MultiMStep(m: Math, fit: Minimizer, theta: Vec, gn: seq<int>, ref: int,
                    a: array<real>, b: array<real>, mu: array<real>, sigma: array<real>,
                    sumtheta: array<real>, sumsig2: array<real>, r0: array2<real>, r1: array2<real>,
                    ghost e: EStepOut)
    returns (maxA: real, maxB: real, err: Option<string>)
    requires a != b && mu != sigma && a != mu && a != sigma && b != mu && b != sigma
    requires sumtheta != a && sumtheta != b && sumsig2 != a && sumsig2 != b
    requires a.Length == b.Length == r0.Length1 == r1.Length1
    requires mu.Length == sigma.Length == |gn| == sumtheta.Length == sumsig2.Length
    requires Columns(r0) == e.r0 && Columns(r1) == e.r1 && sumtheta[..] == e.sumTheta && sumsig2[..] == e.sumSig2
    modifies a, b, mu, sigma
    ensures var f := ItemFits(fit, old(a[..]), old(b[..]), e.r0, e.r1, theta, a.Length);
            var u := GroupUpdate(m, e.sumTheta, e.sumSig2, gn, ref);
            (f.Failure? ==> err == Some(f.error))
            && (f.Success? && u.None? ==> err == Some(EmptyGroup))
            && (f.Success? && u.Some? ==>
                  err.None? && a[..] == As(f.value) && b[..] == Bs(f.value) && mu[..] == u.value.0 && sigma[..] == u.value.1
                  && maxA == MaxDif(old(a[..]), As(f.value)) && maxB == MaxDif(old(b[..]), Bs(f.value)))
  {
    maxA, maxB, err := FitItems(fit, a, b, r0, r1, theta);
    if err.Some? {
      return;
    }
    var ok := UpdateGroups(m, mu, sigma, sumtheta[..], sumsig2[..], gn, ref);
    if !ok {
      err := Some(EmptyGroup);
    }
  }

  /** A multigroup cycle whose E-step gives `e`. */
  lemma CycleIs(m: Math, fit: Minimizer, r: Responses, theta: Vec, gn: seq<int>, pgroup: seq<int>, ref: int,
                s: Multi, e: EStepOut)
    requires MultiInputs(m, r, theta, gn, pgroup, s)
    requires EStepSpec(m, s.a, s.b, r, theta, s.mu, s.sigma, pgroup) == Some(e)
    ensures var f := ItemFits(fit, s.a, s.b, e.r0, e.r1, theta, |s.a|);
            var u := GroupUpdate(m, e.sumTheta, e.sumSig2, gn, ref);
            Cycle(m, fit, r, theta, gn, pgroup, ref, s)
            == if f.Failure? then Failure(f.error)
               else if u.None? then Failure(EmptyGroup)
               else Success(Multi(As(f.value), Bs(f.value), u.value.0, u.value.1, e.thetabar, e.ll, e.r0, e.r1,
                                  MaxDif(s.a, As(f.value)), MaxDif(s.b, Bs(f.value))))
  {
  }

  lemma RunFails(step: Multi -> Result<Multi>, left: nat, s: Multi)
    requires left > 0 && step(s).Failure?
    ensures Run(step, left, s) == Failure(step(s).error)
  {
  }

  lemma RunStep(step: Multi -> Result<Multi>, left: nat, s: Multi, c: Multi)
    requires left > 0 && step(s) == Success(c)
    ensures Converged(c) ==> Run(step, left, s) == Success((c, left))
    ensures !Converged(c) ==> Run(step, left, s) == Run(step, left - 1, c)
  {
  }

  /** The multigroup loop on the driver's buffers, from the state `s0`
      they hold: at most 100 cycles, stopping early once a cycle changes
      no `a` and no `b` by `Tol` or more. */
  method MultiLoop(m: Math, fit: Minimizer, r: Responses, theta: Vec, gn: seq<int>, pgroup: seq<int>, ref: int,
                   a: array<real>, b: array<real>, mu: array<real>, sigma: array<real>, thetabar: array<real>,
                   sumtheta: array<real>, sumsig2: array<real>, r0: array2<real>, r1: array2<real>, ghost s0: Multi)
    returns (ll: real, maxA: real, maxB: real, iter: int, err: Option<string>)
    requires Buffers(|s0.a|, |theta|, r.Persons(), |s0.mu|, a, b, mu, sigma, thetabar, sumtheta, sumsig2, r0, r1)
    requires MultiInputs(m, r, theta, gn, pgroup, s0)
    requires s0 == StateOf(a, b, mu, sigma, thetabar, 0.0, r0, r1, 0.0, 0.0)
    modifies a, b, mu, sigma, thetabar, sumtheta, sumsig2, r0, r1
    ensures var run := MultiRun(m, fit, r, theta, gn, pgroup, ref, MaxIter, s0);
            (err.None? <==> run.Success?) && (run.Failure? ==> err == Some(run.error))
            && (run.Success? ==> run.value.0 == StateOf(a, b, mu, sigma, thetabar, ll, r0, r1, maxA, maxB)
                                 && iter == MaxIter - run.value.1)
  {
    ll, maxA, maxB, iter := 0.0, 0.0, 0.0, 0;
    ghost var st := s0;
    ghost var left: nat := MaxIter;
    while iter < MaxIter
      invariant 0 <= iter <= MaxIter && left == MaxIter - iter
      invariant st == StateOf(a, b, mu, sigma, thetabar, ll, r0, r1, maxA, maxB)
      invariant MultiInputs(m, r, theta, gn, pgroup, st)
      invariant Run(CycleStep(m, fit, r, theta, gn, pgroup, ref), MaxIter, s0)
                == Run(CycleStep(m, fit, r, theta, gn, pgroup, ref), left, st)
    {
      ll, maxA, maxB, err := MultiCycleStep(m, fit, r, theta, gn, pgroup, ref, a, b, mu, sigma, thetabar,
                                            sumtheta, sumsig2, r0, r1, st);
      if err.Some? {
        RunFails(CycleStep(m, fit, r, theta, gn, pgroup, ref), left, st);
        return;
      }
      ghost var c := StateOf(a, b, mu, sigma, thetabar, ll, r0, r1, maxA, maxB);
      RunStep(CycleStep(m, fit, r, theta, gn, pgroup, ref), left, st, c);
      if maxA < Tol && maxB < Tol {
        return;
      }
      st, left := c, left - 1;
      iter := iter + 1;
    }
    err := None;
  }

  /** The driver's buffers, holding the starting state. */
  method StartBuffers(aStart: Vec, bStart: Vec, r: Responses, theta: Vec, muStart: Vec, sigmaStart: Vec)
    returns (a: array<real>, b: array<real>, mu: array<real>, sigma: array<real>, thetabar: array<real>,
             sumtheta: array<real>, sumsig2: array<real>, r0: array2<real>, r1: array2<real>)
    requires r.Ranges() && |aStart| == |bStart| && |muStart| == |sigmaStart|
    ensures fresh(a) && fresh(b) && fresh(mu) && fresh(sigma) && fresh(thetabar)
    ensures fresh(sumtheta) && fresh(sumsig2) && fresh(r0) && fresh(r1)
    ensures Buffers(|aStart|, |theta|, r.Persons(), |muStart|, a, b, mu, sigma, thetabar, sumtheta, sumsig2, r0, r1)
    ensures StateOf(a, b, mu, sigma, thetabar, 0.0, r0, r1, 0.0, 0.0)
            == MultigroupStart(aStart, bStart, r, theta, muStart, sigmaStart)
  {
    var nit, nt, np, ng := |aStart|, |theta|, r.Persons(), |muStart|;
    a := FromSeq(aStart);
    b := FromSeq(bStart);
    r0 := new real[nt, nit]((t, i) => 0.0);
    r1 := new real[nt, nit]((t, i) => 0.0);
    thetabar := new real[np](p => 0.0);
    sigma := FromSeq(sigmaStart);
    mu := FromSeq(muStart);
    sumtheta := new real[ng](g => 0.0);
    sumsig2 := new real[ng](g => 0.0);
    ColumnsAre(r0, ZeroColumns(nit, nt));
    ColumnsAre(r1, ZeroColumns(nit, nt));
    assert thetabar[..] == Zeros(np);
  }

  method Estimate2PLMultigroup(m: Math, fit: Minimizer, aStart: Vec, bStart: Vec, r: Responses, theta: Vec,
                               muStart: Vec, sigmaStart: Vec, gn: seq<int>, pgroup: seq<int>, ref: int)
    returns (res: Result<MultiOut>)
    requires Inputs(m, aStart, bStart, r, theta, muStart, sigmaStart, pgroup) && |gn| == |muStart|
    ensures res == MultigroupSpec(m, fit, aStart, bStart, r, theta, muStart, sigmaStart, gn, pgroup, ref)
  {
    var a, b, mu, sigma, thetabar, sumtheta, sumsig2, r0, r1 := StartBuffers(aStart, bStart, r, theta, muStart, sigmaStart);
    ghost var s0 := MultigroupStart(aStart, bStart, r, theta, muStart, sigmaStart);
    var ll, maxA, maxB, iter, err := MultiLoop(m, fit, r, theta, gn, pgroup, ref, a, b, mu, sigma, thetabar,
                                               sumtheta, sumsig2, r0, r1, s0);
    ghost var run := MultiRun(m, fit, r, theta, gn, pgroup, ref, MaxIter, s0);
    if err.Some? {
      return Failure(err.value);
    }
    ghost var fin := run.value.0;
    assert fin == StateOf(a, b, mu, sigma, thetabar, ll, r0, r1, maxA, maxB);
    var obs := ObsOf(m, a, b, r0, r1, theta, fin);
    res := Success(MultiOut(a[..], b[..], thetabar[..], mu[..], sigma[..], ll, iter, obs));
  }

  /** `obs` at the parameters and expected counts the buffers hold. */
  method ObsOf(m: Math, a: array<real>, b: array<real>, r0: array2<real>, r1: array2<real>, theta: Vec,
               ghost s: Multi)
    returns (obs: seq<seq<real>>)
    requires m.ExpPositive() && a.Length == b.Length == r0.Length1 == r1.Length1
    requires r0.Length0 == r1.Length0 == |theta|
    requires s.a == a[..] && s.b == b[..] && s.r0 == Columns(r0) && s.r1 == Columns(r1)
    ensures obs == ObsMatrix(ObsHess(m, s.a, s.b, s.r0, s.r1, theta))
  {
    var mat := ObsLayout(m, a, b, r0, r1, theta);
    ObsRows(mat, ObsHess(m, s.a, s.b, s.r0, s.r1, theta));
    obs := Rows(mat);
  }

  /** Every row of a matrix. */
  function Rows(mat: array2<real>): (rows: seq<seq<real>>)
    reads mat
    ensures |rows| == mat.Length0 && forall k :: 0 <= k < mat.Length0 ==> |rows[k]| == mat.Length1
  {
    seq(mat.Length0, k requires 0 <= k < mat.Length0 reads mat =>
      seq(mat.Length1, l requires 0 <= l < mat.Length1 reads mat => mat[k, l]))
  }

  lemma ObsRows(obs: array2<real>, hs: seq<Hess2>)
    requires obs.Length0 == obs.Length1 == 2 * |hs|
    requires forall k, l :: 0 <= k < 2 * |hs| && 0 <= l < 2 * |hs| ==> obs[k, l] == ObsEntry(hs, |hs|, k, l)
    ensures Rows(obs) == ObsMatrix(hs)
  {
    forall k | 0 <= k < 2 * |hs|
      ensures Rows(obs)[k] == ObsMatrix(hs)[k]
    {
    }
  }

  /** The `obs` loop: item `i`'s Hessian at the final parameters, placed in
      the four cells of its `a`/`b` pair. */
  method ObsLayout(m: Math, a: array<real>, b: array<real>, r0: array2<real>, r1: array2<real>, theta: Vec)
    returns (obs: array2<real>)
    requires m.ExpPositive() && a.Length == b.Length == r0.Length1 == r1.Length1
    requires r0.Length0 == r1.Length0 == |theta|
    ensures obs.Length0 == obs.Length1 == 2 * a.Length
    ensures var hs := ObsHess(m, a[..], b[..], Columns(r0), Columns(r1), theta);
            forall k, l :: 0 <= k < 2 * a.Length && 0 <= l < 2 * a.Length ==> obs[k, l] == ObsEntry(hs, a.Length, k, l)
  {
    var nit := a.Length;
    ghost var hs := ObsHess(m, a[..], b[..], Columns(r0), Columns(r1), theta);
    obs := new real[2 * nit, 2 * nit]((k, l) => 0.0);
    var h := new real[2, 2];
    for i := 0 to nit
      invariant forall k, l :: 0 <= k < 2 * nit && 0 <= l < 2 * nit ==> obs[k, l] == ObsEntry(hs, i, k, l)
    {
      ObsItem(m, a, b, r0, r1, theta, obs, h, i, hs);
    }
  }

  /** One pass of the `obs` loop: item `i`'s Hessian into its four cells. */
  method ObsItem(m: Math, a: array<real>, b: array<real>, r0: array2<real>, r1: array2<real>, theta: Vec,
                 obs: array2<real>, h: array2<real>, i: int, ghost hs: seq<Hess2>)
    requires m.ExpPositive() && a.Length == b.Length == r0.Length1 == r1.Length1
    requires r0.Length0 == r1.Length0 == |theta| && 0 <= i < a.Length
    requires obs.Length0 == obs.Length1 == 2 * a.Length && h.Length0 == h.Length1 == 2
    requires obs != h && obs != r0 && obs != r1 && h != r0 && h != r1
    requires hs == ObsHess(m, a[..], b[..], Columns(r0), Columns(r1), theta)
    requires forall k, l :: 0 <= k < 2 * a.Length && 0 <= l < 2 * a.Length ==> obs[k, l] == ObsEntry(hs, i, k, l)
    modifies obs, h
    ensures forall k, l :: 0 <= k < 2 * a.Length && 0 <= l < 2 * a.Length ==> obs[k, l] == ObsEntry(hs, i + 1, k, l)
  {
    var nit := a.Length;
    var f := new Item(Column(r1, i), Column(r0, i), theta, |theta|);
    f.Hessian(m, [a[i], b[i]], h, false);
    assert f.r0 == Columns(r0)[i] && f.r1 == Columns(r1)[i] && f.theta == theta;
    PlaceItem(obs, nit, i, h[0, 0], h[1, 0], h[1, 1]);
    forall k, l | 0 <= k < 2 * nit && 0 <= l < 2 * nit
      ensures obs[k, l] == ObsEntry(hs, i + 1, k, l)
    {
      ObsEntryStep(hs, i, k, l);
    }
  }

  /** The four writes of one item into `obs`. */
  method PlaceItem(obs: array2<real>, nit: int, i: int, h00: real, h10: real, h11: real)
    requires 0 <= i < nit && obs.Length0 == obs.Length1 == 2 * nit
    modifies obs
    ensures forall k, l :: 0 <= k < 2 * nit && 0 <= l < 2 * nit ==>
              obs[k, l] == if k == i && l == i then h00
                           else if k == nit + i && l == nit + i then h11
                           else if (k == i && l == nit + i) || (k == nit + i && l == i) then h10
                           else old(obs[k, l])
  {
    obs[i, i] := h00;
    obs[nit + i, nit + i] := h11;
    obs[i, nit + i] := h10;
    obs[nit + i, i] := h10;
  }

  /** Placing item `i` changes exactly its four cells. */
  lemma ObsEntryStep(hs: seq<Hess2>, i: int, k: int, l: int)
    requires 0 <= i < |hs|
    ensures ObsEntry(hs, i + 1, k, l)
            == if k == i && l == i then hs[i].h00
               else if k == |hs| + i && l == |hs| + i then hs[i].h11
               else if (k == i && l == |hs| + i) || (k == |hs| + i && l == i) then hs[i].h01
               else ObsEntry(hs, i, k, l)
  {
  }

  // Properties of the multigroup loop.

  /** A successful cycle re-estimates every non-reference group's mean as
      that group's summed posterior means over `gn[g]`, and pins the
      reference group, when there is one, at mean 0 and sd 1. */
  lemma CycleGroups(m: Math, fit: Minimizer, r: Responses, theta: Vec, gn: seq<int>, pgroup: seq<int>,
                    ref: int, s: Multi)
    requires MultiInputs(m, r, theta, gn, pgroup, s)
    requires Cycle(m, fit, r, theta, gn, pgroup, ref, s).Success?
    ensures var c := Cycle(m, fit, r, theta, gn, pgroup, ref, s).value;
            (forall g :: 0 <= g < |gn| && g != ref ==>
               gn[g] != 0 && c.mu[g] == Mean(GroupSum(c.thetabar, pgroup, r.Persons(), g), gn[g]))
            && (0 <= ref < |gn| ==> c.mu[ref] == 0.0 && c.sigma[ref] == 1.0)
  {
    var e := EStepSpec(m, s.a, s.b, r, theta, s.mu, s.sigma, pgroup).value;
    CycleIs(m, fit, r, theta, gn, pgroup, ref, s, e);
    var c := Cycle(m, fit, r, theta, gn, pgroup, ref, s).value;
    var u := GroupUpdate(m, e.sumTheta, e.sumSig2, gn, ref).value;
    assert c.mu == u.0 && c.sigma == u.1 && c.thetabar == e.thetabar;
    SumThetaIsGroupSumOfMeans(m, s.a, s.b, r, theta, s.mu, s.sigma, pgroup);
    MeansFromUpdate(m, e.sumTheta, e.sumSig2, e.thetabar, gn, pgroup, r.Persons(), ref);
    if 0 <= ref < |gn| {
      RefGroupPinned(m, e.sumTheta, e.sumSig2, gn, ref);
    }
  }

  /** The group update's means, given sums that add up posterior means. */
  lemma MeansFromUpdate(m: Math, sumTheta: Vec, sumSig2: Vec, thetabar: Vec, gn: seq<int>, pgroup: seq<int>,
                        np: int, ref: int)
    requires |sumTheta| == |sumSig2| == |gn| && 0 <= np <= |thetabar| && np <= |pgroup|
    requires GroupUpdate(m, sumTheta, sumSig2, gn, ref).Some?
    requires forall g :: 0 <= g < |gn| ==> sumTheta[g] == GroupSum(thetabar, pgroup, np, g)
    ensures var mu := GroupUpdate(m, sumTheta, sumSig2, gn, ref).value.0;
            forall g :: 0 <= g < |gn| && g != ref ==> gn[g] != 0 && mu[g] == Mean(GroupSum(thetabar, pgroup, np, g), gn[g])
  {
    forall g | 0 <= g < |gn| && g != ref
      ensures gn[g] != 0
              && GroupUpdate(m, sumTheta, sumSig2, gn, ref).value.0[g] == Mean(GroupSum(thetabar, pgroup, np, g), gn[g])
    {
      GroupMeanAt(m, sumTheta, sumSig2, gn, ref, g);
    }
  }

  /** A successful cycle reports the largest parameter changes it made. */
  lemma CycleChanges(m: Math, fit: Minimizer, r: Responses, theta: Vec, gn: seq<int>, pgroup: seq<int>,
                     ref: int, s: Multi)
    requires MultiInputs(m, r, theta, gn, pgroup, s)
    requires Cycle(m, fit, r, theta, gn, pgroup, ref, s).Success?
    ensures var c := Cycle(m, fit, r, theta, gn, pgroup, ref, s).value;
            forall i :: 0 <= i < |s.a| ==> Abs(s.a[i] - c.a[i]) <= c.maxA && Abs(s.b[i] - c.b[i]) <= c.maxB
  {
    var e := EStepSpec(m, s.a, s.b, r, theta, s.mu, s.sigma, pgroup).value;
    CycleIs(m, fit, r, theta, gn, pgroup, ref, s, e);
    var c := Cycle(m, fit, r, theta, gn, pgroup, ref, s).value;
    MaxDifBounds(s.a, c.a);
    MaxDifBounds(s.b, c.b);
  }

  /** The loop uses at most its allowance, and stops with cycles left only
      on convergence. */
  lemma {:induction false} RunBounds(step: Multi -> Result<Multi>, left: nat, s: Multi)
    requires Run(step, left, s).Success?
    ensures var v := Run(step, left, s).value;
            v.1 <= left && (v.1 > 0 ==> Converged(v.0))
  {
    if left > 0 && !Converged(step(s).value) {
      RunBounds(step, left - 1, step(s).value);
    }
  }

  /** A property `inv` every step keeps holds of the final state, and so
      does a property `post` every step establishes, once a step has run. */
  lemma {:induction false} RunKeeps(step: Multi -> Result<Multi>, inv: Multi -> bool, post: Multi -> bool,
                                    left: nat, s: Multi)
    requires inv(s)
    requires forall t :: inv(t) && step(t).Success? ==> inv(step(t).value) && post(step(t).value)
    ensures Run(step, left, s).Success? ==>
              inv(Run(step, left, s).value.0) && (left > 0 ==> post(Run(step, left, s).value.0))
  {
    if left > 0 && step(s).Success? && !Converged(step(s).value) {
      RunKeeps(step, inv, post, left - 1, step(s).value);
    }
  }

  /** The shape of a loop state over `nit` items. */
  ghost function Shape(m: Math, r: Responses, theta: Vec, gn: seq<int>, pgroup: seq<int>, nit: int): Multi -> bool
  {
    (t: Multi) => MultiInputs(m, r, theta, gn, pgroup, t) && |t.a| == nit
  }

  /** The group parameters a cycle leaves: each non-reference group's mean
      is its persons' summed posterior means over `gn[g]`, and the
      reference group, when there is one, has mean 0 and sd 1. */
  ghost function GroupsUpdated(r: Responses, gn: seq<int>, pgroup: seq<int>, ref: int): Multi -> bool
  {
    (v: Multi) => |v.mu| == |v.sigma| == |gn| && r.Ranges() && |v.thetabar| == r.Persons() <= |pgroup|
         && (forall g :: 0 <= g < |gn| && g != ref ==>
               gn[g] != 0 && v.mu[g] == Mean(GroupSum(v.thetabar, pgroup, r.Persons(), g), gn[g]))
         && (0 <= ref < |gn| ==> v.mu[ref] == 0.0 && v.sigma[ref] == 1.0)
  }

  /** Every multigroup cycle keeps the shape and updates the groups. */
  lemma StepKeeps(m: Math, fit: Minimizer, r: Responses, theta: Vec, gn: seq<int>, pgroup: seq<int>, ref: int, nit: int)
    ensures var step, inv := CycleStep(m, fit, r, theta, gn, pgroup, ref), Shape(m, r, theta, gn, pgroup, nit);
            forall t :: inv(t) && step(t).Success? ==> inv(step(t).value) && GroupsUpdated(r, gn, pgroup, ref)(step(t).value)
  {
    var step, inv := CycleStep(m, fit, r, theta, gn, pgroup, ref), Shape(m, r, theta, gn, pgroup, nit);
    forall t | inv(t) && step(t).Success?
      ensures inv(step(t).value) && GroupsUpdated(r, gn, pgroup, ref)(step(t).value)
    {
      CycleGroups(m, fit, r, theta, gn, pgroup, ref, t);
    }
  }

  lemma ObsSymmetric(hs: seq<Hess2>, k: int, l: int)
    ensures ObsEntry(hs, |hs|, k, l) == ObsEntry(hs, |hs|, l, k)
  {
  }

  /** What a successful multigroup estimation returns: at most 100
      cycles; a square, symmetric `obs` over the `a`/`b` pairs; the reference
      group pinned; every other group's mean its persons' summed posterior
      means over `gn[g]`. */
  lemma MultigroupResult(m: Math, fit: Minimizer, aStart: Vec, bStart: Vec, r: Responses, theta: Vec,
                         muStart: Vec, sigmaStart: Vec, gn: seq<int>, pgroup: seq<int>, ref: int)
    requires Inputs(m, aStart, bStart, r, theta, muStart, sigmaStart, pgroup) && |gn| == |muStart|
    requires MultigroupSpec(m, fit, aStart, bStart, r, theta, muStart, sigmaStart, gn, pgroup, ref).Success?
    ensures var v := MultigroupSpec(m, fit, aStart, bStart, r, theta, muStart, sigmaStart, gn, pgroup, ref).value;
            0 <= v.niter <= MaxIter && |v.obs| == 2 * |aStart|
            && (forall k, l :: 0 <= k < |v.obs| && 0 <= l < |v.obs| ==> v.obs[k][l] == v.obs[l][k])
            && (0 <= ref < |gn| ==> v.mu[ref] == 0.0 && v.sd[ref] == 1.0)
            && (forall g :: 0 <= g < |gn| && g != ref ==>
                  gn[g] != 0 && v.mu[g] == Mean(GroupSum(v.thetabar, pgroup, r.Persons(), g), gn[g]))
  {
    var s0 := MultigroupStart(aStart, bStart, r, theta, muStart, sigmaStart);
    var step := CycleStep(m, fit, r, theta, gn, pgroup, ref);
    RunBounds(step, MaxIter, s0);
    StepKeeps(m, fit, r, theta, gn, pgroup, ref, |aStart|);
    RunKeeps(step, Shape(m, r, theta, gn, pgroup, |aStart|), GroupsUpdated(r, gn, pgroup, ref), MaxIter, s0);
    var s := MultiRun(m, fit, r, theta, gn, pgroup, ref, MaxIter, s0).value.0;
    var hs := ObsHess(m, s.a, s.b, s.r0, s.r1, theta);
    forall k, l | 0 <= k < 2 * |hs| && 0 <= l < 2 * |hs|
      ensures ObsMatrix(hs)[k][l] == ObsMatrix(hs)[l][k]
    {
      ObsSymmetric(hs, k, l);
    }
  }
}
