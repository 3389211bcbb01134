// `oakes` in est_2PL_dich.cpp: a numerical Jacobian of one EM cycle. Each
// parameter of the flattened vector a ++ b ++ mu ++ sigma is moved by
// -delta and by +delta, one cycle (E-step, item fits, group update without
// a reference group) is run from each of the two points, and the central
// difference of the two outcomes is column j of the Jacobian.

module Oakes {
  import opened Common
  import opened Responses
  import opened EStep2PL
  import opened EStepProperties
  import opened MStep2PL
  import opened EM2PL

  /** `delta` in the source. */
  const Delta: real := 0.00001

  /** The update in `oakes` pins no group: every group's mean and sd are
      re-estimated, which is `GroupUpdate` with a reference outside
      `0 .. ng`. */
  const NoReference: int := -1

  /** The parameter vector in the Jacobian's row order: `a` at `i`, `b` at
      `nit + i`, `mu` at `2 nit + g`, `sigma` at `2 nit + ng + g`. */
  function Flat(s: Multi): Vec
  {
    s.a + s.b + s.mu + s.sigma
  }

  /** `v` with entry `k`, when there is one, moved by `dv`. */
  function Shift(v: Vec, k: int, dv: real): (w: Vec)
    ensures |w| == |v|
  {
    if 0 <= k < |v| then v[k := v[k] + dv] else v
  }

  /** The state with parameter `j` of `Flat` moved by `dv`; the four
      branches are the source's `if` chain on `j`. */
  function Perturbed(s: Multi, j: int, dv: real): (p: Multi)
    ensures |p.a| == |s.a| && |p.b| == |s.b| && |p.mu| == |s.mu| && |p.sigma| == |s.sigma|
    ensures p.thetabar == s.thetabar && p.r0 == s.r0 && p.r1 == s.r1
  {
    var nit, ng := |s.a|, |s.mu|;
    if j < nit then s.(a := Shift(s.a, j, dv))
    else if j < 2 * nit then s.(b := Shift(s.b, j - nit, dv))
    else if j < 2 * nit + ng then s.(mu := Shift(s.mu, j - 2 * nit, dv))
    else s.(sigma := Shift(s.sigma, j - 2 * nit - ng, dv))
  }

  /** Perturbing moves exactly parameter `j` of the flattened vector. */
  lemma PerturbedFlat(s: Multi, j: int, dv: real)
    requires |s.a| == |s.b| && |s.mu| == |s.sigma| && 0 <= j < |Flat(s)|
    ensures Flat(Perturbed(s, j, dv)) == Flat(s)[j := Flat(s)[j] + dv]
  {
    var nit, ng := |s.a|, |s.mu|;
    var p := Perturbed(s, j, dv);
    forall k | 0 <= k < |Flat(s)|
      ensures Flat(p)[k] == Flat(s)[j := Flat(s)[j] + dv][k]
    {
      if k < nit {
        assert Flat(p)[k] == p.a[k] && Flat(s)[k] == s.a[k];
      } else if k < 2 * nit {
        assert Flat(p)[k] == p.b[k - nit] && Flat(s)[k] == s.b[k - nit];
      } else if k < 2 * nit + ng {
        assert Flat(p)[k] == p.mu[k - 2 * nit] && Flat(s)[k] == s.mu[k - 2 * nit];
      } else {
        assert Flat(p)[k] == p.sigma[k - 2 * nit - ng] && Flat(s)[k] == s.sigma[k - 2 * nit - ng];
      }
    }
  }

  /** The number of parameters, `npar = 2 (nit + ng)`. */
  function NPar(s: Multi): int
  {
    2 * (|s.a| + |s.mu|)
  }

  /** One cycle from the fixed parameters with parameter `j` moved by `dv`,
      flattened. */
  ghost function OakesSide(m: Math, fit: Minimizer, r: Responses, theta: Vec, gn: seq<int>, pgroup: seq<int>,
                           s0: Multi, j: int, dv: real): (res: Result<Vec>)
    requires MultiInputs(m, r, theta, gn, pgroup, s0)
    ensures res.Success? ==> |res.value| == NPar(s0)
  {
    var c := Cycle(m, fit, r, theta, gn, pgroup, NoReference, Perturbed(s0, j, dv));
    if c.Failure? then Failure(c.error) else Success(Flat(c.value))
  }

  /** The central difference of two cycle outcomes. */
  function CentralDifference(lo: Vec, hi: Vec): (col: Vec)
    requires |lo| == |hi|
    ensures |col| == |lo|
  {
    seq(|lo|, k requires 0 <= k < |lo| => (hi[k] - lo[k]) / (2.0 * Delta))
  }

  /** Every cycle outcome of `side` that succeeds has `n` entries. */
  ghost predicate SidesHave(side: (int, real) -> Result<Vec>, n: nat)
  {
    forall j, dv :: side(j, dv).Success? ==> |side(j, dv).value| == n
  }

  /** `OakesSide` for the fixed inputs, as a function of `j` and `dv`. */
  ghost function OakesSides(m: Math, fit: Minimizer, r: Responses, theta: Vec, gn: seq<int>, pgroup: seq<int>,
                            s0: Multi): (side: (int, real) -> Result<Vec>)
    requires MultiInputs(m, r, theta, gn, pgroup, s0)
    ensures SidesHave(side, NPar(s0))
  {
    (j: int, dv: real) =>
      if MultiInputs(m, r, theta, gn, pgroup, s0) then OakesSide(m, fit, r, theta, gn, pgroup, s0, j, dv)
      else Failure(Degenerate)
  }

  /** `side` gives the cycle outcomes of `OakesSide` for the fixed inputs. */
  ghost predicate SidesAre(side: (int, real) -> Result<Vec>, m: Math, fit: Minimizer, r: Responses, theta: Vec,
                           gn: seq<int>, pgroup: seq<int>, s0: Multi)
    requires MultiInputs(m, r, theta, gn, pgroup, s0)
  {
    forall j, dv {:trigger OakesSide(m, fit, r, theta, gn, pgroup, s0, j, dv)} ::
      side(j, dv) == OakesSide(m, fit, r, theta, gn, pgroup, s0, j, dv)
  }

  lemma OakesSidesAre(m: Math, fit: Minimizer, r: Responses, theta: Vec, gn: seq<int>, pgroup: seq<int>, s0: Multi)
    requires MultiInputs(m, r, theta, gn, pgroup, s0)
    ensures SidesAre(OakesSides(m, fit, r, theta, gn, pgroup, s0), m, fit, r, theta, gn, pgroup, s0)
  {
  }

  /** Column `j` of the Jacobian: the `-delta` side runs first, and the
      first failure is the result. */
  ghost function OakesColumn(side: (int, real) -> Result<Vec>, n: nat, j: int): (res: Result<Vec>)
    requires SidesHave(side, n)
    ensures res.Success? ==> |res.value| == n
  {
    var lo := side(j, -Delta);
    if lo.Failure? then lo
    else
      var hi := side(j, Delta);
      if hi.Failure? then hi
      else Success(CentralDifference(lo.value, hi.value))
  }

  /** Columns `0 .. k` of the Jacobian, in the order the source computes
      them. */
  ghost function OakesColumns(side: (int, real) -> Result<Vec>, n: nat, k: nat): (res: Result<seq<Vec>>)
    requires SidesHave(side, n)
    ensures res.Success? ==> |res.value| == k && forall j :: 0 <= j < k ==> |res.value[j]| == n
  {
    if k == 0 then Success([])
    else
      match OakesColumns(side, n, k - 1)
      case Failure(err) => Failure(err)
      case Success(cols) =>
        match OakesColumn(side, n, k - 1)
        case Failure(err) => Failure(err)
        case Success(col) => Success(cols + [col])
  }

  /** `oakes`: the Jacobian by columns, `npar` of them. */
  ghost function OakesSpec(m: Math, fit: Minimizer, aFixed: Vec, bFixed: Vec, r: Responses, theta: Vec,
                           muFixed: Vec, sigmaFixed: Vec, gn: seq<int>, pgroup: seq<int>): Result<seq<Vec>>
    requires Inputs(m, aFixed, bFixed, r, theta, muFixed, sigmaFixed, pgroup) && |gn| == |muFixed|
  {
    var s0 := MultigroupStart(aFixed, bFixed, r, theta, muFixed, sigmaFixed);
    OakesColumns(OakesSides(m, fit, r, theta, gn, pgroup, s0), NPar(s0), NPar(s0))
  }

  // Properties.

  /** Both cycles of column `j` succeed. */
  ghost predicate BothSides(side: (int, real) -> Result<Vec>, j: int)
  {
    side(j, -Delta).Success? && side(j, Delta).Success?
  }

  /** Every column is complete exactly when every one of its cycles is,
      and then entry `k` of column `j` is the central difference of
      parameter `k` between the two cycles of column `j`. */
  lemma {:induction false} OakesColumnsPointwise(side: (int, real) -> Result<Vec>, n: nat, c: nat)
    requires SidesHave(side, n)
    ensures OakesColumns(side, n, c).Success?
            <==> forall j :: 0 <= j < c ==> BothSides(side, j)
    ensures OakesColumns(side, n, c).Success? ==>
              forall j, k :: 0 <= j < c && 0 <= k < n && BothSides(side, j) ==>
                OakesColumns(side, n, c).value[j][k] == (side(j, Delta).value[k] - side(j, -Delta).value[k]) / (2.0 * Delta)
  {
    if c > 0 {
      OakesColumnsPointwise(side, n, c - 1);
      var prev, col := OakesColumns(side, n, c - 1), OakesColumn(side, n, c - 1);
      if prev.Success? && col.Success? {
        var all := OakesColumns(side, n, c).value;
        assert all == prev.value + [col.value];
        forall j, k | 0 <= j < c && 0 <= k < n && BothSides(side, j)
          ensures all[j][k] == (side(j, Delta).value[k] - side(j, -Delta).value[k]) / (2.0 * Delta)
        {
          if j < c - 1 {
            assert all[j] == prev.value[j];
          }
        }
      } else if prev.Success? {
        assert !BothSides(side, c - 1);
        assert OakesColumns(side, n, c).Failure?;
      } else {
        assert OakesColumns(side, n, c).Failure?;
      }
    }
  }

  /** One more column: the run so far, then column `j`. */
  lemma ColumnsStep(side: (int, real) -> Result<Vec>, n: nat, j: nat)
    requires SidesHave(side, n)
    ensures OakesColumns(side, n, j + 1)
            == if OakesColumns(side, n, j).Failure? then OakesColumns(side, n, j)
               else if OakesColumn(side, n, j).Failure? then Failure(OakesColumn(side, n, j).error)
               else Success(OakesColumns(side, n, j).value + [OakesColumn(side, n, j).value])
  {
  }

  /** Once a column fails, every longer run of columns fails with the same
      error: the source stops at the first failing cycle. */
  lemma {:induction false} ColumnsFailOn(side: (int, real) -> Result<Vec>, n: nat, j: nat, k: nat)
    requires SidesHave(side, n) && j <= k && OakesColumns(side, n, j).Failure?
    ensures OakesColumns(side, n, k) == OakesColumns(side, n, j)
    decreases k - j
  {
    if j < k {
      ColumnsFailOn(side, n, j, k - 1);
    }
  }

  /** A cycle that ignores parameter `j` (both sides agree) gives a zero
      column. */
  lemma InsensitiveColumn(side: (int, real) -> Result<Vec>, n: nat, j: int)
    requires SidesHave(side, n)
    requires side(j, -Delta) == side(j, Delta) && side(j, Delta).Success?
    ensures OakesColumn(side, n, j) == Success(seq(n, k => 0.0))
  {
    var v := side(j, Delta).value;
    assert |v| == n;
    assert CentralDifference(v, v) == seq(n, k => 0.0) by {
      forall k | 0 <= k < n
        ensures CentralDifference(v, v)[k] == 0.0
      {
        assert v[k] - v[k] == 0.0;
      }
    }
  }

  /** Without a reference group, each side re-estimates every group's mean
      as its persons' summed posterior means over `gn[g]`. */
  lemma SideGroupsUnpinned(m: Math, fit: Minimizer, r: Responses, theta: Vec, gn: seq<int>, pgroup: seq<int>,
                           s0: Multi, j: int, dv: real)
    requires MultiInputs(m, r, theta, gn, pgroup, s0)
    requires Cycle(m, fit, r, theta, gn, pgroup, NoReference, Perturbed(s0, j, dv)).Success?
    ensures var c := Cycle(m, fit, r, theta, gn, pgroup, NoReference, Perturbed(s0, j, dv)).value;
            forall g :: 0 <= g < |gn| ==>
              gn[g] != 0 && c.mu[g] == Mean(GroupSum(c.thetabar, pgroup, r.Persons(), g), gn[g])
  {
    CycleGroups(m, fit, r, theta, gn, pgroup, NoReference, Perturbed(s0, j, dv));
  }

  // The in-place computation.

  /** `dst = src`, element by element. */
  method CopyInto(dst: array<real>, src: Vec)
    requires dst.Length == |src|
    modifies dst
    ensures dst[..] == src
  {
    for i := 0 to |src|
      invariant dst[..i] == src[..i]
    {
      dst[i] := src[i];
    }
  }

  /** One side of column `j`: reset the columns to the fixed values, move
      parameter `j` by `dv`, then run one cycle. */
  method OakesSideStep(m: Math, fit: Minimizer, r: Responses, theta: Vec, gn: seq<int>, pgroup: seq<int>,
                       aFixed: Vec, bFixed: Vec, muFixed: Vec, sigmaFixed: Vec, ghost s0: Multi, j: int, dv: real,
                       a: array<real>, b: array<real>, mu: array<real>, sigma: array<real>, thetabar: array<real>,
                       sumtheta: array<real>, sumsig2: array<real>, r0: array2<real>, r1: array2<real>)
    returns (out: Vec, err: Option<string>)
    requires Buffers(|s0.a|, |theta|, r.Persons(), |s0.mu|, a, b, mu, sigma, thetabar, sumtheta, sumsig2, r0, r1)
    requires MultiInputs(m, r, theta, gn, pgroup, s0) && 0 <= j < NPar(s0)
    requires s0.a == aFixed && s0.b == bFixed && s0.mu == muFixed && s0.sigma == sigmaFixed
    modifies a, b, mu, sigma, thetabar, sumtheta, sumsig2, r0, r1
    ensures var side := OakesSide(m, fit, r, theta, gn, pgroup, s0, j, dv);
            (err.None? <==> side.Success?) && (side.Failure? ==> err == Some(side.error))
            && (side.Success? ==> out == side.value)
  {
    var nit, ng := a.Length, mu.Length;
    CopyInto(a, aFixed);
    CopyInto(b, bFixed);
    CopyInto(mu, muFixed);
    CopyInto(sigma, sigmaFixed);
    if j < nit {
      a[j] := a[j] + dv;
    } else if j < 2 * nit {
      b[j - nit] := b[j - nit] + dv;
    } else if j < 2 * nit + ng {
      mu[j - 2 * nit] := mu[j - 2 * nit] + dv;
    } else {
      sigma[j - 2 * nit - ng] := sigma[j - 2 * nit - ng] + dv;
    }
    ghost var p := Perturbed(s0, j, dv);
    assert a[..] == p.a && b[..] == p.b && mu[..] == p.mu && sigma[..] == p.sigma;
    var ll, maxA, maxB;
    ll, maxA, maxB, err := MultiCycleStep(m, fit, r, theta, gn, pgroup, NoReference, a, b, mu, sigma, thetabar,
                                          sumtheta, sumsig2, r0, r1, p);
    out := [];
    if err.None? {
      out := a[..] + b[..] + mu[..] + sigma[..];
    }
  }

  /** Column `j`: both sides, then the central differences. */
  method OakesColumnStep(m: Math, fit: Minimizer, r: Responses, theta: Vec, gn: seq<int>, pgroup: seq<int>,
                         aFixed: Vec, bFixed: Vec, muFixed: Vec, sigmaFixed: Vec, ghost s0: Multi,
                         ghost side: (int, real) -> Result<Vec>, j: int,
                         a: array<real>, b: array<real>, mu: array<real>, sigma: array<real>, thetabar: array<real>,
                         sumtheta: array<real>, sumsig2: array<real>, r0: array2<real>, r1: array2<real>)
    returns (col: Vec, err: Option<string>)
    requires Buffers(|s0.a|, |theta|, r.Persons(), |s0.mu|, a, b, mu, sigma, thetabar, sumtheta, sumsig2, r0, r1)
    requires MultiInputs(m, r, theta, gn, pgroup, s0) && 0 <= j < NPar(s0)
    requires s0.a == aFixed && s0.b == bFixed && s0.mu == muFixed && s0.sigma == sigmaFixed
    requires SidesHave(side, NPar(s0)) && SidesAre(side, m, fit, r, theta, gn, pgroup, s0)
    modifies a, b, mu, sigma, thetabar, sumtheta, sumsig2, r0, r1
    ensures var c := OakesColumn(side, NPar(s0), j);
            (err.None? <==> c.Success?) && (c.Failure? ==> err == Some(c.error)) && (c.Success? ==> col == c.value)
  {
    var lo, hi;
    lo, err := OakesSideStep(m, fit, r, theta, gn, pgroup, aFixed, bFixed, muFixed, sigmaFixed, s0, j, -Delta,
                             a, b, mu, sigma, thetabar, sumtheta, sumsig2, r0, r1);
    if err.Some? {
      return [], err;
    }
    hi, err := OakesSideStep(m, fit, r, theta, gn, pgroup, aFixed, bFixed, muFixed, sigmaFixed, s0, j, Delta,
                             a, b, mu, sigma, thetabar, sumtheta, sumsig2, r0, r1);
    if err.Some? {
      return [], err;
    }
    col := CentralDifference(lo, hi);
  }

  /** `oakes`: the Jacobian filled column by column. */
  method ComputeOakes(m: Math, fit: Minimizer, aFixed: Vec, bFixed: Vec, r: Responses, theta: Vec,
                      muFixed: Vec, sigmaFixed: Vec, gn: seq<int>, pgroup: seq<int>)
    returns (jacob: array2<real>, err: Option<string>)
    requires Inputs(m, aFixed, bFixed, r, theta, muFixed, sigmaFixed, pgroup) && |gn| == |muFixed|
    ensures var spec := OakesSpec(m, fit, aFixed, bFixed, r, theta, muFixed, sigmaFixed, gn, pgroup);
            (err.None? <==> spec.Success?) && (spec.Failure? ==> err == Some(spec.error))
            && (spec.Success? ==> jacob.Length0 == jacob.Length1 == 2 * (|aFixed| + |gn|)
                                  && Columns(jacob) == spec.value)
  {
    var a, b, mu, sigma, thetabar, sumtheta, sumsig2, r0, r1 := StartBuffers(aFixed, bFixed, r, theta, muFixed, sigmaFixed);
    ghost var s0 := MultigroupStart(aFixed, bFixed, r, theta, muFixed, sigmaFixed);
    ghost var side := OakesSides(m, fit, r, theta, gn, pgroup, s0);
    OakesSidesAre(m, fit, r, theta, gn, pgroup, s0);
    var npar := 2 * (|aFixed| + |gn|);
    jacob := new real[npar, npar];
    err := OakesLoop(m, fit, r, theta, gn, pgroup, aFixed, bFixed, muFixed, sigmaFixed, s0, side, jacob,
                     a, b, mu, sigma, thetabar, sumtheta, sumsig2, r0, r1);
  }

  /** The loop over the columns of `jacob`; it stops at the first column
      whose cycles fail. */
  method OakesLoop(m: Math, fit: Minimizer, r: Responses, theta: Vec, gn: seq<int>, pgroup: seq<int>,
                   aFixed: Vec, bFixed: Vec, muFixed: Vec, sigmaFixed: Vec, ghost s0: Multi,
                   ghost side: (int, real) -> Result<Vec>, jacob: array2<real>,
                   a: array<real>, b: array<real>, mu: array<real>, sigma: array<real>, thetabar: array<real>,
                   sumtheta: array<real>, sumsig2: array<real>, r0: array2<real>, r1: array2<real>)
    returns (err: Option<string>)
    requires Buffers(|s0.a|, |theta|, r.Persons(), |s0.mu|, a, b, mu, sigma, thetabar, sumtheta, sumsig2, r0, r1)
    requires MultiInputs(m, r, theta, gn, pgroup, s0)
    requires s0.a == aFixed && s0.b == bFixed && s0.mu == muFixed && s0.sigma == sigmaFixed
    requires SidesHave(side, NPar(s0)) && SidesAre(side, m, fit, r, theta, gn, pgroup, s0)
    requires jacob.Length0 == jacob.Length1 == NPar(s0) && jacob != r0 && jacob != r1
    modifies jacob, a, b, mu, sigma, thetabar, sumtheta, sumsig2, r0, r1
    ensures var spec := OakesColumns(side, NPar(s0), NPar(s0));
            (err.None? <==> spec.Success?) && (spec.Failure? ==> err == Some(spec.error))
            && (spec.Success? ==> Columns(jacob) == spec.value)
  {
    var npar := jacob.Length1;
    ghost var cols: seq<Vec> := [];
    err := None;
    var j := 0;
    while j < npar && err.None?
      invariant 0 <= j <= npar && |cols| <= j && forall jj :: 0 <= jj < |cols| ==> |cols[jj]| == npar
      invariant Buffers(|s0.a|, |theta|, r.Persons(), |s0.mu|, a, b, mu, sigma, thetabar, sumtheta, sumsig2, r0, r1)
      invariant err.None? ==> OakesColumns(side, npar, j) == Success(cols)
      invariant err.Some? ==> OakesColumns(side, npar, j) == Failure(err.value)
      invariant forall k, jj :: 0 <= k < npar && 0 <= jj < |cols| ==> jacob[k, jj] == cols[jj][k]
    {
      var col;
      col, err := OakesColumnStep(m, fit, r, theta, gn, pgroup, aFixed, bFixed, muFixed, sigmaFixed, s0, side, j,
                                  a, b, mu, sigma, thetabar, sumtheta, sumsig2, r0, r1);
      ColumnsStep(side, npar, j);
      if err.None? {
        WriteColumn(jacob, j, col);
        cols := cols + [col];
      }
      j := j + 1;
    }
    if err.Some? {
      ColumnsFailOn(side, npar, j, npar);
    } else {
      JacobColumns(jacob, cols);
    }
  }

  /** `jacob(_, j) = col`; the other columns stay as they were. */
  method WriteColumn(jacob: array2<real>, j: int, col: Vec)
    requires 0 <= j < jacob.Length1 && |col| == jacob.Length0
    modifies jacob
    ensures forall k, jj :: 0 <= k < jacob.Length0 && 0 <= jj < jacob.Length1 ==>
              jacob[k, jj] == if jj == j then col[k] else old(jacob[k, jj])
  {
    for k := 0 to jacob.Length0
      invariant forall kk, jj :: 0 <= kk < jacob.Length0 && 0 <= jj < jacob.Length1 ==>
                  jacob[kk, jj] == if jj == j && kk < k then col[kk] else old(jacob[kk, jj])
    {
      jacob[k, j] := col[k];
    }
  }

  lemma JacobColumns(jacob: array2<real>, cols: seq<Vec>)
    requires |cols| == jacob.Length1 && forall j :: 0 <= j < |cols| ==> |cols[j]| == jacob.Length0
    requires forall k, j :: 0 <= k < jacob.Length0 && 0 <= j < jacob.Length1 ==> jacob[k, j] == cols[j][k]
    ensures Columns(jacob) == cols
  {
    forall j | 0 <= j < |cols|
      ensures Columns(jacob)[j] == cols[j]
    {
    }
  }
}
