/** The M-step shared by the 2PL drivers and by `oakes`: one `dfpmin` fit
    per item on that item's expected counts, the largest parameter change,
    and the update of the group means and standard deviations. */
module MStep2PL {
  import opened Common
  import opened Responses
  import opened EStep2PL

  /** An item's `(a, b)` pair, as `pars` holds it around `dfpmin`. */
  datatype Pars = Pars(a: real, b: real)

  /** `dfpmin` run on the item objective built from an `r1` column, an `r0`
      column and the grid, started from the given pair: the minimiser it
      reaches, or the error the objective raised (`inf ll`, `inf gradient`).
      The minimiser itself is not part of this model. */
  type Minimizer = (Pars, Vec, Vec, Vec) -> Result<Pars>

  function Abs(x: real): real
  {
    if x < 0.0 then -x else x
  }

  /** `std::max(x, y)`. */
  function Max(x: real, y: real): real
  {
    if x < y then y else x
  }

  /** The largest `|x[i] - y[i]|`, folded from 0 as the drivers fold
      `maxdif = std::max(maxdif, std::abs(old - new))`. */
  function MaxDif(x: Vec, y: Vec): real
    requires |x| == |y|
  {
    if |x| == 0 then 0.0
    else Max(MaxDif(x[..|x| - 1], y[..|y| - 1]), Abs(x[|x| - 1] - y[|y| - 1]))
  }

  /** The fits of items `0 .. k`, in item order; the first error aborts. */
  function ItemFits(fit: Minimizer, a: Vec, b: Vec, r0: seq<Vec>, r1: seq<Vec>, theta: Vec, k: int): (res: Result<seq<Pars>>)
    requires 0 <= k <= |a| && k <= |b| && k <= |r0| && k <= |r1|
    ensures res.Success? ==> |res.value| == k
  {
    if k == 0 then Success([])
    else
      match ItemFits(fit, a, b, r0, r1, theta, k - 1)
      case Failure(e) => Failure(e)
      case Success(ps) =>
        match fit(Pars(a[k - 1], b[k - 1]), r1[k - 1], r0[k - 1], theta)
        case Failure(e) => Failure(e)
        case Success(p) => Success(ps + [p])
  }

  function As(ps: seq<Pars>): (v: Vec)
    ensures |v| == |ps| && forall i :: 0 <= i < |ps| ==> v[i] == ps[i].a
  {
    seq(|ps|, i requires 0 <= i < |ps| => ps[i].a)
  }

  function Bs(ps: seq<Pars>): (v: Vec)
    ensures |v| == |ps| && forall i :: 0 <= i < |ps| ==> v[i] == ps[i].b
  {
    seq(|ps|, i requires 0 <= i < |ps| => ps[i].b)
  }

  /** Every column of a matrix. */
  function Columns(mat: array2<real>): (cols: seq<Vec>)
    reads mat
    ensures |cols| == mat.Length1
    ensures forall i :: 0 <= i < mat.Length1 ==> cols[i] == Column(mat, i)
  {
    seq(mat.Length1, i requires 0 <= i < mat.Length1 reads mat => Column(mat, i))
  }

  /** The new mean of group `g`: pinned to 0 for the reference group,
      `sum_theta[g] / gn[g]` otherwise. */
  function GroupMu(sumTheta: Vec, gn: seq<int>, ref: int, g: int): real
    requires 0 <= g < |sumTheta| == |gn| && (g == ref || gn[g] != 0)
  {
    if g == ref then 0.0 else Mean(sumTheta[g], gn[g])
  }

  /** A total over a non-empty group's size. */
  function Mean(total: real, n: int): (r: real)
    requires n != 0
    ensures r * n as real == total
  {
    total / n as real
  }

  /** The new sd of group `g`: pinned to 1 for the reference group,
      `sqrt(sum_sigma2[g] / gn[g] - mu^2)` otherwise. */
  function GroupSigma(m: Math, sumTheta: Vec, sumSig2: Vec, gn: seq<int>, ref: int, g: int): real
    requires 0 <= g < |sumTheta| == |sumSig2| == |gn| && (g == ref || gn[g] != 0)
  {
    if g == ref then 1.0 else Sd(m, sumSig2[g], gn[g], GroupMu(sumTheta, gn, ref, g))
  }

  /** `sqrt(sum_sigma2 / gn - mu^2)`: the sd from the second moment. */
  function Sd(m: Math, sumSig2: real, n: int, mu: real): real
    requires n != 0
  {
    m.sqrt(sumSig2 / n as real - mu * mu)
  }

  /** No group outside the reference group is empty, so no division by a
      zero group size occurs. */
  ghost predicate GroupsSized(gn: seq<int>, ref: int)
  {
    forall g :: 0 <= g < |gn| && g != ref ==> gn[g] != 0
  }

  /** The group update, or None when a non-reference group is empty (the
      source divides by zero there). A `ref` outside `0 .. ng` pins no
      group, which is the update `oakes` performs. */
  function GroupUpdate(m: Math, sumTheta: Vec, sumSig2: Vec, gn: seq<int>, ref: int): (u: Option<(Vec, Vec)>)
    requires |sumTheta| == |sumSig2| == |gn|
    ensures u.Some? ==> |u.value.0| == |u.value.1| == |gn|
  {
    if exists g :: 0 <= g < |gn| && g != ref && gn[g] == 0 then None
    else
      Some((seq(|gn|, g requires 0 <= g < |gn| => GroupMu(sumTheta, gn, ref, g)),
            seq(|gn|, g requires 0 <= g < |gn| => GroupSigma(m, sumTheta, sumSig2, gn, ref, g))))
  }

  // ---------------------------------------------------------------------
  // The in-place loops.
  // ---------------------------------------------------------------------

  /** The item loop of the drivers: for every item, `dfpmin` from the
      current `(a[i], b[i])` on columns `i` of `r1` and `r0`, the running
      maxima of the changes, and `a[i]`, `b[i]` overwritten. */
  method FitItems(fit: Minimizer, a: array<real>, b: array<real>, r0: array2<real>, r1: array2<real>, theta: Vec)
    returns (maxA: real, maxB: real, err: Option<string>)
    requires a != b && a.Length == b.Length == r0.Length1 == r1.Length1
    modifies a, b
    ensures var f := ItemFits(fit, old(a[..]), old(b[..]), Columns(r0), Columns(r1), theta, a.Length);
            (err.None? <==> f.Success?) && (f.Failure? ==> err == Some(f.error))
            && (f.Success? ==> a[..] == As(f.value) && b[..] == Bs(f.value)
                               && maxA == MaxDif(old(a[..]), a[..]) && maxB == MaxDif(old(b[..]), b[..]))
  {
    ghost var a0, b0, c0, c1 := a[..], b[..], Columns(r0), Columns(r1);
    ghost var ps: seq<Pars> := [];
    var n := a.Length;
    maxA, maxB := 0.0, 0.0;
    for i := 0 to n
      invariant Fitted(fit, a0, b0, c0, c1, theta, i, ps, a, b, maxA, maxB)
    {
      var res := fit(Pars(a[i], b[i]), Column(r1, i), Column(r0, i), theta);
      if res.Failure? {
        FitsFail(fit, a0, b0, c0, c1, theta, i + 1, n);
        return 0.0, 0.0, Some(res.error);
      }
      maxA, maxB := WritePars(fit, a0, b0, c0, c1, theta, i, ps, res.value, a, b, maxA, maxB);
      ps := ps + [res.value];
    }
    assert a[..] == As(ps) && b[..] == Bs(ps);
    assert a0[..n] == a0 && b0[..n] == b0;
    err := None;
  }

  /** Item `i`'s fit `p` folded into the running maxima and written back. */
  method WritePars(ghost fit: Minimizer, ghost a0: Vec, ghost b0: Vec, ghost c0: seq<Vec>, ghost c1: seq<Vec>,
                   ghost theta: Vec, i: int, ghost ps: seq<Pars>, p: Pars,
                   a: array<real>, b: array<real>, maxA: real, maxB: real)
    returns (maxA': real, maxB': real)
    requires Fitted(fit, a0, b0, c0, c1, theta, i, ps, a, b, maxA, maxB) && i < a.Length && a != b
    requires ItemFits(fit, a0, b0, c0, c1, theta, i + 1) == Success(ps + [p])
    modifies a, b
    ensures Fitted(fit, a0, b0, c0, c1, theta, i + 1, ps + [p], a, b, maxA', maxB')
  {
    FitStep(a0, b0, ps, p, i);
    maxA' := Max(maxA, Abs(a[i] - p.a));
    maxB' := Max(maxB, Abs(b[i] - p.b));
    a[i] := p.a;
    b[i] := p.b;
  }

  /** The loop state of `FitItems` after `i` items. */
  ghost predicate Fitted(fit: Minimizer, a0: Vec, b0: Vec, c0: seq<Vec>, c1: seq<Vec>, theta: Vec, i: int,
                         ps: seq<Pars>, a: array<real>, b: array<real>, maxA: real, maxB: real)
    reads a, b
  {
    |a0| == |b0| == a.Length == b.Length == |c0| == |c1| && 0 <= i <= a.Length
    && ItemFits(fit, a0, b0, c0, c1, theta, i) == Success(ps)
    && (forall k :: 0 <= k < i ==> a[k] == ps[k].a && b[k] == ps[k].b)
    && (forall k :: i <= k < a.Length ==> a[k] == a0[k] && b[k] == b0[k])
    && maxA == MaxDif(a0[..i], As(ps)) && maxB == MaxDif(b0[..i], Bs(ps))
  }

  /** One more item extends both running maxima by that item's change. */
  lemma FitStep(a0: Vec, b0: Vec, ps: seq<Pars>, p: Pars, i: int)
    requires 0 <= i < |a0| && i < |b0| && |ps| == i
    ensures MaxDif(a0[..i + 1], As(ps + [p])) == Max(MaxDif(a0[..i], As(ps)), Abs(a0[i] - p.a))
    ensures MaxDif(b0[..i + 1], Bs(ps + [p])) == Max(MaxDif(b0[..i], Bs(ps)), Abs(b0[i] - p.b))
  {
    assert a0[..i + 1][..i] == a0[..i] && As(ps + [p])[..i] == As(ps);
    assert b0[..i + 1][..i] == b0[..i] && Bs(ps + [p])[..i] == Bs(ps);
  }

  /** A failing item makes every longer run of fits fail with its error. */
  lemma {:induction false} FitsFail(fit: Minimizer, a: Vec, b: Vec, r0: seq<Vec>, r1: seq<Vec>, theta: Vec, k: int, n: int)
    requires 0 < k <= n <= |a| && n <= |b| && n <= |r0| && n <= |r1|
    requires ItemFits(fit, a, b, r0, r1, theta, k - 1).Success?
    requires fit(Pars(a[k - 1], b[k - 1]), r1[k - 1], r0[k - 1], theta).Failure?
    ensures ItemFits(fit, a, b, r0, r1, theta, n)
            == Failure(fit(Pars(a[k - 1], b[k - 1]), r1[k - 1], r0[k - 1], theta).error)
    decreases n
  {
    if n > k {
      FitsFail(fit, a, b, r0, r1, theta, k, n - 1);
    }
  }

  /** The group loop of the multigroup driver. It stops at the first
      empty non-reference group. */
  method UpdateGroups(m: Math, mu: array<real>, sigma: array<real>, sumTheta: Vec, sumSig2: Vec, gn: seq<int>, ref: int)
    returns (ok: bool)
    requires mu != sigma && mu.Length == sigma.Length == |gn| == |sumTheta| == |sumSig2|
    modifies mu, sigma
    ensures var u := GroupUpdate(m, sumTheta, sumSig2, gn, ref);
            ok == u.Some? && (ok ==> mu[..] == u.value.0 && sigma[..] == u.value.1)
  {
    for g := 0 to |gn|
      invariant forall k :: 0 <= k < g ==> k == ref || gn[k] != 0
      invariant forall k :: 0 <= k < g ==> mu[k] == GroupMu(sumTheta, gn, ref, k)
      invariant forall k :: 0 <= k < g ==> sigma[k] == GroupSigma(m, sumTheta, sumSig2, gn, ref, k)
    {
      if g == ref {
        mu[g] := 0.0;
        sigma[g] := 1.0;
      } else {
        if gn[g] == 0 {
          return false;
        }
        mu[g] := Mean(sumTheta[g], gn[g]);
        sigma[g] := Sd(m, sumSig2[g], gn[g], mu[g]);
      }
    }
    ok := true;
  }

  // ---------------------------------------------------------------------
  // Properties.
  // ---------------------------------------------------------------------

  /** `maxdif` bounds every item's change and is attained by one of them
      (or is the initial 0). */
  lemma {:induction false} MaxDifBounds(x: Vec, y: Vec)
    requires |x| == |y|
    ensures MaxDif(x, y) >= 0.0
    ensures forall i :: 0 <= i < |x| ==> Abs(x[i] - y[i]) <= MaxDif(x, y)
    ensures MaxDif(x, y) == 0.0 || exists i :: 0 <= i < |x| && MaxDif(x, y) == Abs(x[i] - y[i])
    decreases |x|
  {
    if |x| > 0 {
      var n := |x| - 1;
      MaxDifBounds(x[..n], y[..n]);
      forall i | 0 <= i < n
        ensures Abs(x[i] - y[i]) <= MaxDif(x, y)
      {
        assert x[..n][i] == x[i] && y[..n][i] == y[i];
      }
      if MaxDif(x[..n], y[..n]) != 0.0 && MaxDif(x, y) == MaxDif(x[..n], y[..n]) {
        var i :| 0 <= i < n && MaxDif(x[..n], y[..n]) == Abs(x[..n][i] - y[..n][i]);
        assert x[..n][i] == x[i] && y[..n][i] == y[i];
      }
    }
  }

  /** `ItemFits` succeeds exactly when every item's fit does, and then holds
      item `i`'s fit from its own start on its own columns. */
  lemma {:induction false} ItemFitsPointwise(fit: Minimizer, a: Vec, b: Vec, r0: seq<Vec>, r1: seq<Vec>, theta: Vec, k: int)
    requires 0 <= k <= |a| && k <= |b| && k <= |r0| && k <= |r1|
    ensures ItemFits(fit, a, b, r0, r1, theta, k).Success?
            <==> forall i :: 0 <= i < k ==> fit(Pars(a[i], b[i]), r1[i], r0[i], theta).Success?
    ensures ItemFits(fit, a, b, r0, r1, theta, k).Success? ==>
              forall i :: 0 <= i < k ==>
                ItemFits(fit, a, b, r0, r1, theta, k).value[i] == fit(Pars(a[i], b[i]), r1[i], r0[i], theta).value
    decreases k
  {
    if k > 0 {
      ItemFitsPointwise(fit, a, b, r0, r1, theta, k - 1);
    }
  }

  /** The reference group leaves the update as the standard normal. */
  lemma RefGroupPinned(m: Math, sumTheta: Vec, sumSig2: Vec, gn: seq<int>, ref: int)
    requires |sumTheta| == |sumSig2| == |gn| && 0 <= ref < |gn|
    requires GroupUpdate(m, sumTheta, sumSig2, gn, ref).Some?
    ensures GroupUpdate(m, sumTheta, sumSig2, gn, ref).value.0[ref] == 0.0
    ensures GroupUpdate(m, sumTheta, sumSig2, gn, ref).value.1[ref] == 1.0
  {
  }

  /** The update is defined exactly when no non-reference group is empty;
      every other group's mean then times its size gives back its sum. */
  lemma GroupMeans(m: Math, sumTheta: Vec, sumSig2: Vec, gn: seq<int>, ref: int)
    requires |sumTheta| == |sumSig2| == |gn|
    ensures GroupUpdate(m, sumTheta, sumSig2, gn, ref).Some? <==> GroupsSized(gn, ref)
    ensures GroupsSized(gn, ref) ==>
              forall g :: 0 <= g < |gn| && g != ref ==>
                GroupUpdate(m, sumTheta, sumSig2, gn, ref).value.0[g] * gn[g] as real == sumTheta[g]
  {
  }

  /** `GroupMeans` at one group: the group is non-empty and its new mean is
      its summed posterior means over `gn[g]`. */
  lemma GroupMeanAt(m: Math, sumTheta: Vec, sumSig2: Vec, gn: seq<int>, ref: int, g: int)
    requires |sumTheta| == |sumSig2| == |gn| && 0 <= g < |gn| && g != ref
    requires GroupUpdate(m, sumTheta, sumSig2, gn, ref).Some?
    ensures gn[g] != 0 && GroupUpdate(m, sumTheta, sumSig2, gn, ref).value.0[g] == Mean(sumTheta[g], gn[g])
  {
    GroupMeans(m, sumTheta, sumSig2, gn, ref);
  }
}
