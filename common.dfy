/** Shared vocabulary: optional results, the uninterpreted numerical functions
    of the C runtime, and exact sums over real vectors (Armadillo's `accu`). */
module Common {

  datatype Option<T> = None | Some(value: T)

  /** The outcome of a call that can raise `Rcpp::stop`. */
  datatype Result<T> = Success(value: T) | Failure(error: string)

  /** A column vector of doubles, modelled over the reals. */
  type Vec = seq<real>

  /** The numerical primitives the engine calls, left uninterpreted:
      `exp`, `log`, `sqrt`, the normal CDF `pnorm(x, mean, sd)`, and the
      two floating-point tests `std::isinf` and `is_finite` (which differ
      on NaN, so they are kept apart). */
  datatype Math = Math(exp: real -> real, log: real -> real, sqrt: real -> real,
                       pnorm: (real, real, real) -> real,
                       isInf: real -> bool, isFinite: real -> bool)
  {
    /** The one fact about `exp` the model relies on: it is positive, so
        `1/(1+exp(x))` and the Hessian's denominators are defined. */
    ghost predicate ExpPositive()
    {
      forall x :: exp(x) > 0.0
    }
  }

  /** Entry `t` of `v`, or 0 outside its range. */
  function At(v: Vec, t: int): real
  {
    if 0 <= t < |v| then v[t] else 0.0
  }

  /** `accu(v)`: the sum of all entries, accumulated front to back. */
  function Sum(v: Vec): real
  {
    if |v| == 0 then 0.0 else Sum(v[..|v| - 1]) + v[|v| - 1]
  }

  /** `accu(u % v)`: the sum of elementwise products. */
  function Dot(u: Vec, v: Vec): real
    requires |u| == |v|
  {
    if |u| == 0 then 0.0 else Dot(u[..|u| - 1], v[..|v| - 1]) + u[|u| - 1] * v[|v| - 1]
  }

  /** `v / c` for a vector and a scalar. */
  function Scale(v: Vec, c: real): (r: Vec)
    requires c != 0.0
    ensures |r| == |v| && forall t :: 0 <= t < |v| ==> r[t] * c == v[t]
  {
    seq(|v|, t requires 0 <= t < |v| => v[t] / c)
  }

  /** `u % v`: the elementwise (Schur) product. */
  function Hadamard(u: Vec, v: Vec): (r: Vec)
    requires |u| == |v|
    ensures |r| == |u|
  {
    seq(|u|, t requires 0 <= t < |u| => u[t] * v[t])
  }

  ghost predicate NonNegative(v: Vec)
  {
    forall t :: 0 <= t < |v| ==> v[t] >= 0.0
  }

  /** The sum of `f(0) + ... + f(n-1)`; used to state totals over matrices. */
  function SumF(f: int -> real, n: int): real
    decreases n
  {
    if n <= 0 then 0.0 else SumF(f, n - 1) + f(n - 1)
  }

  /** `accu` over an array, as the loop Armadillo runs. */
  method Accu(a: array<real>) returns (s: real)
    ensures s == Sum(a[..])
  {
    s := 0.0;
    var k := 0;
    while k < a.Length
      invariant 0 <= k <= a.Length
      invariant s == Sum(a[..k])
    {
      assert a[..k + 1][..k] == a[..k];
      s := s + a[k];
      k := k + 1;
    }
    assert a[..a.Length] == a[..];
  }

  lemma {:induction false} SumFExt(f: int -> real, g: int -> real, n: int)
    requires forall i :: 0 <= i < n ==> f(i) == g(i)
    ensures SumF(f, n) == SumF(g, n)
    decreases n
  {
    if n > 0 {
      SumFExt(f, g, n - 1);
    }
  }

  lemma {:induction false} SumFAdd(f: int -> real, g: int -> real, h: int -> real, n: int)
    requires forall i :: 0 <= i < n ==> h(i) == f(i) + g(i)
    ensures SumF(h, n) == SumF(f, n) + SumF(g, n)
    decreases n
  {
    if n > 0 {
      SumFAdd(f, g, h, n - 1);
    }
  }

  lemma {:induction false} SumFMul(f: int -> real, g: int -> real, c: real, n: int)
    requires forall i :: 0 <= i < n ==> g(i) == c * f(i)
    ensures SumF(g, n) == c * SumF(f, n)
    decreases n
  {
    if n > 0 {
      SumFMul(f, g, c, n - 1);
    }
  }

  /** A sum with a single non-zero term is that term. */
  lemma {:induction false} SumFPoint(f: int -> real, j: int, x: real, n: int)
    requires forall i :: 0 <= i < n ==> f(i) == (if i == j then x else 0.0)
    ensures SumF(f, n) == if 0 <= j < n then x else 0.0
    decreases n
  {
    if n > 0 {
      SumFPoint(f, j, x, n - 1);
    }
  }

  lemma SumFZero(f: int -> real, n: int)
    requires forall i :: 0 <= i < n ==> f(i) == 0.0
    ensures SumF(f, n) == 0.0
  {
    SumFPoint(f, -1, 0.0, n);
  }

  lemma {:induction false} SumAsSumF(v: Vec)
    ensures Sum(v) == SumF(t => At(v, t), |v|)
    decreases |v|
  {
    if |v| > 0 {
      var u := v[..|v| - 1];
      SumAsSumF(u);
      SumFExt(t => At(u, t), t => At(v, t), |u|);
    }
  }

  lemma {:induction false} SumScale(v: Vec, c: real)
    requires c != 0.0
    ensures Sum(Scale(v, c)) == Sum(v) / c
    decreases |v|
  {
    if |v| > 0 {
      var u := v[..|v| - 1];
      assert Scale(v, c)[..|v| - 1] == Scale(u, c);
      SumScale(u, c);
    }
  }

  lemma {:induction false} SumNonNegative(v: Vec)
    requires NonNegative(v)
    ensures Sum(v) >= 0.0
    decreases |v|
  {
    if |v| > 0 {
      SumNonNegative(v[..|v| - 1]);
    }
  }

  /** Every entry of `x` lies in [lo, hi]. */
  ghost predicate Within(x: Vec, lo: real, hi: real)
  {
    forall t :: 0 <= t < |x| ==> lo <= x[t] <= hi
  }

  /** A non-negative weighting of values in [lo, hi] lands in
      [lo * total weight, hi * total weight]. */
  lemma DotBounds(w: Vec, x: Vec, lo: real, hi: real)
    requires |w| == |x| && NonNegative(w) && Within(x, lo, hi)
    ensures lo * Sum(w) <= Dot(w, x) <= hi * Sum(w)
  {
    DotAbove(w, x, lo);
    DotBelow(w, x, hi);
  }

  lemma {:induction false} DotAbove(w: Vec, x: Vec, lo: real)
    requires |w| == |x| && NonNegative(w) && forall t :: 0 <= t < |x| ==> lo <= x[t]
    ensures lo * Sum(w) <= Dot(w, x)
    decreases |w|
  {
    if |w| > 0 {
      var n := |w| - 1;
      DotAbove(w[..n], x[..n], lo);
      StepAbove(lo, Sum(w[..n]), Dot(w[..n], x[..n]), w[n], x[n], Sum(w), Dot(w, x));
    }
  }

  lemma {:induction false} DotBelow(w: Vec, x: Vec, hi: real)
    requires |w| == |x| && NonNegative(w) && forall t :: 0 <= t < |x| ==> x[t] <= hi
    ensures Dot(w, x) <= hi * Sum(w)
    decreases |w|
  {
    if |w| > 0 {
      var n := |w| - 1;
      DotBelow(w[..n], x[..n], hi);
      StepAbove(-hi, Sum(w[..n]), -Dot(w[..n], x[..n]), w[n], -x[n], Sum(w), -Dot(w, x));
    }
  }

  /** One more weight `wn` on a value `xn >= lo` keeps a weighted total above `lo` times the weight. */
  lemma StepAbove(lo: real, sw: real, dw: real, wn: real, xn: real, s: real, d: real)
    requires lo * sw <= dw && wn >= 0.0 && lo <= xn
    requires s == sw + wn && d == dw + wn * xn
    ensures lo * s <= d
  {
    MulLe(wn, lo, xn);
    Distribute(lo, sw, wn);
  }

  /** The logistic `1 / (1 + e)` of a positive `e` is a probability strictly
      between 0 and 1. */
  lemma LogisticInUnit(e: real)
    requires e > 0.0
    ensures 0.0 < 1.0 / (1.0 + e) < 1.0
  {
  }

  lemma MulLe(c: real, a: real, b: real)
    requires c >= 0.0 && a <= b
    ensures a * c <= c * b && c * a <= b * c
  {
  }

  /** `w` copies of `x` are `n` copies and one more. */
  lemma AddOnce(n: real, w: real, x: real)
    requires w == n + 1.0
    ensures w * x == n * x + x
  {
  }

  lemma Distribute(c: real, a: real, b: real)
    ensures c * (a + b) == c * a + c * b
  {
  }
}
