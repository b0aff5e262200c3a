/** The quadrature rules of a tabulated function, as functions over exact reals.

    A tabulated function is a pair of sequences of equal length: the abscissas
    `a` and the ordinates `f`, with `f[i]` the value at `a[i]`. Interval `j` is
    the one between `a[j]` and `a[j + 1]`. Every rule is a recursive sum over a
    prefix of the intervals; the class `Integrals.Integral` computes the same
    sums with loops and is proved equal to these functions.
 */
module Quadrature {

  /** The exceptions the class throws. */
  datatype Error = InvalidArgument | LogicError | OutOfRange

  datatype Result<T> = Ok(value: T) | Err(error: Error)

  /** Number of intervals between `n` points (an empty table has none). */
  function Intervals(n: nat): nat
  {
    if n == 0 then 0 else n - 1
  }

  /** The first `k` intervals of `a` exist. */
  predicate HasIntervals(a: seq<real>, k: nat)
  {
    k == 0 || k < |a|
  }

  /** Width of the whole table, a[n-1] - a[0] (zero for an empty table). */
  function Span(a: seq<real>): real
  {
    if |a| == 0 then 0.0 else a[|a| - 1] - a[0]
  }

  // ---------------------------------------------------------------------------
  // Rectangle and trapezoid sums over the first k intervals

  function LeftSum(a: seq<real>, f: seq<real>, k: nat): real
    requires |f| == |a| && HasIntervals(a, k)
  {
    if k == 0 then 0.0
    else LeftSum(a, f, k - 1) + f[k - 1] * (a[k] - a[k - 1])
  }

  function RightSum(a: seq<real>, f: seq<real>, k: nat): real
    requires |f| == |a| && HasIntervals(a, k)
  {
    if k == 0 then 0.0
    else RightSum(a, f, k - 1) + f[k] * (a[k] - a[k - 1])
  }

  function MiddleSum(a: seq<real>, f: seq<real>, k: nat): real
    requires |f| == |a| && HasIntervals(a, k)
  {
    if k == 0 then 0.0
    else MiddleSum(a, f, k - 1) + ((f[k - 1] + f[k]) / 2.0) * (a[k] - a[k - 1])
  }

  function TrapezoidSum(a: seq<real>, f: seq<real>, k: nat): real
    requires |f| == |a| && HasIntervals(a, k)
  {
    if k == 0 then 0.0
    else TrapezoidSum(a, f, k - 1) + 0.5 * (f[k] + f[k - 1]) * (a[k] - a[k - 1])
  }

  /** The four rules over all intervals of the table. */
  function LeftRectangle(a: seq<real>, f: seq<real>): real
    requires |f| == |a|
  {
    LeftSum(a, f, Intervals(|a|))
  }

  function RightRectangle(a: seq<real>, f: seq<real>): real
    requires |f| == |a|
  {
    RightSum(a, f, Intervals(|a|))
  }

  function MiddleRectangle(a: seq<real>, f: seq<real>): real
    requires |f| == |a|
  {
    MiddleSum(a, f, Intervals(|a|))
  }

  function Trapezoidal(a: seq<real>, f: seq<real>): real
    requires |f| == |a|
  {
    TrapezoidSum(a, f, Intervals(|a|))
  }

  // ---------------------------------------------------------------------------
  // Simpson's rule

  /** Simpson weight of an interior point: 4 at odd indices, 2 at even ones. */
  function Coef(i: nat): real
  {
    if i % 2 == 1 then 4.0 else 2.0
  }

  /** Weighted sum of the interior ordinates f[1], ..., f[k-1]. */
  function SimpsonInner(f: seq<real>, k: nat): real
    requires k <= |f|
  {
    if k <= 1 then 0.0
    else SimpsonInner(f, k - 1) + Coef(k - 1) * f[k - 1]
  }

  /** Simpson's rule applies to an odd number of points. */
  predicate SimpsonApplies(n: nat)
  {
    n % 2 == 1
  }

  /** The common step (a[n-1] - a[0]) / (n - 1); a single point has width 0. */
  function SimpsonStep(a: seq<real>): real
  {
    if |a| <= 1 then 0.0 else (a[|a| - 1] - a[0]) / ((|a| - 1) as real)
  }

  function Simpson(a: seq<real>, f: seq<real>): real
    requires |f| == |a| && SimpsonApplies(|a|)
  {
    (f[0] + f[|a| - 1] + SimpsonInner(f, |a| - 1)) * (SimpsonStep(a) / 3.0)
  }

  // ---------------------------------------------------------------------------
  // Newton's 3/8 rule

  /** Newton's rule applies to 3g + 1 points with g >= 1 groups. */
  predicate NewtonApplies(n: nat)
  {
    !(n < 4 || n % 3 != 1)
  }

  /** Contribution of the group of three intervals starting at point i. */
  function NewtonGroup(a: seq<real>, f: seq<real>, i: nat): real
    requires |f| == |a| && i + 3 < |a|
  {
    var h := (a[i + 3] - a[i]) / 3.0;
    (f[i] + 3.0 * f[i + 1] + 3.0 * f[i + 2] + f[i + 3]) * 3.0 * h / 8.0
  }

  /** Sum of the first g groups, starting at points 0, 3, ..., 3(g-1). */
  function NewtonSum(a: seq<real>, f: seq<real>, g: nat): real
    requires |f| == |a| && HasIntervals(a, 3 * g)
  {
    if g == 0 then 0.0
    else NewtonSum(a, f, g - 1) + NewtonGroup(a, f, 3 * (g - 1))
  }

  function Newton(a: seq<real>, f: seq<real>): real
    requires |f| == |a| && NewtonApplies(|a|)
  {
    NewtonSum(a, f, (|a| - 1) / 3)
  }
}
