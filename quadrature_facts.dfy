/** What the quadrature rules compute, over exact reals: the identities that
    relate them and the functions for which they are exact.
 */
module QuadratureFacts {
  import opened Quadrature

  // ---------------------------------------------------------------------------
  // Identities between the rules

  lemma {:induction false} MiddleSumIsTrapezoidSum(a: seq<real>, f: seq<real>, k: nat)
    requires |f| == |a| && HasIntervals(a, k)
    ensures MiddleSum(a, f, k) == TrapezoidSum(a, f, k)
  {
    if k > 0 {
      MiddleSumIsTrapezoidSum(a, f, k - 1);
    }
  }

  /** The middle-rectangle rule averages the two ordinates of an interval, so
      it is the trapezoidal rule. */
  lemma MiddleIsTrapezoidal(a: seq<real>, f: seq<real>)
    requires |f| == |a|
    ensures MiddleRectangle(a, f) == Trapezoidal(a, f)
  {
    MiddleSumIsTrapezoidSum(a, f, Intervals(|a|));
  }

  lemma {:induction false} TrapezoidSumIsAverage(a: seq<real>, f: seq<real>, k: nat)
    requires |f| == |a| && HasIntervals(a, k)
    ensures TrapezoidSum(a, f, k) == (LeftSum(a, f, k) + RightSum(a, f, k)) / 2.0
  {
    if k > 0 {
      TrapezoidSumIsAverage(a, f, k - 1);
    }
  }

  /** The trapezoidal rule is the mean of the left and right rectangle rules. */
  lemma TrapezoidalIsAverage(a: seq<real>, f: seq<real>)
    requires |f| == |a|
    ensures Trapezoidal(a, f) == (LeftRectangle(a, f) + RightRectangle(a, f)) / 2.0
  {
    TrapezoidSumIsAverage(a, f, Intervals(|a|));
  }

  // ---------------------------------------------------------------------------
  // Constant functions: the interval widths telescope

  /** Every ordinate of the table equals c. */
  predicate Constant(f: seq<real>, c: real)
  {
    forall i :: 0 <= i < |f| ==> f[i] == c
  }

  lemma {:induction false} ConstantSums(a: seq<real>, f: seq<real>, c: real, k: nat)
    requires |f| == |a| && k < |a| && Constant(f, c)
    ensures LeftSum(a, f, k) == c * (a[k] - a[0])
    ensures RightSum(a, f, k) == c * (a[k] - a[0])
    ensures MiddleSum(a, f, k) == c * (a[k] - a[0])
    ensures TrapezoidSum(a, f, k) == c * (a[k] - a[0])
  {
    if k > 0 {
      ConstantSums(a, f, c, k - 1);
      assert f[k - 1] == c && f[k] == c;
      assert c * (a[k] - a[0]) == c * (a[k - 1] - a[0]) + c * (a[k] - a[k - 1]);
    }
  }

  /** On a constant function the four interval rules give c times the span. */
  lemma ConstantIsExact(a: seq<real>, f: seq<real>, c: real)
    requires |f| == |a| && Constant(f, c)
    ensures LeftRectangle(a, f) == c * Span(a)
    ensures RightRectangle(a, f) == c * Span(a)
    ensures MiddleRectangle(a, f) == c * Span(a)
    ensures Trapezoidal(a, f) == c * Span(a)
  {
    if |a| > 0 {
      ConstantSums(a, f, c, |a| - 1);
    }
  }

  /** For 1 <= k: the interior weights 4, 2, 4, ... of f[1..k-1] add up to
      3k - 2 for even k and 3k - 3 for odd k. */
  lemma {:induction false} ConstantSimpsonInner(f: seq<real>, c: real, k: nat)
    requires 1 <= k <= |f| && Constant(f, c)
    ensures SimpsonInner(f, k) == c * (if k % 2 == 0 then 3 * k - 2 else 3 * k - 3) as real
  {
    if k > 1 {
      ConstantSimpsonInner(f, c, k - 1);
    }
  }

  lemma ConstantSimpsonIsExact(a: seq<real>, f: seq<real>, c: real)
    requires |f| == |a| && SimpsonApplies(|a|) && Constant(f, c)
    ensures Simpson(a, f) == c * Span(a)
  {
    var n := |a|;
    if n > 1 {
      ConstantSimpsonInner(f, c, n - 1);
      var w := (n - 1) as real;
      assert f[0] + f[n - 1] + SimpsonInner(f, n - 1) == 3.0 * w * c;
      calc {
        Simpson(a, f);
        (3.0 * w * c) * (((a[n - 1] - a[0]) / w) / 3.0);
        c * (a[n - 1] - a[0]);
      }
    }
  }

  lemma {:induction false} ConstantNewtonSum(a: seq<real>, f: seq<real>, c: real, g: nat)
    requires |f| == |a| && 3 * g < |a| && Constant(f, c)
    ensures NewtonSum(a, f, g) == c * (a[3 * g] - a[0])
  {
    if g > 0 {
      ConstantNewtonSum(a, f, c, g - 1);
      var i := 3 * (g - 1);
      assert NewtonGroup(a, f, i) == c * (a[i + 3] - a[i]);
    }
  }

  lemma ConstantNewtonIsExact(a: seq<real>, f: seq<real>, c: real)
    requires |f| == |a| && NewtonApplies(|a|) && Constant(f, c)
    ensures Newton(a, f) == c * Span(a)
  {
    ConstantNewtonSum(a, f, c, (|a| - 1) / 3);
  }

  // ---------------------------------------------------------------------------
  // Simpson reads only the two end abscissas

  lemma SimpsonReadsOnlyEndpoints(a: seq<real>, b: seq<real>, f: seq<real>)
    requires |f| == |a| == |b| && SimpsonApplies(|a|)
    requires a[0] == b[0] && a[|a| - 1] == b[|b| - 1]
    ensures Simpson(a, f) == Simpson(b, f)
  {
  }

  // ---------------------------------------------------------------------------
  // Linear functions: the trapezoid is exact on any partition

  /** The table samples the line f(x) = m x + b. */
  predicate SamplesLine(a: seq<real>, f: seq<real>, m: real, b: real)
    requires |f| == |a|
  {
    forall i :: 0 <= i < |a| ==> f[i] == m * a[i] + b
  }

  /** An antiderivative of m x + b. */
  function LinePrimitive(m: real, b: real, x: real): real
  {
    m * (x * x) / 2.0 + b * x
  }

  /** One trapezoid under a line is exactly its area. */
  lemma LineIntervalIsExact(m: real, b: real, x: real, y: real, fx: real, fy: real)
    requires fx == m * x + b && fy == m * y + b
    ensures 0.5 * (fy + fx) * (y - x) == LinePrimitive(m, b, y) - LinePrimitive(m, b, x)
  {
  }

  /** Adding one trapezoid under a line extends the exact integral by one interval. */
  lemma LineStep(m: real, b: real, x0: real, x: real, y: real, fx: real, fy: real, prev: real, total: real)
    requires fx == m * x + b && fy == m * y + b
    requires prev == LinePrimitive(m, b, x) - LinePrimitive(m, b, x0)
    requires total == prev + 0.5 * (fy + fx) * (y - x)
    ensures total == LinePrimitive(m, b, y) - LinePrimitive(m, b, x0)
  {
    LineIntervalIsExact(m, b, x, y, fx, fy);
  }

  lemma {:induction false} LineTrapezoidSum(a: seq<real>, f: seq<real>, m: real, b: real, k: nat)
    requires |f| == |a| && k < |a| && SamplesLine(a, f, m, b)
    ensures TrapezoidSum(a, f, k) == LinePrimitive(m, b, a[k]) - LinePrimitive(m, b, a[0])
  {
    if k > 0 {
      LineTrapezoidSum(a, f, m, b, k - 1);
      LineStep(m, b, a[0], a[k - 1], a[k], f[k - 1], f[k], TrapezoidSum(a, f, k - 1), TrapezoidSum(a, f, k));
    }
  }

  /** The trapezoidal rule, and so the middle-rectangle rule, integrate a
      linear function exactly on any partition. */
  lemma LineTrapezoidalIsExact(a: seq<real>, f: seq<real>, m: real, b: real)
    requires |f| == |a| && 0 < |a| && SamplesLine(a, f, m, b)
    ensures Trapezoidal(a, f) == LinePrimitive(m, b, a[|a| - 1]) - LinePrimitive(m, b, a[0])
    ensures MiddleRectangle(a, f) == Trapezoidal(a, f)
  {
    LineTrapezoidSum(a, f, m, b, |a| - 1);
    MiddleIsTrapezoidal(a, f);
  }

  // ---------------------------------------------------------------------------
  // Degenerate tables and worked examples

  /** A single point spans no width, so Simpson's rule gives zero. */
  lemma SimpsonSinglePointIsZero(a: seq<real>, f: seq<real>)
    requires |f| == |a| == 1
    ensures Simpson(a, f) == 0.0
  {
  }

  /** f(x) = x * x on 0, 1, 2, 3, 4: the trapezoids give 22 and Simpson's
      rule gives the exact 64/3. */
  lemma SquareExample()
    ensures Trapezoidal([0.0, 1.0, 2.0, 3.0, 4.0], [0.0, 1.0, 4.0, 9.0, 16.0]) == 22.0
    ensures Simpson([0.0, 1.0, 2.0, 3.0, 4.0], [0.0, 1.0, 4.0, 9.0, 16.0]) == 64.0 / 3.0
  {
    var a, f := [0.0, 1.0, 2.0, 3.0, 4.0], [0.0, 1.0, 4.0, 9.0, 16.0];
    assert TrapezoidSum(a, f, 1) == 0.5;
    assert TrapezoidSum(a, f, 2) == 3.0;
    assert TrapezoidSum(a, f, 3) == 9.5;
    assert TrapezoidSum(a, f, 4) == 22.0;
    assert SimpsonInner(f, 2) == 4.0;
    assert SimpsonInner(f, 3) == 12.0;
    assert SimpsonInner(f, 4) == 48.0;
  }

  /** The constant 3 on the two points 0 and 2: every interval rule gives 6. */
  lemma ConstantExample()
    ensures LeftRectangle([0.0, 2.0], [3.0, 3.0]) == 6.0
    ensures RightRectangle([0.0, 2.0], [3.0, 3.0]) == 6.0
    ensures MiddleRectangle([0.0, 2.0], [3.0, 3.0]) == 6.0
    ensures Trapezoidal([0.0, 2.0], [3.0, 3.0]) == 6.0
    ensures !SimpsonApplies(2) && !NewtonApplies(2)
  {
    ConstantIsExact([0.0, 2.0], [3.0, 3.0], 3.0);
  }

  // ---------------------------------------------------------------------------
  // Polynomials on a uniform grid: Simpson's rule is exact up to degree three,
  // Newton's rule up to degree two

  /** p x^2 + q x + r. */
  function Quadratic(p: real, q: real, r: real, x: real): real
  {
    p * (x * x) + q * x + r
  }

  /** An antiderivative of p x^2 + q x + r. */
  function QuadraticPrimitive(p: real, q: real, r: real, x: real): real
  {
    p * (x * x * x) / 3.0 + q * (x * x) / 2.0 + r * x
  }

  /** s x^3 + p x^2 + q x + r. */
  function Cubic(s: real, p: real, q: real, r: real, x: real): real
  {
    s * (x * x * x) + Quadratic(p, q, r, x)
  }

  /** An antiderivative of s x^3 + p x^2 + q x + r. */
  function CubicPrimitive(s: real, p: real, q: real, r: real, x: real): real
  {
    s * (x * x * x * x) / 4.0 + QuadraticPrimitive(p, q, r, x)
  }

  /** The abscissas are x0, x0 + h, x0 + 2h, ... */
  predicate Uniform(a: seq<real>, x0: real, h: real)
  {
    forall i :: 0 <= i < |a| ==> a[i] == x0 + (i as real) * h
  }

  predicate SamplesQuadratic(a: seq<real>, f: seq<real>, p: real, q: real, r: real)
    requires |f| == |a|
  {
    forall i :: 0 <= i < |a| ==> f[i] == Quadratic(p, q, r, a[i])
  }

  predicate SamplesCubic(a: seq<real>, f: seq<real>, s: real, p: real, q: real, r: real)
    requires |f| == |a|
  {
    forall i :: 0 <= i < |a| ==> f[i] == Cubic(s, p, q, r, a[i])
  }

  /** Points i and i + k of a uniform grid lie k steps apart. */
  lemma UniformOffset(a: seq<real>, x0: real, h: real, i: nat, k: nat)
    requires i + k < |a| && Uniform(a, x0, h)
    ensures a[i + k] == a[i] + (k as real) * h
  {
    assert a[i] == x0 + (i as real) * h;
    assert a[i + k] == x0 + ((i + k) as real) * h;
  }

  lemma UniformStepSize(a: seq<real>, x0: real, h: real)
    requires 2 <= |a| && Uniform(a, x0, h)
    ensures SimpsonStep(a) == h
  {
    var w := (|a| - 1) as real;
    assert a[|a| - 1] - a[0] == w * h;
  }

  // Simpson's rule, panel by panel

  /** One Simpson panel f(x) + 4 f(x + h) + f(x + 2h) over points 2j .. 2j + 2. */
  function Panel(f: seq<real>, j: nat): real
    requires 2 * j + 2 < |f|
  {
    f[2 * j] + 4.0 * f[2 * j + 1] + f[2 * j + 2]
  }

  function PanelSum(f: seq<real>, m: nat): real
    requires 2 * m < |f|
  {
    if m == 0 then 0.0 else PanelSum(f, m - 1) + Panel(f, m - 1)
  }

  /** Every panel of f, times h / 3, is the rise of F across it. */
  ghost predicate PanelsMatch(f: seq<real>, F: seq<real>, h: real)
    requires |F| == |f|
  {
    forall j: nat :: 2 * j + 2 < |f| ==> Panel(f, j) * (h / 3.0) == F[2 * j + 2] - F[2 * j]
  }

  lemma Accumulate(s: real, t: real, total: real, k: real, u: real, v: real, w: real)
    requires total == s + t
    requires s * k == v - u && t * k == w - v
    ensures total * k == w - u
  {
  }

  lemma {:induction false} PanelsExact(f: seq<real>, F: seq<real>, h: real, m: nat)
    requires |F| == |f| && 2 * m < |f| && PanelsMatch(f, F, h)
    ensures PanelSum(f, m) * (h / 3.0) == F[2 * m] - F[0]
  {
    if m > 0 {
      PanelsExact(f, F, h, m - 1);
      assert Panel(f, m - 1) * (h / 3.0) == F[2 * m] - F[2 * (m - 1)];
      Accumulate(PanelSum(f, m - 1), Panel(f, m - 1), PanelSum(f, m), h / 3.0,
                 F[0], F[2 * (m - 1)], F[2 * m]);
    }
  }

  /** The end ordinates plus the interior weights 4, 2, ..., 4 regroup into panels. */
  lemma {:induction false} InnerIsPanels(f: seq<real>, m: nat)
    requires 1 <= m && 2 * m < |f|
    ensures f[0] + f[2 * m] + SimpsonInner(f, 2 * m) == PanelSum(f, m)
  {
    assert Coef(2 * m - 1) == 4.0 by { assert (2 * m - 1) % 2 == 1; }
    if m > 1 {
      InnerIsPanels(f, m - 1);
      assert Coef(2 * m - 2) == 2.0 by { assert (2 * m - 2) % 2 == 0; }
    }
  }

  lemma SimpsonFromPanels(a: seq<real>, f: seq<real>, F: seq<real>, h: real)
    requires |f| == |a| && |F| == |a| && 3 <= |a| && SimpsonApplies(|a|)
    requires SimpsonStep(a) == h && PanelsMatch(f, F, h)
    ensures Simpson(a, f) == F[|a| - 1] - F[0]
  {
    var m := (|a| - 1) / 2;
    assert 2 * m == |a| - 1;
    InnerIsPanels(f, m);
    PanelsExact(f, F, h, m);
  }

  /** One panel under a quadratic is the rise of its antiderivative. */
  lemma QuadraticPanel(p: real, q: real, r: real, x: real, y: real, z: real, h: real,
                        fx: real, fy: real, fz: real, gx: real, gz: real)
    requires y == x + h && z == x + 2.0 * h
    requires fx == Quadratic(p, q, r, x) && fy == Quadratic(p, q, r, y) && fz == Quadratic(p, q, r, z)
    requires gx == QuadraticPrimitive(p, q, r, x) && gz == QuadraticPrimitive(p, q, r, z)
    ensures (fx + 4.0 * fy + fz) * (h / 3.0) == gz - gx
  {
  }

  /** The x^3 part of one panel. */
  lemma CubePanel(x: real, h: real, y: real, z: real)
    requires y == x + h && z == x + 2.0 * h
    ensures (x * x * x + 4.0 * (y * y * y) + z * z * z) * (h / 3.0) == (z * z * z * z - x * x * x * x) / 4.0
  {
    assert y * y == x * x + 2.0 * x * h + h * h;
    assert y * y * y == x * x * x + 3.0 * x * x * h + 3.0 * x * h * h + h * h * h;
    assert z * z == x * x + 4.0 * x * h + 4.0 * h * h;
    assert z * z * z == x * x * x + 6.0 * x * x * h + 12.0 * x * h * h + 8.0 * h * h * h;
    assert z * z * z * z == x * x * x * x + 8.0 * x * x * x * h + 24.0 * x * x * h * h
                            + 32.0 * x * h * h * h + 16.0 * h * h * h * h;
  }

  /** One panel under a cubic, with weighted ordinates t, is the rise of its
      antiderivative: the quadratic part and the x^3 part, combined by linearity. */
  lemma CubicPanel(s: real, p: real, q: real, r: real, x: real, y: real, z: real, h: real,
                    fx: real, fy: real, fz: real, t: real, gx: real, gz: real)
    requires y == x + h && z == x + 2.0 * h
    requires fx == Cubic(s, p, q, r, x) && fy == Cubic(s, p, q, r, y) && fz == Cubic(s, p, q, r, z)
    requires t == fx + 4.0 * fy + fz
    requires gx == CubicPrimitive(s, p, q, r, x) && gz == CubicPrimitive(s, p, q, r, z)
    ensures t * (h / 3.0) == gz - gx
  {
    var qx, qy, qz := Quadratic(p, q, r, x), Quadratic(p, q, r, y), Quadratic(p, q, r, z);
    QuadraticPanel(p, q, r, x, y, z, h, qx, qy, qz,
                   QuadraticPrimitive(p, q, r, x), QuadraticPrimitive(p, q, r, z));
    CubePanel(x, h, y, z);
    var cx, cy, cz := x * x * x, y * y * y, z * z * z;
    assert t == s * (cx + 4.0 * cy + cz) + (qx + 4.0 * qy + qz);
    assert t * (h / 3.0) == s * ((cx + 4.0 * cy + cz) * (h / 3.0)) + (qx + 4.0 * qy + qz) * (h / 3.0);
  }

  /** Panel j of a cubic sampled on a uniform grid is the rise of its antiderivative. */
  lemma CubicPanelAt(a: seq<real>, f: seq<real>, F: seq<real>, x0: real, h: real,
                      s: real, p: real, q: real, r: real, j: nat)
    requires |f| == |a| && |F| == |a| && 2 * j + 2 < |a|
    requires Uniform(a, x0, h) && SamplesCubic(a, f, s, p, q, r)
    requires forall i :: 0 <= i < |a| ==> F[i] == CubicPrimitive(s, p, q, r, a[i])
    ensures Panel(f, j) * (h / 3.0) == F[2 * j + 2] - F[2 * j]
  {
    UniformOffset(a, x0, h, 2 * j, 1);
    UniformOffset(a, x0, h, 2 * j, 2);
    CubicPanel(s, p, q, r, a[2 * j], a[2 * j + 1], a[2 * j + 2], h, f[2 * j], f[2 * j + 1], f[2 * j + 2],
               Panel(f, j), F[2 * j], F[2 * j + 2]);
  }

  /** Simpson's rule integrates a cubic exactly on a uniform grid. */
  lemma SimpsonCubicIsExact(a: seq<real>, f: seq<real>, x0: real, h: real, s: real, p: real, q: real, r: real)
    requires |f| == |a| && SimpsonApplies(|a|) && Uniform(a, x0, h) && SamplesCubic(a, f, s, p, q, r)
    ensures Simpson(a, f) == CubicPrimitive(s, p, q, r, a[|a| - 1]) - CubicPrimitive(s, p, q, r, a[0])
  {
    if |a| > 1 {
      var F := seq(|a|, i requires 0 <= i < |a| => CubicPrimitive(s, p, q, r, a[i]));
      forall j: nat | 2 * j + 2 < |f|
        ensures Panel(f, j) * (h / 3.0) == F[2 * j + 2] - F[2 * j]
      {
        CubicPanelAt(a, f, F, x0, h, s, p, q, r, j);
      }
      UniformStepSize(a, x0, h);
      SimpsonFromPanels(a, f, F, h);
    }
  }

  /** Simpson's rule integrates a quadratic exactly on a uniform grid: the
      cubic case with no x^3 term. */
  lemma SimpsonQuadraticIsExact(a: seq<real>, f: seq<real>, x0: real, h: real, p: real, q: real, r: real)
    requires |f| == |a| && SimpsonApplies(|a|) && Uniform(a, x0, h) && SamplesQuadratic(a, f, p, q, r)
    ensures Simpson(a, f) == QuadraticPrimitive(p, q, r, a[|a| - 1]) - QuadraticPrimitive(p, q, r, a[0])
  {
    assert SamplesCubic(a, f, 0.0, p, q, r);
    SimpsonCubicIsExact(a, f, x0, h, 0.0, p, q, r);
  }

  // Newton's rule, group by group

  /** One 3/8 group under a quadratic, with weighted ordinates s, is the rise
      of its antiderivative. */
  lemma QuadraticGroup(p: real, q: real, r: real, x: real, y: real, z: real, w: real, h: real,
                        f0: real, f1: real, f2: real, f3: real, s: real, gx: real, gw: real)
    requires y == x + h && z == x + 2.0 * h && w == x + 3.0 * h
    requires f0 == Quadratic(p, q, r, x) && f1 == Quadratic(p, q, r, y)
    requires f2 == Quadratic(p, q, r, z) && f3 == Quadratic(p, q, r, w)
    requires s == f0 + 3.0 * f1 + 3.0 * f2 + f3
    requires gx == QuadraticPrimitive(p, q, r, x) && gw == QuadraticPrimitive(p, q, r, w)
    ensures s * 3.0 * ((w - x) / 3.0) / 8.0 == gw - gx
  {
    assert (w - x) / 3.0 == h;
  }

  /** Group i of a quadratic sampled on a uniform grid is the rise of its antiderivative. */
  lemma QuadraticGroupAt(a: seq<real>, f: seq<real>, F: seq<real>, x0: real, h: real,
                         p: real, q: real, r: real, i: nat)
    requires |f| == |a| && |F| == |a| && i + 3 < |a|
    requires Uniform(a, x0, h) && SamplesQuadratic(a, f, p, q, r)
    requires forall k :: 0 <= k < |a| ==> F[k] == QuadraticPrimitive(p, q, r, a[k])
    ensures NewtonGroup(a, f, i) == F[i + 3] - F[i]
  {
    UniformOffset(a, x0, h, i, 1);
    UniformOffset(a, x0, h, i, 2);
    UniformOffset(a, x0, h, i, 3);
    QuadraticGroup(p, q, r, a[i], a[i + 1], a[i + 2], a[i + 3], h, f[i], f[i + 1], f[i + 2], f[i + 3],
                   f[i] + 3.0 * f[i + 1] + 3.0 * f[i + 2] + f[i + 3], F[i], F[i + 3]);
  }

  lemma {:induction false} QuadraticNewtonSum(a: seq<real>, f: seq<real>, F: seq<real>, x0: real, h: real,
                                              p: real, q: real, r: real, g: nat)
    requires |f| == |a| && |F| == |a| && 3 * g < |a|
    requires Uniform(a, x0, h) && SamplesQuadratic(a, f, p, q, r)
    requires forall k :: 0 <= k < |a| ==> F[k] == QuadraticPrimitive(p, q, r, a[k])
    ensures NewtonSum(a, f, g) == F[3 * g] - F[0]
  {
    if g > 0 {
      QuadraticNewtonSum(a, f, F, x0, h, p, q, r, g - 1);
      QuadraticGroupAt(a, f, F, x0, h, p, q, r, 3 * (g - 1));
    }
  }

  /** Newton's 3/8 rule integrates a quadratic exactly on a uniform grid. */
  lemma NewtonQuadraticIsExact(a: seq<real>, f: seq<real>, x0: real, h: real, p: real, q: real, r: real)
    requires |f| == |a| && NewtonApplies(|a|) && Uniform(a, x0, h) && SamplesQuadratic(a, f, p, q, r)
    ensures Newton(a, f) == QuadraticPrimitive(p, q, r, a[|a| - 1]) - QuadraticPrimitive(p, q, r, a[0])
  {
    var F := seq(|a|, i requires 0 <= i < |a| => QuadraticPrimitive(p, q, r, a[i]));
    QuadraticNewtonSum(a, f, F, x0, h, p, q, r, (|a| - 1) / 3);
  }
}
