# Integral: verified model of a tabulated-function quadrature class

The program approximates a definite integral from a tabulated function. A
table is `n` abscissas `argumentValues` and `n` ordinates `functionValues`,
held in two arrays owned by a C++ class `Integral`. The class copies the
caller's vectors in at construction and deep-copies them on copy and
assignment. It offers checked indexed access and six quadrature rules:
- left, middle and right rectangles;
- the trapezoidal rule;
- Simpson's rule;
- Newton's 3/8 rule.

The model has four modules:
- `Quadrature` (quadrature.dfy): the six rules as recursive sums over exact
  reals, together with the error kinds and a `Result` type. The exceptions
  `invalid_argument`, `logic_error` and `out_of_range` become `Err` values.
- `Integrals` (integral.dfy): `class Integral`, with the two arrays and `n`
  as fields. Every constructor, assignment and accessor of the source is
  here. Each quadrature method is the source's accumulation loop, proved
  through its loop invariants to compute the matching function of
  `Quadrature`.
- `QuadratureFacts` (quadrature_facts.dfy): what those functions compute.
  - The middle-rectangle rule equals the trapezoidal rule.
  - The trapezoidal rule is the mean of the left and right rules.
  - Every rule is exact on constant tables.
  - The trapezoidal and middle rules are exact on linear tables.
  - On a uniform grid, Simpson's rule is exact on cubics and Newton's rule
    on quadratics.
  - Simpson's rule reads only the two end abscissas.
  - Two worked examples.
- `Findings` (findings.dfy): the unsigned `size_t` arithmetic of the
  rectangle guards and of Simpson's divisor as written, for the findings
  below.

Arithmetic is over `real`, not IEEE doubles. The model therefore checks the
index ranges, guards, weights and algebraic identities of the rules, not
their rounding.

Where the model follows the code and where it corrects it:
- The checked constructor compares both vectors against the `size`
  argument (test_lab2/test_lab2.cpp:14), and the model does the same.
- An empty table should integrate to 0 under the left and middle
  rectangles. The `size_t` guard `i < n - 1` at
  test_lab2/test_lab2.cpp:100 and :109 wraps at `n == 0`, so the code reads
  past the empty arrays. The model uses the corrected guard `i + 1 < n`.
- Simpson's rule accepts a single point. The code then computes
  `0.0 / 0.0` at test_lab2/test_lab2.cpp:86, which is NaN. The model takes
  the step to be 0 there and returns 0.
- Both corrections are recorded under Findings, each with a member that
  models the code as written.

## Model

| member | source | states |
|---|---|---|
| Integrals.Integral.Empty | test_lab2/test_lab2.cpp:9 | The default object is an empty table: `n == 0` and both arrays hold nothing. |
| Integrals.Integral.Create | test_lab2/test_lab2.cpp:11-27 | Fails with InvalidArgument exactly when `args` or `vals` does not have `size` elements. Otherwise it yields a fresh object with `n == size`, fresh arrays, and contents equal to `args` and `vals` element by element. |
| Integrals.Integral.FromSequences | test_lab2/test_lab2.cpp:18-26 | After the size check, the object holds fresh arrays whose contents are `args` and `vals`, with `n` their common length. |
| Integrals.ToArray | test_lab2/test_lab2.cpp:25-26 | The element-by-element copy into a new array yields a fresh array equal to the input sequence. |
| Integrals.Integral.Copy | test_lab2/test_lab2.cpp:29-39 | The copy constructor gives the same `n` and element-wise equal contents in fresh arrays (a deep copy). |
| Integrals.Integral.Assign | test_lab2/test_lab2.cpp:41-59 | Self-assignment leaves the object unchanged. Any other assignment gives the other's `n` and contents in fresh arrays, and the invariant `Valid` holds afterwards. |
| Integrals.CopiesAreIndependent | test_lab2/test_lab2.cpp:29-39 | Copy a table, then write a new ordinate into the original's array. The copy still holds the first contents and the original holds the new ones, so the copy shares no storage with the original. |
| Integrals.AssignedCopiesAreIndependent | test_lab2/test_lab2.cpp:41-59 | Assign a table to an empty one, then write a new ordinate into the source's array. The target still holds the assigned contents and the source holds the new ones. |
| Integrals.Integral.ValueAt | test_lab2/test_lab2.cpp:66-71 | Succeeds exactly when `index < n`, returning `functionValues[index]`; otherwise fails with OutOfRange. As a function it cannot modify the object. |
| Integrals.Integral.TrapezoidalMethod | test_lab2/test_lab2.cpp:73-79 | The loop from `i = 1` computes the trapezoid sum over all `n - 1` intervals, and gives 0 when `n <= 1`. |
| Integrals.Integral.SimpsonMethod | test_lab2/test_lab2.cpp:81-96 | Fails with LogicError exactly when `n` is even. Otherwise it returns `(f[0] + f[n-1] + Σ c(i)·f[i]) · h/3`, with weights 4 at odd and 2 at even interior `i`, and `h = (a[n-1] - a[0])/(n-1)`. A single point gives 0 (corrected; see Findings). |
| Integrals.Integral.LeftRectangleMethod | test_lab2/test_lab2.cpp:98-104 | Computes `Σ f[i]·(a[i+1] - a[i])` over every interval, reading only indices below `n`, and gives 0 when `n <= 1` (corrected guard; see Findings). |
| Integrals.Integral.MiddleRectangleMethod | test_lab2/test_lab2.cpp:106-116 | Computes `Σ ((f[i] + f[i+1])/2)·(a[i+1] - a[i])` over every interval, and gives 0 when `n <= 1` (corrected guard; see Findings). |
| Integrals.Integral.RightRectangleMethod | test_lab2/test_lab2.cpp:118-124 | Computes `Σ f[i]·(a[i] - a[i-1])` for `i = 1 .. n-1`, and gives 0 when `n <= 1`. |
| Integrals.Integral.NewtonMethod | test_lab2/test_lab2.cpp:126-136 | Fails with InvalidArgument exactly when `n < 4` or `n % 3 != 1`. Otherwise it sums the `(n-1)/3` groups starting at 0, 3, 6, …, each `(f[i] + 3f[i+1] + 3f[i+2] + f[i+3])·3h/8` with `h = (a[i+3] - a[i])/3`, and every group reads only indices up to `n - 1`. |
| QuadratureFacts.MiddleSumIsTrapezoidSum | test_lab2/test_lab2.cpp:106-116 | Over any prefix of the intervals, the middle-rectangle sum equals the trapezoid sum. |
| QuadratureFacts.MiddleIsTrapezoidal | test_lab2/test_lab2.cpp:106-116 | Over exact reals, middleRectangleMethod and trapezoidalMethod give the same result on every table. |
| QuadratureFacts.TrapezoidSumIsAverage | test_lab2/test_lab2.cpp:73-79 | Over any prefix of the intervals, the trapezoid sum is the mean of the left and right sums. |
| QuadratureFacts.TrapezoidalIsAverage | test_lab2/test_lab2.cpp:73-79 | trapezoidalMethod equals (leftRectangleMethod + rightRectangleMethod)/2 on every table. |
| QuadratureFacts.ConstantSums | test_lab2/test_lab2.cpp:98-124 | On a table whose ordinates all equal c, each of the four interval sums up to point k equals `c·(a[k] - a[0])`, because the widths telescope. |
| QuadratureFacts.ConstantIsExact | test_lab2/test_lab2.cpp:98-124 | On a constant table, the left, right, middle and trapezoidal rules all give `c·(a[n-1] - a[0])`. |
| QuadratureFacts.ConstantSimpsonInner | test_lab2/test_lab2.cpp:89-92 | With all ordinates equal to c, the interior weights 4, 2, 4, … of `f[1..k-1]` add up to `c·(3k-2)` for even k and `c·(3k-3)` for odd k. |
| QuadratureFacts.ConstantSimpsonIsExact | test_lab2/test_lab2.cpp:81-96 | On a constant table with an odd number of points, Simpson's rule gives `c·(a[n-1] - a[0])`. |
| QuadratureFacts.ConstantNewtonSum | test_lab2/test_lab2.cpp:130-135 | On a constant table, the first g Newton groups add up to `c·(a[3g] - a[0])`. |
| QuadratureFacts.ConstantNewtonIsExact | test_lab2/test_lab2.cpp:126-136 | On a constant table that Newton's rule accepts, it gives `c·(a[n-1] - a[0])`. |
| QuadratureFacts.SimpsonReadsOnlyEndpoints | test_lab2/test_lab2.cpp:86 | Two abscissa tables with the same first and last points give the same Simpson result; the interior abscissas are never read. |
| QuadratureFacts.SimpsonSinglePointIsZero | test_lab2/test_lab2.cpp:86 | For a one-point table, the corrected Simpson step makes the rule give 0. |
| QuadratureFacts.LineIntervalIsExact | test_lab2/test_lab2.cpp:76 | One trapezoid whose two ordinates sample `m·x + b` has exactly the area under the line between its two abscissas. |
| QuadratureFacts.LineStep | test_lab2/test_lab2.cpp:76 | If `prev` is the exact integral of `m·x + b` from `x0` to `x`, adding the trapezoid from `x` to `y` gives the exact integral from `x0` to `y`. |
| QuadratureFacts.LineTrapezoidSum | test_lab2/test_lab2.cpp:73-79 | On a table sampling `m·x + b`, the trapezoid sum up to point k equals the exact integral from `a[0]` to `a[k]`. |
| QuadratureFacts.LineTrapezoidalIsExact | test_lab2/test_lab2.cpp:73-79 | On any partition of a line, the trapezoidal rule, and therefore the middle-rectangle rule, gives the exact integral. |
| QuadratureFacts.SquareExample | test_lab2/test_lab2.cpp:73-96 | For f(x) = x² on 0, 1, 2, 3, 4: the trapezoidal rule gives 22 and Simpson's rule gives 64/3. |
| QuadratureFacts.ConstantExample | test_lab2/test_lab2.cpp:98-136 | For the constant 3 on the points 0 and 2: every interval rule gives 6, Simpson's rule refuses (n even) and Newton's rule refuses (n < 4). |
| QuadratureFacts.QuadraticPanel | test_lab2/test_lab2.cpp:89-94 | For a quadratic P with antiderivative Q, one Simpson panel `(P(x) + 4P(x+h) + P(x+2h))·h/3` equals `Q(x+2h) - Q(x)`. |
| QuadratureFacts.CubePanel | test_lab2/test_lab2.cpp:89-94 | One Simpson panel is exact on `x³`: `(x³ + 4(x+h)³ + (x+2h)³)·h/3 = ((x+2h)⁴ - x⁴)/4`. |
| QuadratureFacts.CubicPanel | test_lab2/test_lab2.cpp:89-94 | For a cubic `s·x³ + p·x² + q·x + r` with antiderivative G, one panel's weighted ordinates `C(x) + 4C(x+h) + C(x+2h)`, times `h/3`, equal `G(x+2h) - G(x)`. |
| QuadratureFacts.PanelsExact | test_lab2/test_lab2.cpp:89-94 | If every panel times `h/3` is the rise of F across it, the first m panels together, times `h/3`, give `F[2m] - F[0]`. |
| QuadratureFacts.InnerIsPanels | test_lab2/test_lab2.cpp:87-92 | The end ordinates plus the interior weights 4, 2, 4, …, 4 of a table with 2m + 1 points are the sum of its m panels `f[2j] + 4f[2j+1] + f[2j+2]`. |
| QuadratureFacts.UniformOffset | test_lab2/test_lab2.cpp:132 | On a uniform grid of spacing h, `a[i+k] = a[i] + k·h`; in particular a Newton group's `h = (a[i+3] - a[i])/3` is the grid spacing. |
| QuadratureFacts.UniformStepSize | test_lab2/test_lab2.cpp:86 | On a uniform grid of spacing h with at least two points, Simpson's step `(a[n-1] - a[0])/(n-1)` is h. |
| QuadratureFacts.SimpsonFromPanels | test_lab2/test_lab2.cpp:81-96 | When the step is h and every panel matches the rise of F, Simpson's rule gives `F[n-1] - F[0]`. |
| QuadratureFacts.CubicPanelAt | test_lab2/test_lab2.cpp:89-94 | On a uniform grid sampling a cubic, panel j times `h/3` is the rise of the antiderivative from `a[2j]` to `a[2j+2]`. |
| QuadratureFacts.SimpsonCubicIsExact | test_lab2/test_lab2.cpp:81-96 | For every odd n, on a uniform grid whose ordinates sample `s·x³ + p·x² + q·x + r`, Simpson's rule gives the exact integral from `a[0]` to `a[n-1]`. |
| QuadratureFacts.SimpsonQuadraticIsExact | test_lab2/test_lab2.cpp:81-96 | For every odd n, on a uniform grid whose ordinates sample `p·x² + q·x + r`, Simpson's rule gives the exact integral from `a[0]` to `a[n-1]` (the cubic case with no `x³` term). |
| QuadratureFacts.QuadraticGroup | test_lab2/test_lab2.cpp:132-133 | For a quadratic P with antiderivative Q on the points x, x+h, x+2h, w = x+3h, one 3/8 group `(P(x) + 3P(x+h) + 3P(x+2h) + P(w))·3h'/8`, with `h' = (w - x)/3` computed as the source does, equals `Q(w) - Q(x)`. |
| QuadratureFacts.QuadraticGroupAt | test_lab2/test_lab2.cpp:131-134 | On a uniform grid sampling a quadratic, the Newton group starting at i equals the rise of the antiderivative from `a[i]` to `a[i+3]`. |
| QuadratureFacts.QuadraticNewtonSum | test_lab2/test_lab2.cpp:130-135 | On such a grid, the first g Newton groups add up to the rise of the antiderivative from `a[0]` to `a[3g]`. |
| QuadratureFacts.NewtonQuadraticIsExact | test_lab2/test_lab2.cpp:126-136 | Whenever Newton's rule accepts n, on a uniform grid sampling `p·x² + q·x + r` it gives the exact integral from `a[0]` to `a[n-1]`. |
| Findings.SizeSub | test_lab2/test_lab2.cpp:100 | `size_t` subtraction: exact when no underflow, otherwise wraps by 2^64, and the result is always a `size_t`. |
| Findings.RectangleGuardAsWrittenOnEmptyTable | test_lab2/test_lab2.cpp:100 | At `n == 0`, the guard `i < n - 1` as written admits every index below 2^64 - 1, so the loop indexes empty arrays. |
| Findings.RectangleGuardsAgree | test_lab2/test_lab2.cpp:109 | For `n >= 1`, the guard as written is equivalent to the corrected guard `i + 1 < n` that the model's loops use. |
| Findings.SimpsonDivisorAsWritten | test_lab2/test_lab2.cpp:86 | For `n >= 1`, the divisor of Simpson's step as written is `n - 1`, with no wrap. |
| Findings.SimpsonAsWrittenDividesByZero | test_lab2/test_lab2.cpp:82-86 | One point passes Simpson's parity check, and the step as written then divides by zero. |

## Left out

- `main` (test_lab2/test_lab2.cpp:160-195): console input, printing and the `round(x*10)/10` display rounding are I/O around the class.
- `operator<<` (test_lab2/test_lab2.cpp:145-158): its text depends on iostream's formatting of doubles, which has no counterpart over reals.
- IEEE double semantics: rounding, NaN and infinity propagation are not modelled, because all values are exact reals.
- Manual memory management: `new[]`/`delete[]`, the destructor and the `bad_alloc` null checks are not modelled. Dafny arrays are garbage-collected, and the null checks cannot fire because plain `new` throws on failure.
- The unused local `midArg` of middleRectangleMethod (test_lab2/test_lab2.cpp:110) is not modelled, because it does not affect the result.
- The width of Newton's `int i` counter is not modelled. It would only overflow for tables of more than 2^31 points.
- Exactness of Newton's 3/8 rule for cubics is not proved. The step for one group, where four cubic samples on the grid meet degree-four terms of the antiderivative, exceeds the solver's resource bound. Newton's rule is proved exact for constants and quadratics, and Simpson's rule for constants and cubics.
- The precondition that the abscissas increase is not modelled. The source does not check it, and none of the proved properties needs it.

## Findings

| source | as written | input that shows it | evidently intended | confidence | as-written member | corrected member |
|---|---|---|---|---|---|---|
| test_lab2/test_lab2.cpp:100 | leftRectangleMethod loops while `i < n - 1` with `n` a `size_t`; at `n == 0` the bound wraps to 2^64 - 1 | default-constructed object (`n == 0`), first iteration `i = 0` reads `functionValues[0]` and `argumentValues[1]` | empty table integrates to 0 (loop while `i + 1 < n`) | high (not executed) | Findings.RectangleGuardAsWrittenOnEmptyTable | Integrals.Integral.LeftRectangleMethod |
| test_lab2/test_lab2.cpp:109 | middleRectangleMethod has the same `i < n - 1` guard in `size_t` | `n == 0`, first iteration `i = 0` | empty table integrates to 0 (loop while `i + 1 < n`) | high (not executed) | Findings.RectangleGuardAsWrittenOnEmptyTable | Integrals.Integral.MiddleRectangleMethod |
| test_lab2/test_lab2.cpp:86 | SimpsonMethod accepts any odd `n`, then divides by `n - 1` | `n == 1`: step `(a[0] - a[0]) / 0`, which is `0.0 / 0.0` and gives NaN | a single point spans no width, so the result is 0 | medium (not executed) | Findings.SimpsonAsWrittenDividesByZero | Integrals.Integral.SimpsonMethod |
