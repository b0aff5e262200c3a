/** The unsigned arithmetic of the rectangle guards and of Simpson's divisor
    as written, kept apart from the corrected model: `n - 1` on a `size_t`
    wraps modulo 2^64.
 */
module Findings {
  import opened Quadrature

  /** size_t holds values modulo 2^64. */
  const SizeModulus: int := 0x1_0000_0000_0000_0000

  predicate IsSize(x: int)
  {
    0 <= x < SizeModulus
  }

  /** Subtraction on size_t: wraps around below zero. */
  function SizeSub(x: nat, y: nat): (r: nat)
    requires IsSize(x) && IsSize(y)
    ensures IsSize(r)
    ensures y <= x ==> r == x - y
    ensures x < y ==> r == SizeModulus + x - y
  {
    (x - y) % SizeModulus
  }

  /** The loop guard `i < n - 1` of leftRectangleMethod and
      middleRectangleMethod, evaluated in size_t. */
  predicate RectangleGuardAsWritten(i: nat, n: nat)
    requires IsSize(i) && IsSize(n)
  {
    i < SizeSub(n, 1)
  }

  /** On an empty table the guard as written admits every index below
      2^64 - 1, so the first iteration reads functionValues[0] and
      argumentValues[1] of arrays with no elements. */
  lemma RectangleGuardAsWrittenOnEmptyTable(i: nat)
    requires i < SizeModulus - 1
    ensures RectangleGuardAsWritten(i, 0)
  {
  }

  /** For a non-empty table the guard as written is the corrected guard
      `i + 1 < n` that the model's loops use. */
  lemma RectangleGuardsAgree(i: nat, n: nat)
    requires IsSize(i) && IsSize(n) && 1 <= n
    ensures RectangleGuardAsWritten(i, n) <==> i + 1 < n
  {
  }

  /** The divisor of Simpson's step as written, `n - 1` in size_t. */
  function SimpsonDivisorAsWritten(n: nat): (d: nat)
    requires IsSize(n) && 1 <= n
    ensures d + 1 == n
  {
    SizeSub(n, 1)
  }

  /** One point passes Simpson's parity check, and the step then divides
      (a[0] - a[0]) by zero. */
  lemma SimpsonAsWrittenDividesByZero()
    ensures SimpsonApplies(1) && SimpsonDivisorAsWritten(1) == 0
  {
  }
}
