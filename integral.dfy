/** The class `Integral`: a tabulated function that owns two arrays of equal
    length, the abscissas `argumentValues` and the ordinates `functionValues`,
    and computes six quadrature rules over them. Each rule is a loop proved to
    compute the matching function of module `Quadrature`.
 */
module Integrals {
  import opened Quadrature

  /** A fresh array holding the elements of s, copied one by one. */
  method ToArray(s: seq<real>) returns (arr: array<real>)
    ensures fresh(arr) && arr[..] == s
  {
    arr := new real[|s|];
    var i := 0;
    while i < |s|
      invariant 0 <= i <= |s|
      invariant arr[..i] == s[..i]
    {
      arr[i] := s[i];
      i := i + 1;
    }
  }

  class Integral {
    var argumentValues: array<real>
    var functionValues: array<real>
    var n: nat

    /** Both arrays hold exactly n entries. */
    ghost predicate Valid()
      reads this
    {
      argumentValues.Length == n && functionValues.Length == n
    }

    /** The abscissas held by the object. */
    function Args(): (s: seq<real>)
      reads this, argumentValues
      ensures |s| == argumentValues.Length
    {
      argumentValues[..]
    }

    /** The ordinates held by the object. */
    function Vals(): (s: seq<real>)
      reads this, functionValues
      ensures |s| == functionValues.Length
    {
      functionValues[..]
    }

    /** The default object: an empty table. */
    constructor Empty()
      ensures Valid() && n == 0
      ensures Args() == [] && Vals() == []
      ensures fresh(argumentValues) && fresh(functionValues)
    {
      argumentValues := new real[0];
      functionValues := new real[0];
      n := 0;
    }

    /** Construction once the sizes have been checked: copies both sequences. */
    constructor FromSequences(args: seq<real>, vals: seq<real>)
      requires |args| == |vals|
      ensures Valid() && n == |args|
      ensures Args() == args && Vals() == vals
      ensures fresh(argumentValues) && fresh(functionValues)
    {
      var a := ToArray(args);
      var f := ToArray(vals);
      argumentValues, functionValues, n := a, f, |args|;
    }

    /** The checked constructor: both sequences must have `size` elements. */
    static method Create(size: nat, args: seq<real>, vals: seq<real>) returns (r: Result<Integral>)
      ensures r.Err? <==> (|args| != size || |vals| != size)
      ensures r.Err? ==> r.error == InvalidArgument
      ensures r.Ok? ==> fresh(r.value) && fresh(r.value.argumentValues) && fresh(r.value.functionValues)
      ensures r.Ok? ==> r.value.Valid() && r.value.n == size
      ensures r.Ok? ==> r.value.Args() == args && r.value.Vals() == vals
    {
      if |args| != size || |vals| != size {
        return Err(InvalidArgument);
      }
      var obj := new Integral.FromSequences(args, vals);
      return Ok(obj);
    }

    /** The copy constructor: a deep copy into fresh arrays. */
    constructor Copy(other: Integral)
      requires other.Valid()
      ensures Valid() && n == other.n
      ensures Args() == other.Args() && Vals() == other.Vals()
      ensures fresh(argumentValues) && fresh(functionValues)
    {
      var a := ToArray(other.argumentValues[..]);
      var f := ToArray(other.functionValues[..]);
      argumentValues, functionValues, n := a, f, other.n;
    }

    /** Copy assignment: self-assignment changes nothing; otherwise this
        object gets fresh copies of the other's arrays. */
    method Assign(other: Integral)
      requires Valid() && other.Valid()
      modifies this
      ensures Valid()
      ensures n == old(other.n) && Args() == old(other.Args()) && Vals() == old(other.Vals())
      ensures other == this ==> unchanged(this)
      ensures other != this ==> fresh(argumentValues) && fresh(functionValues)
    {
      if other == this {
        return;
      }
      n := other.n;
      argumentValues := ToArray(other.argumentValues[..]);
      functionValues := ToArray(other.functionValues[..]);
    }

    /** operator[]: the ordinate at `index`, or OutOfRange past the end. */
    function ValueAt(index: nat): (r: Result<real>)
      requires Valid()
      reads this, functionValues
      ensures r.Ok? <==> index < n
      ensures r.Ok? ==> r.value == Vals()[index]
      ensures r.Err? ==> r.error == OutOfRange
    {
      if index >= n then Err(OutOfRange) else Ok(functionValues[index])
    }

    method TrapezoidalMethod() returns (integral: real)
      requires Valid()
      ensures integral == Trapezoidal(Args(), Vals())
      ensures n <= 1 ==> integral == 0.0
    {
      integral := 0.0;
      var i := 1;
      while i < n
        invariant 1 <= i <= Intervals(n) + 1
        invariant integral == TrapezoidSum(Args(), Vals(), i - 1)
      {
        integral := integral + 0.5 * (functionValues[i] + functionValues[i - 1])
                                   * (argumentValues[i] - argumentValues[i - 1]);
        i := i + 1;
      }
    }

    /** Simpson's rule; LogicError for an even number of points. */
    method SimpsonMethod() returns (r: Result<real>)
      requires Valid()
      ensures r.Err? <==> !SimpsonApplies(n)
      ensures r.Err? ==> r.error == LogicError
      ensures r.Ok? ==> r.value == Simpson(Args(), Vals())
      ensures n == 1 ==> r == Ok(0.0)
    {
      if n % 2 == 0 {
        return Err(LogicError);
      }
      // A single point spans no width: the step is 0 rather than 0 / 0.
      var h := if n == 1 then 0.0
               else (argumentValues[n - 1] - argumentValues[0]) / ((n - 1) as real);
      var integral := functionValues[0] + functionValues[n - 1];
      var i := 1;
      while i < n - 1
        invariant 1 <= i <= n
        invariant n > 1 ==> i <= n - 1
        invariant integral == functionValues[0] + functionValues[n - 1] + SimpsonInner(Vals(), i)
      {
        var coef := if i % 2 == 1 then 4.0 else 2.0;
        integral := integral + coef * functionValues[i];
        i := i + 1;
      }
      integral := integral * (h / 3.0);
      return Ok(integral);
    }

    method LeftRectangleMethod() returns (integral: real)
      requires Valid()
      ensures integral == LeftRectangle(Args(), Vals())
      ensures n <= 1 ==> integral == 0.0
    {
      integral := 0.0;
      var i := 0;
      while i + 1 < n
        invariant i <= Intervals(n)
        invariant integral == LeftSum(Args(), Vals(), i)
      {
        integral := integral + functionValues[i] * (argumentValues[i + 1] - argumentValues[i]);
        i := i + 1;
      }
    }

    method MiddleRectangleMethod() returns (integral: real)
      requires Valid()
      ensures integral == MiddleRectangle(Args(), Vals())
      ensures n <= 1 ==> integral == 0.0
    {
      integral := 0.0;
      var i := 0;
      while i + 1 < n
        invariant i <= Intervals(n)
        invariant integral == MiddleSum(Args(), Vals(), i)
      {
        var midfVal := (functionValues[i] + functionValues[i + 1]) / 2.0;
        integral := integral + midfVal * (argumentValues[i + 1] - argumentValues[i]);
        i := i + 1;
      }
    }

    method RightRectangleMethod() returns (integral: real)
      requires Valid()
      ensures integral == RightRectangle(Args(), Vals())
      ensures n <= 1 ==> integral == 0.0
    {
      integral := 0.0;
      var i := 1;
      while i < n
        invariant 1 <= i <= Intervals(n) + 1
        invariant integral == RightSum(Args(), Vals(), i - 1)
      {
        integral := integral + functionValues[i] * (argumentValues[i] - argumentValues[i - 1]);
        i := i + 1;
      }
    }

    /** Newton's 3/8 rule; InvalidArgument unless n == 3g + 1 with g >= 1. */
    method NewtonMethod() returns (r: Result<real>)
      requires Valid()
      ensures r.Err? <==> !NewtonApplies(n)
      ensures r.Err? ==> r.error == InvalidArgument
      ensures r.Ok? ==> r.value == Newton(Args(), Vals())
    {
      if n < 4 || n % 3 != 1 {
        return Err(InvalidArgument);
      }
      var sum := 0.0;
      var i := 0;
      while i < n - 3
        invariant i % 3 == 0 && i <= n - 1
        invariant sum == NewtonSum(Args(), Vals(), i / 3)
      {
        var h := (argumentValues[i + 3] - argumentValues[i]) / 3.0;
        sum := sum + (functionValues[i] + 3.0 * functionValues[i + 1] + 3.0 * functionValues[i + 2]
                      + functionValues[i + 3]) * 3.0 * h / 8.0;
        i := i + 3;
      }
      return Ok(sum);
    }
  }

  /** A copy keeps its own arrays: writing into the original's storage
      afterwards leaves the copy's contents as they were. */
  method CopiesAreIndependent(args: seq<real>, vals: seq<real>, x: real)
    returns (copyVals: seq<real>, sourceVals: seq<real>)
    requires |args| == |vals| > 0
    ensures copyVals == vals
    ensures sourceVals == vals[0 := x]
  {
    var source := new Integral.FromSequences(args, vals);
    var copy := new Integral.Copy(source);
    source.functionValues[0] := x;
    copyVals, sourceVals := copy.Vals(), source.Vals();
  }

  /** The same after assignment: the target of an assignment does not share
      storage with the object assigned from. */
  method AssignedCopiesAreIndependent(args: seq<real>, vals: seq<real>, x: real)
    returns (targetVals: seq<real>, sourceVals: seq<real>)
    requires |args| == |vals| > 0
    ensures targetVals == vals
    ensures sourceVals == vals[0 := x]
  {
    var source := new Integral.FromSequences(args, vals);
    var target := new Integral.Empty();
    target.Assign(source);
    source.functionValues[0] := x;
    targetVals, sourceVals := target.Vals(), source.Vals();
  }
}
