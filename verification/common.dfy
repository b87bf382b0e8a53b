/**
  Vocabulary shared by the five root-finding solvers: the failure-carrying
  result type, the solver error kinds, the approximate-error value that each
  iteration record carries, and the two rules by which that error is computed.
 */
module Common {

  /** A value that may be missing: the previous estimate before the first
      iteration, or the quotient of a division by zero. */
  datatype Option<T> = None | Some(value: T)

  /** What a solver returns in place of raising an exception. */
  datatype Result<T, E> = Success(value: T) | Failure(error: E)

  /** The fatal conditions a solver can raise. */
  datatype SolverError =
    | InvalidConfig     // non-positive tolerance or iteration cap
    | NoSignChange      // the initial bracket does not straddle a sign change
    | ZeroDenominator   // two function values coincide where their difference divides
    | ZeroDerivative    // the derivative vanishes at the current estimate

  /** The approximate error stored in a record: absent on the first
      iteration, a real number, or positive infinity when the error
      formula itself divided by zero. */
  datatype ApproxError = NoError | Finite(value: real) | Infinity

  function Abs(x: real): (r: real)
    ensures 0.0 <= r
    ensures r == x || r == -x
  {
    if x < 0.0 then -x else x
  }

  lemma AbsOfProduct(x: real, y: real)
    ensures Abs(x * y) == Abs(x) * Abs(y)
  {
    if x < 0.0 {
      if y < 0.0 {
        assert x * y == (-x) * (-y);
      } else {
        assert -(x * y) == (-x) * y;
      }
    } else if y < 0.0 {
      assert -(x * y) == x * (-y);
    }
  }

  /** Every solver first rejects a non-positive tolerance or iteration cap. */
  predicate ValidConfig(tol: real, maxIter: int)
  {
    0.0 < tol && 0 < maxIter
  }

  /** Real division that, like Python's float division, fails (here: yields
      None) when the divisor is zero. */
  function Divide(n: real, d: real): (q: Option<real>)
    ensures q == None <==> d == 0.0
    ensures q.Some? ==> q.value * d == n
  {
    if d == 0.0 then None else Some(n / d)
  }

  /** Percentage change of `xNew` relative to itself, measured from `xPrev`;
      a division by zero is caught and turned into Infinity. This is the
      error rule of bisection and false position. */
  function RelativeError(xNew: real, xPrev: real): (ea: ApproxError)
    ensures ea != NoError
    ensures ea == Infinity <==> xNew == 0.0
    ensures ea.Finite? ==> 0.0 <= ea.value
    ensures ea.Finite? ==> ea.value * Abs(xNew) == 100.0 * Abs(xNew - xPrev)
    ensures ea.Finite? ==> (ea.value == 0.0 <==> xNew == xPrev)
  {
    match Divide(xNew - xPrev, xNew)
    case None => Infinity
    case Some(q) =>
      AbsOfProduct(q, xNew);
      Finite(Abs(q) * 100.0)
  }

  /** The error rule of fixed point, Newton-Raphson and secant: when the new
      estimate is zero the unscaled absolute difference is used instead of a
      percentage, so the division-by-zero fallback is never reached. */
  function FallbackError(xNew: real, xRef: real): (ea: ApproxError)
    ensures ea.Finite? && 0.0 <= ea.value
    ensures xNew == 0.0 ==> ea.value == Abs(xRef)
    ensures xNew != 0.0 ==> ea.value * Abs(xNew) == 100.0 * Abs(xNew - xRef)
    ensures ea.value == 0.0 <==> xNew == xRef
  {
    if xNew == 0.0 then Finite(Abs(xNew - xRef)) else RelativeError(xNew, xRef)
  }

  /** The error of a bracketing method: absent while no previous estimate
      exists, otherwise the relative error against it. */
  function ErrorAgainst(prior: Option<real>, xr: real): ApproxError
  {
    match prior
    case None => NoError
    case Some(p) => RelativeError(xr, p)
  }

  /** The error of an open method: absent on the first iteration. */
  function StepError(first: bool, xNew: real, xRef: real): ApproxError
  {
    if first then NoError else FallbackError(xNew, xRef)
  }

  /** The tolerance test: an absent or infinite error never converges. */
  predicate Converged(ea: ApproxError, tol: real)
  {
    ea.Finite? && ea.value < tol
  }
}
