# Root-finding solvers, modelled in Dafny

This project models the five root-finding solvers of the `mi_aplicacion_raices`
web application: bisection (`biseccion`), false position (`falsa_posicion`),
fixed-point iteration (`punto_fijo`), Newton-Raphson (`newton_raphson`) and
secant (`secante`). Each solver checks its configuration and runs at most
`max_iter` iterations. Every iteration appends one record to a trace (a
Python list of dicts) and computes an approximate error (`ea`) between
successive estimates. The solver stops when that error drops below `tol`,
raises an exception on a fatal condition, or returns the trace when the
iteration cap runs out.

The model is written over `real`, so the arithmetic is exact. The user
function `f` (and `df`, or `g`) is an arbitrary total `real -> real`
parameter.

- Raised exceptions become a `Result<seq<Record>, SolverError>`. The error
  kinds are `InvalidConfig`, `NoSignChange`, `ZeroDenominator` and
  `ZeroDerivative`. A failure carries no trace, just as the source discards
  the partial list when it raises.
- `ea` is `NoError | Finite(real) | Infinity`; `NoError` stands for
  Python's `None` on the first iteration.
- Python's float division raises `ZeroDivisionError` on a zero divisor.
  `Common.Divide` models this by returning `None`.
  `Common.RelativeError` is the `abs((x - x_prev) / x) * 100` formula with
  its `except ZeroDivisionError: inf` handler.
  `Common.FallbackError` is the zero-estimate rule of the three open
  methods.
- Each `for i in range(max_iter)` loop with its `break` is a recursive
  `Iterate` function. Its `fuel` argument counts the iterations left.
- Each solver module also defines an index-wise ghost predicate `Run`. It
  says record by record what a trace must contain: the formulas, how
  records chain, the error rule and the stop rule. `IterateIsRun` and
  `RunIsIterate` prove that `Iterate` produces exactly the traces `Run`
  describes. `SolveCharacterized` lifts this to the solver entry point in
  both directions. The per-property lemmas are then derived from `Run`.

Modules follow the source layout: `Common` holds the shared types and error
rules, `Bracket` holds the record and bracket update shared by the two
bracketing methods, there is one module per solver file, and `Chords` relates the
false-position and secant step formulas without making either solver
depend on the other.

Two behaviours of the false-position code are easy to miss:

- The docstring (falsa_posicion.py:26) advertises a `ZeroDivisionError`
  when `f(a)` and `f(b)` are equal. A constant function never reaches it:
  `f(a) * f(b) = c * c >= 0` fails the entry check (falsa_posicion.py:43),
  so the solver rejects it with `NoSignChange`
  (`FalsePosition.ConstantFunctionRejected`), and the per-iteration
  `f(a) == f(b)` guard (falsa_posicion.py:53) is not reached.
  `FalsePosition.NeverZeroDenominator` goes further: in exact arithmetic
  that guard can never fire once the entry check has passed.
- An exact zero `f(xr)` is not a stop condition; only the tolerance test
  at falsa_posicion.py:84 ends the loop early. For a nonzero root the next
  record repeats `xr` with `ea == 0` and stops
  (`FalsePosition.ExactRootAbsorbed`). For a root exactly at 0, the error
  formula divides by zero on every later iteration, so `ea` is Infinity
  each time and the trace runs to the cap
  (`FalsePosition.RootAtZeroNeverConverges`).

Determinism holds by construction: every solver is a pure function of its
inputs, so equal inputs give equal traces.

## Model

| member | source | states |
|---|---|---|
| Common.Divide | mi_aplicacion_raices/methods/biseccion.py:60-63 | Division fails exactly when the divisor is zero; otherwise the quotient times the divisor gives back the dividend. |
| Common.RelativeError | mi_aplicacion_raices/methods/biseccion.py:59-63 | The bracketing error is always present. It is Infinity exactly when the new estimate is zero. Otherwise it is non-negative, equals 100·\|x − x_prev\| / \|x\|, and is zero exactly when the estimate did not move. |
| Common.FallbackError | mi_aplicacion_raices/methods/punto_fijo.py:47-54 | The open-method error is always finite and non-negative, so the Infinity handler is unreachable. At a zero estimate it is the unscaled \|x_ref\|; otherwise it is the percentage change. It is zero exactly when the estimate equals the reference point. |
| Bracket.NextBracket | mi_aplicacion_raices/methods/biseccion.py:80-85 | The update keeps one endpoint and moves the other to `xr`: `b` moves when `f(a)·f(xr) < 0`, and `a` moves otherwise. |
| Bracket.NextBracketKeepsSignChange | mi_aplicacion_raices/methods/biseccion.py:80-85 | If the bracket shows a strict sign change and `f(xr) != 0`, the updated bracket shows a strict sign change too. |
| Bisection.Midpoint | mi_aplicacion_raices/methods/biseccion.py:53 | The estimate is equidistant from both endpoints. |
| Bisection.Iterate | mi_aplicacion_raices/methods/biseccion.py:50-89 | The loop yields at most `fuel` records, and at least one when fuel remains. The first record stores the bracket it was given. |
| Bisection.Solve | mi_aplicacion_raices/methods/biseccion.py:29-50 | InvalidConfig exactly when `tol <= 0` or `max_iter <= 0`, whatever `f` is. NoSignChange exactly when the configuration is valid and `f(a)·f(b) >= 0`. On success, 1 ≤ \|trace\| ≤ max_iter and the first record holds the input bracket. |
| Bisection.IterateIsRun | mi_aplicacion_raices/methods/biseccion.py:50-89 | Every trace the loop produces satisfies the record-by-record description `Run`. |
| Bisection.RunIsIterate | mi_aplicacion_raices/methods/biseccion.py:50-89 | A trace satisfying `Run` is the one the loop produces, so the description fixes the trace uniquely. |
| Bisection.SolveCharacterized | mi_aplicacion_raices/methods/biseccion.py:29-91 | The solver returns trace `t` if and only if the configuration is valid, the endpoints show a sign change, and `t` satisfies `Run` with no previous midpoint. |
| Bisection.RecordsAreMidpoints | mi_aplicacion_raices/methods/biseccion.py:52-74 | Every record has `xr == (a+b)/2` and `fx == f(xr)`, computed from the bracket stored in that same record. |
| Bisection.ErrorShape | mi_aplicacion_raices/methods/biseccion.py:58-65 | The first `ea` is None and every later `ea` is present. A later `ea` is Infinity exactly when `xr == 0`; otherwise it is non-negative with `ea·\|xr\| == 100·\|xr − xr_prev\|`. |
| Bisection.SignChangeEverywhere | mi_aplicacion_raices/methods/biseccion.py:77-89 | Every record's bracket satisfies `f(a)·f(b) < 0`. |
| Bisection.BracketHalves | mi_aplicacion_raices/methods/biseccion.py:80-89 | Consecutive brackets keep one endpoint and replace the other with the previous `xr`, so the width exactly halves. |
| Bisection.WidthAfter | mi_aplicacion_raices/methods/biseccion.py:80-89 | The bracket of record k has width (b − a) / 2^k. |
| Bisection.StopRule | mi_aplicacion_raices/methods/biseccion.py:76-78 | Every non-final record has `fx != 0` and an `ea` that is None or at least `tol`. If the final record would also continue, then \|trace\| == max_iter. |
| FalsePosition.RegulaFalsi | mi_aplicacion_raices/methods/falsa_posicion.py:56-58 | The estimate is the zero of the chord through (a, f(a)) and (b, f(b)): `f(a)·(xr − b) == f(b)·(xr − a)`. |
| FalsePosition.Iterate | mi_aplicacion_raices/methods/falsa_posicion.py:50-98 | The loop fails only with ZeroDenominator, and always does when fuel remains and `f(a) == f(b)`. On success it yields at most `fuel` records, at least one when fuel remains, and the first stores the given bracket. |
| FalsePosition.Solve | mi_aplicacion_raices/methods/falsa_posicion.py:29-50 | InvalidConfig exactly when `tol <= 0` or `max_iter <= 0`. NoSignChange exactly when the configuration is valid and `f(a)·f(b) >= 0`. On success, 1 ≤ \|trace\| ≤ max_iter. |
| FalsePosition.ConstantFunctionRejected | mi_aplicacion_raices/methods/falsa_posicion.py:36-44 | A constant function is rejected with NoSignChange at entry. |
| FalsePosition.IterateIsRun | mi_aplicacion_raices/methods/falsa_posicion.py:50-98 | Every successful loop trace satisfies the record-by-record description `Run`. |
| FalsePosition.RunIsIterate | mi_aplicacion_raices/methods/falsa_posicion.py:50-98 | A trace satisfying `Run` is the one the loop returns. |
| FalsePosition.ChordFromRoot | mi_aplicacion_raices/methods/falsa_posicion.py:58 | When `f(a) == 0` and `f(b) != 0`, the chord zero is `a` itself. |
| FalsePosition.NextBracketStraddles | mi_aplicacion_raices/methods/falsa_posicion.py:87-94 | The update preserves the loop invariant: either a strict sign change, or an exact root at `a` with `f(b) != 0`. |
| FalsePosition.StraddleNeverBlocks | mi_aplicacion_raices/methods/falsa_posicion.py:50-98 | From any bracket satisfying the invariant, the loop never fails. |
| FalsePosition.NeverZeroDenominator | mi_aplicacion_raices/methods/falsa_posicion.py:52-54 | The solver never returns ZeroDenominator. With a valid configuration and a sign change it always returns a trace. |
| FalsePosition.SolveCharacterized | mi_aplicacion_raices/methods/falsa_posicion.py:29-100 | The solver returns trace `t` if and only if the configuration is valid, the endpoints show a sign change, and `t` satisfies `Run`. |
| FalsePosition.RegulaFalsiInside | mi_aplicacion_raices/methods/falsa_posicion.py:58 | While `f(a)·f(b) < 0`, we have `a != b`, `f(a) != f(b)`, and the chord zero lies strictly between `a` and `b`. |
| FalsePosition.BracketsStraddle | mi_aplicacion_raices/methods/falsa_posicion.py:87-94 | The first bracket shows a strict sign change and every bracket satisfies the invariant. Each `xr` lies strictly inside its bracket whenever that bracket shows a strict sign change. |
| FalsePosition.OnlyToleranceStops | mi_aplicacion_raices/methods/falsa_posicion.py:83-85 | Every non-final record has not converged, and a trace shorter than the cap ends on a converged record. The first iteration never stops, so `max_iter >= 2` gives \|trace\| ≥ 2. |
| FalsePosition.ErrorShape | mi_aplicacion_raices/methods/falsa_posicion.py:65-72 | The first `ea` is None. Every later `ea` is present: Infinity exactly when `xr == 0`, otherwise finite and non-negative. |
| FalsePosition.RecordsAreChordZeros | mi_aplicacion_raices/methods/falsa_posicion.py:56-81 | Every record has `f(a) != f(b)`, `xr == b − f(b)·(a−b)/(f(a)−f(b))` and `fx == f(xr)`, using the bracket stored in that record. |
| FalsePosition.ExactRootAbsorbed | mi_aplicacion_raices/methods/falsa_posicion.py:83-94 | A non-final record with `fx == 0` and `xr != 0` is followed by a record with the same `xr` and `ea == 0`, and that record is the last one. |
| FalsePosition.StuckAtZero | mi_aplicacion_raices/methods/falsa_posicion.py:65-85 | From bracket [0, b] with f(0) == 0 and previous estimate 0, every remaining record has `xr == 0` and `ea == Infinity`, and the loop runs out its fuel. |
| FalsePosition.RootAtZeroNeverConverges | mi_aplicacion_raices/methods/falsa_posicion.py:65-85 | For f(x) = x on [−1, 2], the first record already holds the exact root 0. Yet every later `ea` is Infinity and \|trace\| == max_iter. |
| FixedPoint.Iterate | mi_aplicacion_raices/methods/punto_fijo.py:36-68 | The loop yields at most `fuel` records, and at least one when fuel remains. The first record starts at the given estimate and holds `g` of it. |
| FixedPoint.Solve | mi_aplicacion_raices/methods/punto_fijo.py:26-39 | The solver fails exactly when `tol <= 0` or `max_iter <= 0`, and then with InvalidConfig. On success, 1 ≤ \|trace\| ≤ max_iter, `x_old == x0` and `x_new == g(x0)`. |
| FixedPoint.IterateIsRun | mi_aplicacion_raices/methods/punto_fijo.py:36-68 | Every loop trace satisfies the record-by-record description `Run`. |
| FixedPoint.RunIsIterate | mi_aplicacion_raices/methods/punto_fijo.py:36-68 | A trace satisfying `Run` is the one the loop produces. |
| FixedPoint.SolveCharacterized | mi_aplicacion_raices/methods/punto_fijo.py:26-70 | The solver returns trace `t` if and only if the configuration is valid and `t` satisfies `Run` from `x0`. |
| FixedPoint.RecordsChain | mi_aplicacion_raices/methods/punto_fijo.py:33-68 | The first `x_old` is `x0`, every `x_new == g(x_old)`, and `trace[k+1].x_old == trace[k].x_new`. |
| FixedPoint.ErrorShape | mi_aplicacion_raices/methods/punto_fijo.py:43-54 | `ea` is None only on the first record. Every later `ea` is finite and non-negative, never Infinity: \|x_old\| when `x_new == 0`, and the percentage change otherwise. |
| FixedPoint.LaterErrors | mi_aplicacion_raices/methods/punto_fijo.py:43-54 | The first `ea` is None and every later `ea` is the zero-fallback error of `x_new` against `x_old`. |
| FixedPoint.StopRule | mi_aplicacion_raices/methods/punto_fijo.py:63-65 | Every non-final record has `ea` None or at least `tol`. If the last `ea` is not below `tol`, then \|trace\| == max_iter. |
| FixedPoint.FixedPointStops | mi_aplicacion_raices/methods/punto_fijo.py:47-65 | If `g(x_old) == x_old` on any non-first iteration, that record has `ea == 0` and is the last one. |
| FixedPoint.StartAtFixedPoint | mi_aplicacion_raices/methods/punto_fijo.py:36-68 | Starting at a fixed point with `max_iter >= 2` gives exactly two records; the second has `ea == 0`. |
| NewtonRaphson.NewtonStep | mi_aplicacion_raices/methods/newton_raphson.py:53 | The new estimate is the zero of the tangent: `df(x)·(x − x_new) == f(x)`. |
| NewtonRaphson.Iterate | mi_aplicacion_raices/methods/newton_raphson.py:39-85 | The loop fails only with ZeroDerivative, and always does when fuel remains and `df(x_old) == 0`. On success it yields at most `fuel` records, at least one when fuel remains. |
| NewtonRaphson.Solve | mi_aplicacion_raices/methods/newton_raphson.py:29-49 | InvalidConfig exactly when `tol <= 0` or `max_iter <= 0`; the only other failure is ZeroDerivative, which `df(x0) == 0` forces. On success, 1 ≤ \|trace\| ≤ max_iter and the first `x_old` is `x0`. |
| NewtonRaphson.IterateIsRun | mi_aplicacion_raices/methods/newton_raphson.py:39-85 | Every successful loop trace satisfies the record-by-record description `Run`. |
| NewtonRaphson.RunIsIterate | mi_aplicacion_raices/methods/newton_raphson.py:39-85 | A trace satisfying `Run` is the one the loop returns. |
| NewtonRaphson.IterateFailureIsBlocked | mi_aplicacion_raices/methods/newton_raphson.py:47-49 | A failing loop has a non-converged chain of records, within the cap, that ends at a point of zero derivative. |
| NewtonRaphson.BlockedFails | mi_aplicacion_raices/methods/newton_raphson.py:47-49 | Any such chain forces the loop to fail with ZeroDerivative. |
| NewtonRaphson.SolveCharacterized | mi_aplicacion_raices/methods/newton_raphson.py:29-87 | The solver returns trace `t` if and only if the configuration is valid and `t` satisfies `Run` from `x0`. |
| NewtonRaphson.ZeroDerivativeCharacterized | mi_aplicacion_raices/methods/newton_raphson.py:47-49 | The solver fails with ZeroDerivative if and only if the configuration is valid and some non-converged chain within the cap reaches an estimate with `df == 0`. No partial trace is returned. |
| NewtonRaphson.RecordsAreNewtonSteps | mi_aplicacion_raices/methods/newton_raphson.py:36-85 | Every record has `df(x_old) != 0`, `x_new == x_old − f(x_old)/df(x_old)` and `f_x == f(x_new)` (not `f(x_old)`). The first `x_old` is `x0`, and `trace[k+1].x_old == trace[k].x_new`. |
| NewtonRaphson.ErrorShape | mi_aplicacion_raices/methods/newton_raphson.py:59-70 | `ea` is None on the first record. Every later `ea` is finite and non-negative, never Infinity, and follows the zero-fallback rule between `x_new` and `x_old`. |
| NewtonRaphson.LaterErrors | mi_aplicacion_raices/methods/newton_raphson.py:59-70 | The first `ea` is None and every later `ea` is the zero-fallback error of `x_new` against `x_old`. |
| NewtonRaphson.ExactRootStops | mi_aplicacion_raices/methods/newton_raphson.py:53-82 | If `f(x_old) == 0` on a non-first iteration, then `x_new == x_old`, `ea == 0`, and the solve stops there. |
| NewtonRaphson.StopRule | mi_aplicacion_raices/methods/newton_raphson.py:80-82 | Every non-final record has `ea` None or at least `tol`. If the last `ea` is not below `tol`, then \|trace\| == max_iter. |
| Secant.SecantStep | mi_aplicacion_raices/methods/secante.py:52 | The new estimate is the zero of the chord through (x0, f(x0)) and (x1, f(x1)). |
| Chords.RegulaFalsiIsSecant | mi_aplicacion_raices/methods/secante.py:52 | The false-position formula and the secant formula give the same point from the same pair of points. |
| Secant.Iterate | mi_aplicacion_raices/methods/secante.py:39-86 | The loop fails only with ZeroDenominator, and always does when fuel remains and `f(x1) − f(x0) == 0`. On success it yields at most `fuel` records, and the first stores the given seeds. |
| Secant.Solve | mi_aplicacion_raices/methods/secante.py:30-48 | InvalidConfig exactly when `tol <= 0` or `max_iter <= 0`; the only other failure is ZeroDenominator, which equal seed values force. On success, 1 ≤ \|trace\| ≤ max_iter and the first record holds the seeds. |
| Secant.IterateIsRun | mi_aplicacion_raices/methods/secante.py:39-86 | Every successful loop trace satisfies the record-by-record description `Run`. |
| Secant.RunIsIterate | mi_aplicacion_raices/methods/secante.py:39-86 | A trace satisfying `Run` is the one the loop returns. |
| Secant.IterateFailureIsBlocked | mi_aplicacion_raices/methods/secante.py:46-48 | A failing loop has a non-converged chain of records, within the cap, that ends at seeds with equal function values. |
| Secant.BlockedFails | mi_aplicacion_raices/methods/secante.py:46-48 | Any such chain forces the loop to fail with ZeroDenominator. |
| Secant.SolveCharacterized | mi_aplicacion_raices/methods/secante.py:30-88 | The solver returns trace `t` if and only if the configuration is valid and `t` satisfies `Run` from the seeds. |
| Secant.ZeroDenominatorCharacterized | mi_aplicacion_raices/methods/secante.py:46-48 | The solver fails with ZeroDenominator if and only if the configuration is valid and some non-converged chain within the cap reaches seeds with `f(x1) − f(x0) == 0`. |
| Secant.RecordsAreSecantSteps | mi_aplicacion_raices/methods/secante.py:50-86 | Every record stores the pre-shift seeds, `x_new == x1 − f(x1)(x1−x0)/(f(x1)−f(x0))` and `f_x_new == f(x_new)`. Seeds shift: `trace[k+1].x0 == trace[k].x1` and `trace[k+1].x1 == trace[k].x_new`. |
| Secant.ErrorShape | mi_aplicacion_raices/methods/secante.py:58-69 | `ea` is None only on the first record. Every later `ea` is finite and non-negative, never Infinity, and compares `x_new` with `x1` using the zero fallback. |
| Secant.LaterErrors | mi_aplicacion_raices/methods/secante.py:58-69 | The first `ea` is None and every later `ea` is the zero-fallback error of `x_new` against `x1`, the newer seed, not `x0`. |
| Secant.StopRule | mi_aplicacion_raices/methods/secante.py:80-82 | The solve stops at the first record with `ea < tol`. If no record has one, then \|trace\| == max_iter. |

## Left out

- Failures inside `f`, `df` or `g` (domain errors, overflow), and the
  exceptions the source wraps around them with the iteration number. The
  model treats the user function as total. The wording of error messages
  is not modelled either.
- IEEE-754 behaviour: rounding, NaN, overflow. The model uses exact `real`
  arithmetic. The false-position `f(a) == f(b)` guard is still modelled,
  even though it can only fire through rounding.
- Claims that a solver converges to a particular value (2.0, 0.739, …).
  These depend on the numeric properties of `f`, which an opaque function
  parameter does not have.
- Re-evaluations of the user function at the same point (for example
  `f(a)` recomputed at biseccion.py:82, or `f(a)` and `f(b)` recomputed at
  falsa_posicion.py:53-58). A pure `f` returns the same value each time,
  so each point is evaluated once in the model.
- The default `max_iter=100`: the model always takes the cap as an
  explicit argument.
- The `if __name__ == "__main__"` demonstration blocks, which only print.
- mi_aplicacion_raices/app.py (Flask form parsing, method dispatch, template
  rendering) is not part of this model. It indexes `resultados_metodo[-1]`,
  which is safe because every successful solve returns at least one record
  (the `Solve` contracts).
- mi_aplicacion_raices/utils/parser.py (turning text into a callable) and
  mi_aplicacion_raices/utils/plot.py (drawing and writing an image) are not
  part of this model. Parsed functions appear only as the function
  parameters.
- ProyectoInicial/variables.py and DJANGO-RESTFRAMEWORK-MYSQL/api/views.py
  share no logic with the solvers and are not part of this model.
