/**
  The Newton-Raphson method: follow the tangent of `f` from the current
  estimate to its zero, until two successive estimates agree within the
  tolerance, the derivative vanishes (fatal), or the iteration cap runs out.
 */
module NewtonRaphson {
  import opened Common

  /** One iteration: the estimate the step started from, the new estimate,
      `f` evaluated again at the new estimate, and the approximate error. */
  datatype NewtonRecord = NewtonRecord(xOld: real, xNew: real, fx: real, ea: ApproxError)

  /** The zero of the tangent of `f` at `x`. */
  function NewtonStep(f: real -> real, df: real -> real, x: real): (xNew: real)
    requires df(x) != 0.0
    ensures df(x) * (x - xNew) == f(x)
  {
    x - f(x) / df(x)
  }

  /** The remaining `fuel` iterations from `xOld`; `first` holds on the
      solve's first iteration only. A vanishing derivative aborts the whole
      solve, discarding the records gathered so far. */
  function Iterate(f: real -> real, df: real -> real, xOld: real, first: bool, tol: real, fuel: nat)
    : (r: Result<seq<NewtonRecord>, SolverError>)
    ensures r.Failure? ==> r.error == ZeroDerivative
    ensures 0 < fuel && df(xOld) == 0.0 ==> r == Failure(ZeroDerivative)
    ensures r.Success? ==> |r.value| <= fuel && (0 < fuel ==> 0 < |r.value|)
    ensures r.Success? && 0 < |r.value| ==> r.value[0].xOld == xOld
    decreases fuel
  {
    if fuel == 0 then Success([])
    else if df(xOld) == 0.0 then Failure(ZeroDerivative)
    else
      var xNew := NewtonStep(f, df, xOld);
      var rec := NewtonRecord(xOld, xNew, f(xNew), StepError(first, xNew, xOld));
      if Converged(rec.ea, tol) then Success([rec])
      else
        match Iterate(f, df, xNew, false, tol, fuel - 1)
        case Success(rest) => Success([rec] + rest)
        case Failure(e) => Failure(e)
  }

  /** The solver: validate the configuration, then iterate at most `maxIter`
      times from `x0`. */
  function Solve(f: real -> real, df: real -> real, x0: real, tol: real, maxIter: int)
    : (r: Result<seq<NewtonRecord>, SolverError>)
    ensures r == Failure(InvalidConfig) <==> !ValidConfig(tol, maxIter)
    ensures r.Failure? ==> r.error == InvalidConfig || r.error == ZeroDerivative
    ensures ValidConfig(tol, maxIter) && df(x0) == 0.0 ==> r == Failure(ZeroDerivative)
    ensures r.Success? ==> 1 <= |r.value| <= maxIter && r.value[0].xOld == x0
  {
    if !ValidConfig(tol, maxIter) then Failure(InvalidConfig)
    else Iterate(f, df, x0, true, tol, maxIter)
  }

  /** `rec` is what one iteration started at `x` records. */
  ghost predicate ValidStep(f: real -> real, df: real -> real, x: real, first: bool, rec: NewtonRecord)
  {
    && rec.xOld == x
    && df(x) != 0.0
    && rec.xNew == NewtonStep(f, df, x)
    && rec.fx == f(rec.xNew)
    && rec.ea == StepError(first, rec.xNew, x)
  }

  /** `t` is a chain of iterations from `x` in which no record but possibly
      the last one converged. */
  ghost predicate Steps(f: real -> real, df: real -> real, x: real, first: bool, tol: real, t: seq<NewtonRecord>)
  {
    && (0 < |t| ==> ValidStep(f, df, x, first, t[0]))
    && (forall k :: 0 < k < |t| ==> ValidStep(f, df, t[k - 1].xNew, false, t[k]))
    && (forall k :: 0 <= k < |t| - 1 ==> !Converged(t[k].ea, tol))
  }

  /** A complete trace: the chain ends on a converged record or at the cap. */
  ghost predicate Run(f: real -> real, df: real -> real, x: real, first: bool, tol: real, fuel: nat,
                      t: seq<NewtonRecord>)
  {
    && Steps(f, df, x, first, tol, t)
    && |t| <= fuel
    && (0 < fuel ==> 0 < |t|)
    && (0 < |t| < fuel ==> Converged(t[|t| - 1].ea, tol))
  }

  /** The estimate the iteration after `t` starts from. */
  function NextEstimate(x: real, t: seq<NewtonRecord>): real
  {
    if |t| == 0 then x else t[|t| - 1].xNew
  }

  /** A chain that has not converged, leaves budget for another iteration,
      and arrives at an estimate where the derivative vanishes. */
  ghost predicate Blocked(f: real -> real, df: real -> real, x: real, first: bool, tol: real, fuel: nat,
                          t: seq<NewtonRecord>)
  {
    && Steps(f, df, x, first, tol, t)
    && |t| < fuel
    && (0 < |t| ==> !Converged(t[|t| - 1].ea, tol))
    && df(NextEstimate(x, t)) == 0.0
  }

  /** A chain is a valid first record followed by a chain from its new
      estimate. */
  lemma StepsCons(f: real -> real, df: real -> real, x: real, first: bool, tol: real,
                  rec: NewtonRecord, rest: seq<NewtonRecord>)
    ensures Steps(f, df, x, first, tol, [rec] + rest)
        <==> ValidStep(f, df, x, first, rec)
             && (0 < |rest| ==> !Converged(rec.ea, tol))
             && Steps(f, df, rec.xNew, false, tol, rest)
  {
    var t := [rec] + rest;
    if Steps(f, df, x, first, tol, t) && 0 < |rest| {
      assert rest[0] == t[1];
      forall k | 0 < k < |rest|
        ensures ValidStep(f, df, rest[k - 1].xNew, false, rest[k])
      {
        assert rest[k] == t[k + 1] && rest[k - 1] == t[k];
      }
      forall k | 0 <= k < |rest| - 1
        ensures !Converged(rest[k].ea, tol)
      {
        assert rest[k] == t[k + 1];
      }
    }
    if ValidStep(f, df, x, first, rec) && (0 < |rest| ==> !Converged(rec.ea, tol))
       && Steps(f, df, rec.xNew, false, tol, rest) {
      forall k | 0 < k < |t|
        ensures ValidStep(f, df, t[k - 1].xNew, false, t[k])
      {
        assert t[k] == rest[k - 1];
        if k > 1 {
          assert t[k - 1] == rest[k - 2];
        }
      }
      forall k | 0 <= k < |t| - 1
        ensures !Converged(t[k].ea, tol)
      {
        if k > 0 {
          assert t[k] == rest[k - 1];
        }
      }
    }
  }

  lemma {:induction false} IterateIsRun(f: real -> real, df: real -> real, x: real, first: bool,
                                        tol: real, fuel: nat)
    requires Iterate(f, df, x, first, tol, fuel).Success?
    ensures Run(f, df, x, first, tol, fuel, Iterate(f, df, x, first, tol, fuel).value)
    decreases fuel
  {
    if fuel > 0 {
      var xNew := NewtonStep(f, df, x);
      var rec := NewtonRecord(x, xNew, f(xNew), StepError(first, xNew, x));
      if Converged(rec.ea, tol) {
        StepsCons(f, df, x, first, tol, rec, []);
        assert [rec] + [] == [rec];
      } else {
        var rest := Iterate(f, df, xNew, false, tol, fuel - 1).value;
        IterateIsRun(f, df, xNew, false, tol, fuel - 1);
        StepsCons(f, df, x, first, tol, rec, rest);
      }
    }
  }

  lemma {:induction false} RunIsIterate(f: real -> real, df: real -> real, x: real, first: bool,
                                        tol: real, fuel: nat, t: seq<NewtonRecord>)
    requires Run(f, df, x, first, tol, fuel, t)
    ensures Iterate(f, df, x, first, tol, fuel) == Success(t)
    decreases fuel
  {
    if fuel > 0 {
      var rest := t[1..];
      assert t == [t[0]] + rest;
      StepsCons(f, df, x, first, tol, t[0], rest);
      var xNew := NewtonStep(f, df, x);
      assert t[0] == NewtonRecord(x, xNew, f(xNew), StepError(first, xNew, x));
      if !Converged(t[0].ea, tol) {
        RunIsIterate(f, df, t[0].xNew, false, tol, fuel - 1, rest);
      } else {
        assert t == [t[0]];
      }
    }
  }

  lemma {:induction false} IterateFailureIsBlocked(f: real -> real, df: real -> real, x: real, first: bool,
                                                   tol: real, fuel: nat)
    requires Iterate(f, df, x, first, tol, fuel).Failure?
    ensures exists t :: Blocked(f, df, x, first, tol, fuel, t)
    decreases fuel
  {
    if df(x) == 0.0 {
      assert Blocked(f, df, x, first, tol, fuel, []);
    } else {
      var xNew := NewtonStep(f, df, x);
      var rec := NewtonRecord(x, xNew, f(xNew), StepError(first, xNew, x));
      IterateFailureIsBlocked(f, df, xNew, false, tol, fuel - 1);
      var rest :| Blocked(f, df, xNew, false, tol, fuel - 1, rest);
      StepsCons(f, df, x, first, tol, rec, rest);
      assert Blocked(f, df, x, first, tol, fuel, [rec] + rest);
    }
  }

  lemma {:induction false} BlockedFails(f: real -> real, df: real -> real, x: real, first: bool,
                                        tol: real, fuel: nat, t: seq<NewtonRecord>)
    requires Blocked(f, df, x, first, tol, fuel, t)
    ensures Iterate(f, df, x, first, tol, fuel) == Failure(ZeroDerivative)
    decreases fuel
  {
    if 0 < |t| {
      var rest := t[1..];
      assert t == [t[0]] + rest;
      StepsCons(f, df, x, first, tol, t[0], rest);
      if 0 < |rest| {
        assert rest[|rest| - 1] == t[|t| - 1];
      }
      BlockedFails(f, df, t[0].xNew, false, tol, fuel - 1, rest);
    }
  }

  /** The solver succeeds with trace `t` exactly when the configuration is
      valid and `t` is a complete run of at most `maxIter` records from `x0`. */
  lemma SolveCharacterized(f: real -> real, df: real -> real, x0: real, tol: real, maxIter: int,
                           t: seq<NewtonRecord>)
    ensures Solve(f, df, x0, tol, maxIter) == Success(t)
        <==> ValidConfig(tol, maxIter) && Run(f, df, x0, true, tol, maxIter, t)
  {
    if ValidConfig(tol, maxIter) {
      if Iterate(f, df, x0, true, tol, maxIter).Success? {
        IterateIsRun(f, df, x0, true, tol, maxIter);
      }
      if Run(f, df, x0, true, tol, maxIter, t) {
        RunIsIterate(f, df, x0, true, tol, maxIter, t);
      }
    }
  }

  /** The solver fails with ZeroDerivative exactly when the configuration is
      valid and some chain of non-converged iterations within the cap reaches
      an estimate where the derivative vanishes; no partial trace survives. */
  lemma ZeroDerivativeCharacterized(f: real -> real, df: real -> real, x0: real, tol: real, maxIter: int)
    ensures Solve(f, df, x0, tol, maxIter) == Failure(ZeroDerivative)
        <==> ValidConfig(tol, maxIter) && exists t :: Blocked(f, df, x0, true, tol, maxIter, t)
  {
    if ValidConfig(tol, maxIter) {
      if Iterate(f, df, x0, true, tol, maxIter).Failure? {
        IterateFailureIsBlocked(f, df, x0, true, tol, maxIter);
      }
      if exists t :: Blocked(f, df, x0, true, tol, maxIter, t) {
        var t :| Blocked(f, df, x0, true, tol, maxIter, t);
        BlockedFails(f, df, x0, true, tol, maxIter, t);
      }
    }
  }

  /** Each record is a Newton step from a point of nonzero derivative, its
      `fx` is `f` at the NEW estimate, and the records chain from `x0`. */
  lemma RecordsAreNewtonSteps(f: real -> real, df: real -> real, x0: real, tol: real, maxIter: int,
                              t: seq<NewtonRecord>)
    requires Solve(f, df, x0, tol, maxIter) == Success(t)
    ensures t[0].xOld == x0
    ensures forall k :: 0 <= k < |t| ==> df(t[k].xOld) != 0.0
    ensures forall k :: 0 <= k < |t| ==>
              t[k].xNew == t[k].xOld - f(t[k].xOld) / df(t[k].xOld) && t[k].fx == f(t[k].xNew)
    ensures forall k :: 0 <= k < |t| - 1 ==> t[k + 1].xOld == t[k].xNew
  {
    SolveCharacterized(f, df, x0, tol, maxIter, t);
    forall k | 0 <= k < |t|
      ensures ValidStep(f, df, t[k].xOld, k == 0, t[k])
    {
      if k > 0 {
        assert ValidStep(f, df, t[k - 1].xNew, false, t[k]);
      }
    }
    forall k | 0 <= k < |t| - 1
      ensures t[k + 1].xOld == t[k].xNew
    {
      assert ValidStep(f, df, t[k].xNew, false, t[k + 1]);
    }
  }

  /** The error is absent exactly on the first record; every later one is
      finite and non-negative, never Infinity, computed between the new and
      the old estimate with the zero fallback. */
  lemma ErrorShape(f: real -> real, df: real -> real, x0: real, tol: real, maxIter: int, t: seq<NewtonRecord>)
    requires Solve(f, df, x0, tol, maxIter) == Success(t)
    ensures t[0].ea == NoError
    ensures forall k :: 0 < k < |t| ==> t[k].ea.Finite? && 0.0 <= t[k].ea.value
    ensures forall k :: 0 < k < |t| && t[k].xNew == 0.0 ==> t[k].ea.value == Abs(t[k].xOld)
    ensures forall k :: 0 < k < |t| && t[k].xNew != 0.0 ==>
              t[k].ea.value * Abs(t[k].xNew) == 100.0 * Abs(t[k].xNew - t[k].xOld)
  {
    LaterErrors(f, df, x0, tol, maxIter, t);
    forall k | 0 < k < |t|
      ensures t[k].ea.Finite? && 0.0 <= t[k].ea.value
      ensures t[k].xNew == 0.0 ==> t[k].ea.value == Abs(t[k].xOld)
      ensures t[k].xNew != 0.0 ==> t[k].ea.value * Abs(t[k].xNew) == 100.0 * Abs(t[k].xNew - t[k].xOld)
    {
      assert t[k].ea == FallbackError(t[k].xNew, t[k].xOld);
    }
  }

  /** The first error is absent; every later one is the zero-fallback error
      of the new estimate against the one the iteration started from. */
  lemma LaterErrors(f: real -> real, df: real -> real, x0: real, tol: real, maxIter: int, t: seq<NewtonRecord>)
    requires Solve(f, df, x0, tol, maxIter) == Success(t)
    ensures t[0].ea == NoError
    ensures forall k :: 0 < k < |t| ==> t[k].ea == FallbackError(t[k].xNew, t[k].xOld)
  {
    SolveCharacterized(f, df, x0, tol, maxIter, t);
    forall k | 0 < k < |t|
      ensures t[k].ea == FallbackError(t[k].xNew, t[k].xOld)
    {
      assert ValidStep(f, df, t[k - 1].xNew, false, t[k]);
    }
  }

  /** Starting an iteration other than the first at an exact root repeats the
      estimate with error zero and ends the trace there. */
  lemma ExactRootStops(f: real -> real, df: real -> real, x0: real, tol: real, maxIter: int,
                       t: seq<NewtonRecord>, k: nat)
    requires Solve(f, df, x0, tol, maxIter) == Success(t)
    requires 0 < k < |t|
    requires f(t[k].xOld) == 0.0
    ensures t[k].xNew == t[k].xOld
    ensures t[k].ea == Finite(0.0)
    ensures k == |t| - 1
  {
    SolveCharacterized(f, df, x0, tol, maxIter, t);
    assert ValidStep(f, df, t[k - 1].xNew, false, t[k]);
  }

  /** The stop rule: every record but the last has an error that is absent or
      not below the tolerance, and a trace shorter than the cap ends on a
      converged record. */
  lemma StopRule(f: real -> real, df: real -> real, x0: real, tol: real, maxIter: int, t: seq<NewtonRecord>)
    requires Solve(f, df, x0, tol, maxIter) == Success(t)
    ensures forall k :: 0 <= k < |t| - 1 ==> t[k].ea == NoError || (t[k].ea.Finite? && t[k].ea.value >= tol)
    ensures !Converged(t[|t| - 1].ea, tol) ==> |t| == maxIter
  {
    SolveCharacterized(f, df, x0, tol, maxIter, t);
    ErrorShape(f, df, x0, tol, maxIter, t);
  }
}
