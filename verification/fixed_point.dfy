/**
  Fixed-point iteration: apply `g` repeatedly from `x0` until two successive
  estimates agree within the tolerance or the iteration cap runs out. There
  is no bracket and no denominator, so the only failure is a bad
  configuration.
 */
module FixedPoint {
  import opened Common

  /** One iteration: the estimate fed to `g`, the value `g` returned, and the
      approximate error between them. */
  datatype FixedPointRecord = FixedPointRecord(xOld: real, xNew: real, ea: ApproxError)

  /** The remaining `fuel` iterations from `xOld`; `first` holds on the
      solve's first iteration only. */
  function Iterate(g: real -> real, xOld: real, first: bool, tol: real, fuel: nat)
    : (t: seq<FixedPointRecord>)
    ensures |t| <= fuel
    ensures fuel > 0 ==> 0 < |t|
    ensures 0 < |t| ==> t[0].xOld == xOld && t[0].xNew == g(xOld)
    decreases fuel
  {
    if fuel == 0 then []
    else
      var xNew := g(xOld);
      var rec := FixedPointRecord(xOld, xNew, StepError(first, xNew, xOld));
      if Converged(rec.ea, tol) then [rec]
      else [rec] + Iterate(g, xNew, false, tol, fuel - 1)
  }

  /** The solver: validate the configuration, then iterate at most `maxIter`
      times from `x0`. */
  function Solve(g: real -> real, x0: real, tol: real, maxIter: int)
    : (r: Result<seq<FixedPointRecord>, SolverError>)
    ensures r.Failure? <==> !ValidConfig(tol, maxIter)
    ensures r.Failure? ==> r.error == InvalidConfig
    ensures r.Success? ==> 1 <= |r.value| <= maxIter
    ensures r.Success? ==> r.value[0].xOld == x0 && r.value[0].xNew == g(x0)
  {
    if !ValidConfig(tol, maxIter) then Failure(InvalidConfig)
    else Success(Iterate(g, x0, true, tol, maxIter))
  }

  /** Index-wise description of a fixed-point trace of at most `fuel`
      records that starts from estimate `x`. */
  ghost predicate Run(g: real -> real, x: real, first: bool, tol: real, fuel: nat, t: seq<FixedPointRecord>)
  {
    && |t| <= fuel
    && (fuel > 0 ==> 0 < |t|)
    && (0 < |t| ==> t[0].xOld == x && t[0].ea == StepError(first, t[0].xNew, x))
    && (forall k :: 0 <= k < |t| ==> t[k].xNew == g(t[k].xOld))
    && (forall k :: 0 < k < |t| ==> t[k].xOld == t[k - 1].xNew)
    && (forall k :: 0 < k < |t| ==> t[k].ea == FallbackError(t[k].xNew, t[k].xOld))
    && (forall k :: 0 <= k < |t| - 1 ==> !Converged(t[k].ea, tol))
    && (0 < |t| < fuel ==> Converged(t[|t| - 1].ea, tol))
  }

  /** A run is a first record that has not converged, followed by a run from
      the value that record computed. */
  lemma RunCons(g: real -> real, x: real, first: bool, tol: real, fuel: nat,
                rec: FixedPointRecord, rest: seq<FixedPointRecord>)
    requires 0 < fuel
    requires rec == FixedPointRecord(x, g(x), StepError(first, g(x), x))
    requires !Converged(rec.ea, tol)
    requires Run(g, rec.xNew, false, tol, fuel - 1, rest)
    ensures Run(g, x, first, tol, fuel, [rec] + rest)
  {
    var t := [rec] + rest;
    forall k | 0 < k < |t|
      ensures t[k].xOld == t[k - 1].xNew
    {
      assert t[k] == rest[k - 1];
      if k > 1 {
        assert t[k - 1] == rest[k - 2];
      }
    }
    forall k | 0 < k < |t|
      ensures t[k].ea == FallbackError(t[k].xNew, t[k].xOld)
    {
      assert t[k] == rest[k - 1];
    }
  }

  /** The records after the first of a run of two or more form a run from
      the value the first record computed. */
  lemma RunTail(g: real -> real, x: real, first: bool, tol: real, fuel: nat, t: seq<FixedPointRecord>)
    requires Run(g, x, first, tol, fuel, t)
    requires 1 < |t|
    ensures Run(g, t[0].xNew, false, tol, fuel - 1, t[1..])
  {
    var rest := t[1..];
    assert rest[0] == t[1];
    forall k | 0 < k < |rest|
      ensures rest[k].xOld == rest[k - 1].xNew
    {
      assert rest[k] == t[k + 1];
    }
    forall k | 0 <= k < |rest| - 1
      ensures !Converged(rest[k].ea, tol)
    {
      assert rest[k] == t[k + 1];
    }
  }

  lemma {:induction false} IterateIsRun(g: real -> real, x: real, first: bool, tol: real, fuel: nat)
    ensures Run(g, x, first, tol, fuel, Iterate(g, x, first, tol, fuel))
    decreases fuel
  {
    if fuel > 0 {
      var xNew := g(x);
      var rec := FixedPointRecord(x, xNew, StepError(first, xNew, x));
      if !Converged(rec.ea, tol) {
        IterateIsRun(g, xNew, false, tol, fuel - 1);
        RunCons(g, x, first, tol, fuel, rec, Iterate(g, xNew, false, tol, fuel - 1));
      }
    }
  }

  lemma {:induction false} RunIsIterate(g: real -> real, x: real, first: bool, tol: real, fuel: nat,
                                        t: seq<FixedPointRecord>)
    requires Run(g, x, first, tol, fuel, t)
    ensures t == Iterate(g, x, first, tol, fuel)
    decreases fuel
  {
    if fuel > 0 {
      var xNew := g(x);
      var rec := FixedPointRecord(x, xNew, StepError(first, xNew, x));
      assert t[0] == rec;
      if |t| == 1 {
        assert t == [rec];
      } else {
        RunTail(g, x, first, tol, fuel, t);
        RunIsIterate(g, xNew, false, tol, fuel - 1, t[1..]);
        assert t == [rec] + t[1..];
      }
    }
  }

  /** The solver succeeds with trace `t` exactly when the configuration is
      valid and `t` is a run of at most `maxIter` records from `x0`. */
  lemma SolveCharacterized(g: real -> real, x0: real, tol: real, maxIter: int, t: seq<FixedPointRecord>)
    ensures Solve(g, x0, tol, maxIter) == Success(t) <==> ValidConfig(tol, maxIter) && Run(g, x0, true, tol, maxIter, t)
  {
    if ValidConfig(tol, maxIter) {
      IterateIsRun(g, x0, true, tol, maxIter);
      if Run(g, x0, true, tol, maxIter, t) {
        RunIsIterate(g, x0, true, tol, maxIter, t);
      }
    }
  }

  /** The records chain: each starts from the previous record's new value,
      and each new value is `g` of its own old value. */
  lemma RecordsChain(g: real -> real, x0: real, tol: real, maxIter: int, t: seq<FixedPointRecord>)
    requires Solve(g, x0, tol, maxIter) == Success(t)
    ensures t[0].xOld == x0
    ensures forall k :: 0 <= k < |t| ==> t[k].xNew == g(t[k].xOld)
    ensures forall k :: 0 <= k < |t| - 1 ==> t[k + 1].xOld == t[k].xNew
  {
    SolveCharacterized(g, x0, tol, maxIter, t);
    forall k | 0 <= k < |t| - 1
      ensures t[k + 1].xOld == t[k].xNew
    {
    }
  }

  /** The error is absent exactly on the first record; every later one is
      finite and non-negative, never Infinity: the unscaled difference when
      the new value is zero, the percentage change otherwise. */
  lemma ErrorShape(g: real -> real, x0: real, tol: real, maxIter: int, t: seq<FixedPointRecord>)
    requires Solve(g, x0, tol, maxIter) == Success(t)
    ensures t[0].ea == NoError
    ensures forall k :: 0 < k < |t| ==> t[k].ea.Finite? && 0.0 <= t[k].ea.value
    ensures forall k :: 0 < k < |t| && t[k].xNew == 0.0 ==> t[k].ea.value == Abs(t[k].xOld)
    ensures forall k :: 0 < k < |t| && t[k].xNew != 0.0 ==>
              t[k].ea.value * Abs(t[k].xNew) == 100.0 * Abs(t[k].xNew - t[k].xOld)
  {
    LaterErrors(g, x0, tol, maxIter, t);
    forall k | 0 < k < |t|
      ensures t[k].ea.Finite? && 0.0 <= t[k].ea.value
      ensures t[k].xNew == 0.0 ==> t[k].ea.value == Abs(t[k].xOld)
      ensures t[k].xNew != 0.0 ==> t[k].ea.value * Abs(t[k].xNew) == 100.0 * Abs(t[k].xNew - t[k].xOld)
    {
      assert t[k].ea == FallbackError(t[k].xNew, t[k].xOld);
    }
  }

  /** The first error is absent; every later one is the zero-fallback error
      of the new value against the estimate fed to `g`. */
  lemma LaterErrors(g: real -> real, x0: real, tol: real, maxIter: int, t: seq<FixedPointRecord>)
    requires Solve(g, x0, tol, maxIter) == Success(t)
    ensures t[0].ea == NoError
    ensures forall k :: 0 < k < |t| ==> t[k].ea == FallbackError(t[k].xNew, t[k].xOld)
  {
    SolveCharacterized(g, x0, tol, maxIter, t);
  }

  /** The stop rule: every record but the last has an error that is absent or
      not below the tolerance, and a trace shorter than the cap ends on a
      converged record. */
  lemma StopRule(g: real -> real, x0: real, tol: real, maxIter: int, t: seq<FixedPointRecord>)
    requires Solve(g, x0, tol, maxIter) == Success(t)
    ensures forall k :: 0 <= k < |t| - 1 ==> t[k].ea == NoError || (t[k].ea.Finite? && t[k].ea.value >= tol)
    ensures !Converged(t[|t| - 1].ea, tol) ==> |t| == maxIter
  {
    SolveCharacterized(g, x0, tol, maxIter, t);
    ErrorShape(g, x0, tol, maxIter, t);
  }

  /** Reaching a fixed point of `g` on any but the first iteration gives
      error zero and ends the trace there. */
  lemma FixedPointStops(g: real -> real, x0: real, tol: real, maxIter: int, t: seq<FixedPointRecord>, k: nat)
    requires Solve(g, x0, tol, maxIter) == Success(t)
    requires 0 < k < |t|
    requires g(t[k].xOld) == t[k].xOld
    ensures t[k].ea == Finite(0.0)
    ensures k == |t| - 1
  {
    SolveCharacterized(g, x0, tol, maxIter, t);
    assert t[k].ea == FallbackError(t[k].xNew, t[k].xOld);
  }

  /** Starting at a fixed point takes exactly two records when the cap
      allows: the first has no error, the second repeats it with error zero. */
  lemma StartAtFixedPoint(g: real -> real, x0: real, tol: real, maxIter: int, t: seq<FixedPointRecord>)
    requires Solve(g, x0, tol, maxIter) == Success(t)
    requires g(x0) == x0 && 2 <= maxIter
    ensures |t| == 2 && t[1].xNew == x0 && t[1].ea == Finite(0.0)
  {
    SolveCharacterized(g, x0, tol, maxIter, t);
    assert |t| > 1;
    FixedPointStops(g, x0, tol, maxIter, t, 1);
  }
}
