/**
  The secant method: replace the older of two seeds by the zero of the
  chord through both, until the new estimate agrees with the newer seed
  within the tolerance, the two function values coincide (fatal), or the
  iteration cap runs out.
 */
module Secant {
  import opened Common

  /** One iteration: the seed pair used to produce the new estimate (before
      the shift), the new estimate, `f` there, and the approximate error. */
  datatype SecantRecord = SecantRecord(x0: real, x1: real, xNew: real, fxNew: real, ea: ApproxError)

  /** The zero of the chord through (x0, f0) and (x1, f1), in the form the
      solver computes it. */
  function SecantStep(x0: real, x1: real, f0: real, f1: real): (xNew: real)
    requires f1 - f0 != 0.0
    ensures f0 * (xNew - x1) == f1 * (xNew - x0)
  {
    var q := f1 * (x1 - x0) / (f1 - f0);
    assert q * (f1 - f0) == f1 * (x1 - x0);
    x1 - q
  }

  /** The remaining `fuel` iterations from seeds (x0, x1); `first` holds on
      the solve's first iteration only. Coinciding function values at the
      seeds abort the whole solve, discarding the records gathered so far. */
  function Iterate(f: real -> real, x0: real, x1: real, first: bool, tol: real, fuel: nat)
    : (r: Result<seq<SecantRecord>, SolverError>)
    ensures r.Failure? ==> r.error == ZeroDenominator
    ensures 0 < fuel && f(x1) - f(x0) == 0.0 ==> r == Failure(ZeroDenominator)
    ensures r.Success? ==> |r.value| <= fuel && (0 < fuel ==> 0 < |r.value|)
    ensures r.Success? && 0 < |r.value| ==> r.value[0].x0 == x0 && r.value[0].x1 == x1
    decreases fuel
  {
    if fuel == 0 then Success([])
    else if f(x1) - f(x0) == 0.0 then Failure(ZeroDenominator)
    else
      var xNew := SecantStep(x0, x1, f(x0), f(x1));
      var rec := SecantRecord(x0, x1, xNew, f(xNew), StepError(first, xNew, x1));
      if Converged(rec.ea, tol) then Success([rec])
      else
        match Iterate(f, x1, xNew, false, tol, fuel - 1)
        case Success(rest) => Success([rec] + rest)
        case Failure(e) => Failure(e)
  }

  /** The solver: validate the configuration, then iterate at most `maxIter`
      times from seeds (x0, x1). */
  function Solve(f: real -> real, x0: real, x1: real, tol: real, maxIter: int)
    : (r: Result<seq<SecantRecord>, SolverError>)
    ensures r == Failure(InvalidConfig) <==> !ValidConfig(tol, maxIter)
    ensures r.Failure? ==> r.error == InvalidConfig || r.error == ZeroDenominator
    ensures ValidConfig(tol, maxIter) && f(x1) - f(x0) == 0.0 ==> r == Failure(ZeroDenominator)
    ensures r.Success? ==> 1 <= |r.value| <= maxIter && r.value[0].x0 == x0 && r.value[0].x1 == x1
  {
    if !ValidConfig(tol, maxIter) then Failure(InvalidConfig)
    else Iterate(f, x0, x1, true, tol, maxIter)
  }

  /** `rec` is what one iteration with seeds (x0, x1) records. */
  ghost predicate ValidStep(f: real -> real, x0: real, x1: real, first: bool, rec: SecantRecord)
  {
    && rec.x0 == x0
    && rec.x1 == x1
    && f(x1) - f(x0) != 0.0
    && rec.xNew == SecantStep(x0, x1, f(x0), f(x1))
    && rec.fxNew == f(rec.xNew)
    && rec.ea == StepError(first, rec.xNew, x1)
  }

  /** `t` is a chain of iterations from seeds (x0, x1), each shifting the
      seeds by one, in which no record but possibly the last one converged. */
  ghost predicate Steps(f: real -> real, x0: real, x1: real, first: bool, tol: real, t: seq<SecantRecord>)
  {
    && (0 < |t| ==> ValidStep(f, x0, x1, first, t[0]))
    && (forall k :: 0 < k < |t| ==> ValidStep(f, t[k - 1].x1, t[k - 1].xNew, false, t[k]))
    && (forall k :: 0 <= k < |t| - 1 ==> !Converged(t[k].ea, tol))
  }

  /** A complete trace: the chain ends on a converged record or at the cap. */
  ghost predicate Run(f: real -> real, x0: real, x1: real, first: bool, tol: real, fuel: nat,
                      t: seq<SecantRecord>)
  {
    && Steps(f, x0, x1, first, tol, t)
    && |t| <= fuel
    && (0 < fuel ==> 0 < |t|)
    && (0 < |t| < fuel ==> Converged(t[|t| - 1].ea, tol))
  }

  /** The seed pair the iteration after `t` starts from. */
  function NextSeeds(x0: real, x1: real, t: seq<SecantRecord>): (real, real)
  {
    if |t| == 0 then (x0, x1) else (t[|t| - 1].x1, t[|t| - 1].xNew)
  }

  /** A chain that has not converged, leaves budget for another iteration,
      and arrives at seeds with coinciding function values. */
  ghost predicate Blocked(f: real -> real, x0: real, x1: real, first: bool, tol: real, fuel: nat,
                          t: seq<SecantRecord>)
  {
    && Steps(f, x0, x1, first, tol, t)
    && |t| < fuel
    && (0 < |t| ==> !Converged(t[|t| - 1].ea, tol))
    && f(NextSeeds(x0, x1, t).1) - f(NextSeeds(x0, x1, t).0) == 0.0
  }

  /** A chain is a valid first record followed by a chain from the shifted
      seeds. */
  lemma StepsCons(f: real -> real, x0: real, x1: real, first: bool, tol: real,
                  rec: SecantRecord, rest: seq<SecantRecord>)
    ensures Steps(f, x0, x1, first, tol, [rec] + rest)
        <==> ValidStep(f, x0, x1, first, rec)
             && (0 < |rest| ==> !Converged(rec.ea, tol))
             && Steps(f, rec.x1, rec.xNew, false, tol, rest)
  {
    var t := [rec] + rest;
    if Steps(f, x0, x1, first, tol, t) && 0 < |rest| {
      assert rest[0] == t[1];
      forall k | 0 < k < |rest|
        ensures ValidStep(f, rest[k - 1].x1, rest[k - 1].xNew, false, rest[k])
      {
        assert rest[k] == t[k + 1] && rest[k - 1] == t[k];
      }
      forall k | 0 <= k < |rest| - 1
        ensures !Converged(rest[k].ea, tol)
      {
        assert rest[k] == t[k + 1];
      }
    }
    if ValidStep(f, x0, x1, first, rec) && (0 < |rest| ==> !Converged(rec.ea, tol))
       && Steps(f, rec.x1, rec.xNew, false, tol, rest) {
      forall k | 0 < k < |t|
        ensures ValidStep(f, t[k - 1].x1, t[k - 1].xNew, false, t[k])
      {
        assert t[k] == rest[k - 1];
        if k > 1 {
          assert t[k - 1] == rest[k - 2];
        }
      }
      forall k | 0 <= k < |t| - 1
        ensures !Converged(t[k].ea, tol)
      {
        if k > 0 {
          assert t[k] == rest[k - 1];
        }
      }
    }
  }

  lemma {:induction false} IterateIsRun(f: real -> real, x0: real, x1: real, first: bool,
                                        tol: real, fuel: nat)
    requires Iterate(f, x0, x1, first, tol, fuel).Success?
    ensures Run(f, x0, x1, first, tol, fuel, Iterate(f, x0, x1, first, tol, fuel).value)
    decreases fuel
  {
    if fuel > 0 {
      var xNew := SecantStep(x0, x1, f(x0), f(x1));
      var rec := SecantRecord(x0, x1, xNew, f(xNew), StepError(first, xNew, x1));
      if Converged(rec.ea, tol) {
        StepsCons(f, x0, x1, first, tol, rec, []);
        assert [rec] + [] == [rec];
      } else {
        var rest := Iterate(f, x1, xNew, false, tol, fuel - 1).value;
        IterateIsRun(f, x1, xNew, false, tol, fuel - 1);
        StepsCons(f, x0, x1, first, tol, rec, rest);
      }
    }
  }

  lemma {:induction false} RunIsIterate(f: real -> real, x0: real, x1: real, first: bool,
                                        tol: real, fuel: nat, t: seq<SecantRecord>)
    requires Run(f, x0, x1, first, tol, fuel, t)
    ensures Iterate(f, x0, x1, first, tol, fuel) == Success(t)
    decreases fuel
  {
    if fuel > 0 {
      var rest := t[1..];
      assert t == [t[0]] + rest;
      StepsCons(f, x0, x1, first, tol, t[0], rest);
      var xNew := SecantStep(x0, x1, f(x0), f(x1));
      assert t[0] == SecantRecord(x0, x1, xNew, f(xNew), StepError(first, xNew, x1));
      if !Converged(t[0].ea, tol) {
        RunIsIterate(f, x1, xNew, false, tol, fuel - 1, rest);
      } else {
        assert t == [t[0]];
      }
    }
  }

  lemma {:induction false} IterateFailureIsBlocked(f: real -> real, x0: real, x1: real, first: bool,
                                                   tol: real, fuel: nat)
    requires Iterate(f, x0, x1, first, tol, fuel).Failure?
    ensures exists t :: Blocked(f, x0, x1, first, tol, fuel, t)
    decreases fuel
  {
    if f(x1) - f(x0) == 0.0 {
      assert Blocked(f, x0, x1, first, tol, fuel, []);
    } else {
      var xNew := SecantStep(x0, x1, f(x0), f(x1));
      var rec := SecantRecord(x0, x1, xNew, f(xNew), StepError(first, xNew, x1));
      IterateFailureIsBlocked(f, x1, xNew, false, tol, fuel - 1);
      var rest :| Blocked(f, x1, xNew, false, tol, fuel - 1, rest);
      StepsCons(f, x0, x1, first, tol, rec, rest);
      assert Blocked(f, x0, x1, first, tol, fuel, [rec] + rest);
    }
  }

  lemma {:induction false} BlockedFails(f: real -> real, x0: real, x1: real, first: bool,
                                        tol: real, fuel: nat, t: seq<SecantRecord>)
    requires Blocked(f, x0, x1, first, tol, fuel, t)
    ensures Iterate(f, x0, x1, first, tol, fuel) == Failure(ZeroDenominator)
    decreases fuel
  {
    if 0 < |t| {
      var rest := t[1..];
      assert t == [t[0]] + rest;
      StepsCons(f, x0, x1, first, tol, t[0], rest);
      if 0 < |rest| {
        assert rest[|rest| - 1] == t[|t| - 1];
      }
      BlockedFails(f, t[0].x1, t[0].xNew, false, tol, fuel - 1, rest);
    }
  }

  /** The solver succeeds with trace `t` exactly when the configuration is
      valid and `t` is a complete run of at most `maxIter` records from seeds
      (x0, x1). */
  lemma SolveCharacterized(f: real -> real, x0: real, x1: real, tol: real, maxIter: int,
                           t: seq<SecantRecord>)
    ensures Solve(f, x0, x1, tol, maxIter) == Success(t)
        <==> ValidConfig(tol, maxIter) && Run(f, x0, x1, true, tol, maxIter, t)
  {
    if ValidConfig(tol, maxIter) {
      if Iterate(f, x0, x1, true, tol, maxIter).Success? {
        IterateIsRun(f, x0, x1, true, tol, maxIter);
      }
      if Run(f, x0, x1, true, tol, maxIter, t) {
        RunIsIterate(f, x0, x1, true, tol, maxIter, t);
      }
    }
  }

  /** The solver fails with ZeroDenominator exactly when the configuration is
      valid and some chain of non-converged iterations within the cap reaches
      seeds with coinciding function values; no partial trace survives. */
  lemma ZeroDenominatorCharacterized(f: real -> real, x0: real, x1: real, tol: real, maxIter: int)
    ensures Solve(f, x0, x1, tol, maxIter) == Failure(ZeroDenominator)
        <==> ValidConfig(tol, maxIter) && exists t :: Blocked(f, x0, x1, true, tol, maxIter, t)
  {
    if ValidConfig(tol, maxIter) {
      if Iterate(f, x0, x1, true, tol, maxIter).Failure? {
        IterateFailureIsBlocked(f, x0, x1, true, tol, maxIter);
      }
      if exists t :: Blocked(f, x0, x1, true, tol, maxIter, t) {
        var t :| Blocked(f, x0, x1, true, tol, maxIter, t);
        BlockedFails(f, x0, x1, true, tol, maxIter, t);
      }
    }
  }

  /** Each record holds the pre-shift seeds, the chord zero they produce and
      `f` there; consecutive records shift the seeds by one. */
  lemma RecordsAreSecantSteps(f: real -> real, x0: real, x1: real, tol: real, maxIter: int,
                              t: seq<SecantRecord>)
    requires Solve(f, x0, x1, tol, maxIter) == Success(t)
    ensures t[0].x0 == x0 && t[0].x1 == x1
    ensures forall k :: 0 <= k < |t| ==>
              f(t[k].x1) - f(t[k].x0) != 0.0
              && t[k].xNew == t[k].x1 - f(t[k].x1) * (t[k].x1 - t[k].x0) / (f(t[k].x1) - f(t[k].x0))
              && t[k].fxNew == f(t[k].xNew)
    ensures forall k :: 0 <= k < |t| - 1 ==> t[k + 1].x0 == t[k].x1 && t[k + 1].x1 == t[k].xNew
  {
    SolveCharacterized(f, x0, x1, tol, maxIter, t);
    forall k | 0 <= k < |t|
      ensures ValidStep(f, t[k].x0, t[k].x1, k == 0, t[k])
    {
      if k > 0 {
        assert ValidStep(f, t[k - 1].x1, t[k - 1].xNew, false, t[k]);
      }
    }
    forall k | 0 <= k < |t| - 1
      ensures t[k + 1].x0 == t[k].x1 && t[k + 1].x1 == t[k].xNew
    {
      assert ValidStep(f, t[k].x1, t[k].xNew, false, t[k + 1]);
    }
  }

  /** The error is absent exactly on the first record; every later one is
      finite and non-negative, never Infinity, and compares the new estimate
      with the newer seed `x1` using the zero fallback. */
  lemma ErrorShape(f: real -> real, x0: real, x1: real, tol: real, maxIter: int, t: seq<SecantRecord>)
    requires Solve(f, x0, x1, tol, maxIter) == Success(t)
    ensures t[0].ea == NoError
    ensures forall k :: 0 < k < |t| ==> t[k].ea.Finite? && 0.0 <= t[k].ea.value
    ensures forall k :: 0 < k < |t| && t[k].xNew == 0.0 ==> t[k].ea.value == Abs(t[k].x1)
    ensures forall k :: 0 < k < |t| && t[k].xNew != 0.0 ==>
              t[k].ea.value * Abs(t[k].xNew) == 100.0 * Abs(t[k].xNew - t[k].x1)
  {
    LaterErrors(f, x0, x1, tol, maxIter, t);
    forall k | 0 < k < |t|
      ensures t[k].ea.Finite? && 0.0 <= t[k].ea.value
      ensures t[k].xNew == 0.0 ==> t[k].ea.value == Abs(t[k].x1)
      ensures t[k].xNew != 0.0 ==> t[k].ea.value * Abs(t[k].xNew) == 100.0 * Abs(t[k].xNew - t[k].x1)
    {
      assert t[k].ea == FallbackError(t[k].xNew, t[k].x1);
    }
  }

  /** The first error is absent; every later one is the zero-fallback error
      of the new estimate against the newer seed. */
  lemma LaterErrors(f: real -> real, x0: real, x1: real, tol: real, maxIter: int, t: seq<SecantRecord>)
    requires Solve(f, x0, x1, tol, maxIter) == Success(t)
    ensures t[0].ea == NoError
    ensures forall k :: 0 < k < |t| ==> t[k].ea == FallbackError(t[k].xNew, t[k].x1)
  {
    SolveCharacterized(f, x0, x1, tol, maxIter, t);
    forall k | 0 < k < |t|
      ensures t[k].ea == FallbackError(t[k].xNew, t[k].x1)
    {
      assert ValidStep(f, t[k - 1].x1, t[k - 1].xNew, false, t[k]);
    }
  }

  /** The solve stops at the first record whose error is below the
      tolerance; when no record has one, the trace runs to the cap. */
  lemma StopRule(f: real -> real, x0: real, x1: real, tol: real, maxIter: int, t: seq<SecantRecord>)
    requires Solve(f, x0, x1, tol, maxIter) == Success(t)
    ensures forall k :: 0 <= k < |t| - 1 ==> !Converged(t[k].ea, tol)
    ensures (forall k :: 0 <= k < |t| ==> !Converged(t[k].ea, tol)) ==> |t| == maxIter
  {
    SolveCharacterized(f, x0, x1, tol, maxIter, t);
  }
}
