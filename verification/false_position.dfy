/**
  The false-position (regula falsi) method: replace one end of a
  sign-change bracket by the zero of the chord through the two endpoints,
  until the approximate error drops below the tolerance or the iteration cap
  runs out.
 */
module FalsePosition {
  import opened Common
  import opened Bracket

  /** The zero of the chord through (a, fa) and (b, fb), in the form the
      solver computes it. */
  function RegulaFalsi(a: real, b: real, fa: real, fb: real): (xr: real)
    requires fa != fb
    ensures fa * (xr - b) == fb * (xr - a)
  {
    var q := (fb * (a - b)) / (fa - fb);
    assert q * (fa - fb) == fb * (a - b);
    b - q
  }

  /** The remaining `fuel` iterations from bracket [a, b], where `prior` is
      the estimate of the previous iteration, if any. Each iteration first
      refuses a bracket whose endpoint values coincide. */
  function Iterate(f: real -> real, a: real, b: real, prior: Option<real>, tol: real, fuel: nat)
    : (r: Result<seq<BracketRecord>, SolverError>)
    ensures r.Failure? ==> r.error == ZeroDenominator
    ensures 0 < fuel && f(a) == f(b) ==> r == Failure(ZeroDenominator)
    ensures r.Success? ==> |r.value| <= fuel && (fuel > 0 ==> 0 < |r.value|)
    ensures r.Success? && 0 < |r.value| ==> r.value[0].a == a && r.value[0].b == b
    decreases fuel
  {
    if fuel == 0 then Success([])
    else if f(a) == f(b) then Failure(ZeroDenominator)
    else
      var xr := RegulaFalsi(a, b, f(a), f(b));
      var rec := BracketRecord(a, b, xr, f(xr), ErrorAgainst(prior, xr));
      if Converged(rec.ea, tol) then Success([rec])
      else
        var nb := NextBracket(f, rec);
        match Iterate(f, nb.0, nb.1, Some(xr), tol, fuel - 1)
        case Success(rest) => Success([rec] + rest)
        case Failure(e) => Failure(e)
  }

  /** The solver: validate the configuration, check the sign change at the
      endpoints, then iterate at most `maxIter` times. */
  function Solve(f: real -> real, a: real, b: real, tol: real, maxIter: int)
    : (r: Result<seq<BracketRecord>, SolverError>)
    ensures r == Failure(InvalidConfig) <==> !ValidConfig(tol, maxIter)
    ensures r == Failure(NoSignChange) <==> ValidConfig(tol, maxIter) && f(a) * f(b) >= 0.0
    ensures r.Success? ==> 1 <= |r.value| <= maxIter
    ensures r.Success? ==> r.value[0].a == a && r.value[0].b == b
  {
    if !ValidConfig(tol, maxIter) then Failure(InvalidConfig)
    else if f(a) * f(b) >= 0.0 then Failure(NoSignChange)
    else Iterate(f, a, b, None, tol, maxIter)
  }

  /** A constant function never shows a sign change, so it is rejected at
      entry and never reaches the per-iteration equal-value guard. */
  lemma ConstantFunctionRejected(c: real, a: real, b: real, tol: real, maxIter: int)
    requires ValidConfig(tol, maxIter)
    ensures Solve(x => c, a, b, tol, maxIter) == Failure(NoSignChange)
  {
    assert c * c >= 0.0;
  }

  /** Index-wise description of a successful false-position trace of at most
      `fuel` records that starts from bracket [a, b] with previous estimate
      `prior`. */
  ghost predicate Run(f: real -> real, a: real, b: real, prior: Option<real>, tol: real, fuel: nat,
                      t: seq<BracketRecord>)
  {
    && |t| <= fuel
    && (fuel > 0 ==> 0 < |t|)
    && (0 < |t| ==> t[0].a == a && t[0].b == b && t[0].ea == ErrorAgainst(prior, t[0].xr))
    && (forall k :: 0 <= k < |t| ==>
          && f(t[k].a) != f(t[k].b)
          && t[k].xr == RegulaFalsi(t[k].a, t[k].b, f(t[k].a), f(t[k].b))
          && t[k].fx == f(t[k].xr))
    && (forall k :: 0 < k < |t| ==> t[k].ea == RelativeError(t[k].xr, t[k - 1].xr))
    && (forall k :: 0 <= k < |t| - 1 ==> !Converged(t[k].ea, tol))
    && (forall k :: 0 <= k < |t| - 1 ==> (t[k + 1].a, t[k + 1].b) == NextBracket(f, t[k]))
    && (0 < |t| < fuel ==> Converged(t[|t| - 1].ea, tol))
  }

  /** A run is a first record that has not converged, followed by a run from
      the bracket that record selects. */
  lemma RunCons(f: real -> real, a: real, b: real, prior: Option<real>, tol: real, fuel: nat,
                rec: BracketRecord, rest: seq<BracketRecord>)
    requires 0 < fuel && f(a) != f(b)
    requires rec.a == a && rec.b == b && rec.xr == RegulaFalsi(a, b, f(a), f(b))
    requires rec.fx == f(rec.xr) && rec.ea == ErrorAgainst(prior, rec.xr)
    requires !Converged(rec.ea, tol)
    requires Run(f, NextBracket(f, rec).0, NextBracket(f, rec).1, Some(rec.xr), tol, fuel - 1, rest)
    ensures Run(f, a, b, prior, tol, fuel, [rec] + rest)
  {
    var t := [rec] + rest;
    forall k | 0 < k < |t|
      ensures t[k].ea == RelativeError(t[k].xr, t[k - 1].xr)
    {
      assert t[k] == rest[k - 1];
      if k > 1 {
        assert t[k - 1] == rest[k - 2];
      }
    }
    forall k | 0 <= k < |t| - 1
      ensures (t[k + 1].a, t[k + 1].b) == NextBracket(f, t[k])
    {
      assert t[k + 1] == rest[k];
      if k > 0 {
        assert t[k] == rest[k - 1];
      }
    }
  }

  /** The records after the first of a run of two or more form a run from
      the bracket the first record selects. */
  lemma RunTail(f: real -> real, a: real, b: real, prior: Option<real>, tol: real, fuel: nat,
                t: seq<BracketRecord>)
    requires Run(f, a, b, prior, tol, fuel, t)
    requires 1 < |t|
    ensures Run(f, NextBracket(f, t[0]).0, NextBracket(f, t[0]).1, Some(t[0].xr), tol, fuel - 1, t[1..])
  {
    var rest := t[1..];
    assert rest[0] == t[1];
    forall k | 0 < k < |rest|
      ensures rest[k].ea == RelativeError(rest[k].xr, rest[k - 1].xr)
    {
      assert rest[k] == t[k + 1];
    }
    forall k | 0 <= k < |rest| - 1
      ensures (rest[k + 1].a, rest[k + 1].b) == NextBracket(f, rest[k])
    {
      assert rest[k + 1] == t[k + 2];
    }
  }

  lemma {:induction false} IterateIsRun(f: real -> real, a: real, b: real, prior: Option<real>,
                                        tol: real, fuel: nat)
    requires Iterate(f, a, b, prior, tol, fuel).Success?
    ensures Run(f, a, b, prior, tol, fuel, Iterate(f, a, b, prior, tol, fuel).value)
    decreases fuel
  {
    if fuel > 0 {
      var xr := RegulaFalsi(a, b, f(a), f(b));
      var rec := BracketRecord(a, b, xr, f(xr), ErrorAgainst(prior, xr));
      if !Converged(rec.ea, tol) {
        var nb := NextBracket(f, rec);
        IterateIsRun(f, nb.0, nb.1, Some(xr), tol, fuel - 1);
        RunCons(f, a, b, prior, tol, fuel, rec, Iterate(f, nb.0, nb.1, Some(xr), tol, fuel - 1).value);
      }
    }
  }

  lemma {:induction false} RunIsIterate(f: real -> real, a: real, b: real, prior: Option<real>,
                                        tol: real, fuel: nat, t: seq<BracketRecord>)
    requires Run(f, a, b, prior, tol, fuel, t)
    ensures Iterate(f, a, b, prior, tol, fuel) == Success(t)
    decreases fuel
  {
    if fuel > 0 {
      assert f(t[0].a) != f(t[0].b);
      var xr := RegulaFalsi(a, b, f(a), f(b));
      var rec := BracketRecord(a, b, xr, f(xr), ErrorAgainst(prior, xr));
      assert t[0] == rec;
      if |t| == 1 {
        assert t == [rec];
        if !Converged(rec.ea, tol) {
          var nb := NextBracket(f, rec);
          assert Iterate(f, nb.0, nb.1, Some(xr), tol, fuel - 1) == Success([]);
          assert [rec] + [] == t;
        }
      } else {
        RunTail(f, a, b, prior, tol, fuel, t);
        var nb := NextBracket(f, rec);
        RunIsIterate(f, nb.0, nb.1, Some(xr), tol, fuel - 1, t[1..]);
        assert t == [rec] + t[1..];
      }
    }
  }

  /** The loop invariant that exact arithmetic maintains: either a strict
      sign change, or a left endpoint that is an exact root while the right
      one is not. */
  ghost predicate Straddles(f: real -> real, a: real, b: real)
  {
    SignChange(f, a, b) || (f(a) == 0.0 && f(b) != 0.0)
  }

  /** From a root at the left endpoint the chord zero is that endpoint. */
  lemma ChordFromRoot(a: real, b: real, fb: real)
    requires fb != 0.0
    ensures RegulaFalsi(a, b, 0.0, fb) == a
  {
    assert (fb * (a - b)) / (0.0 - fb) == b - a;
  }

  lemma NextBracketStraddles(f: real -> real, rec: BracketRecord)
    requires Straddles(f, rec.a, rec.b)
    requires f(rec.a) != f(rec.b)
    requires rec.xr == RegulaFalsi(rec.a, rec.b, f(rec.a), f(rec.b))
    requires rec.fx == f(rec.xr)
    ensures Straddles(f, NextBracket(f, rec).0, NextBracket(f, rec).1)
  {
    if SignChange(f, rec.a, rec.b) {
      if rec.fx != 0.0 {
        NextBracketKeepsSignChange(f, rec);
      } else {
        assert f(rec.b) != 0.0;
      }
    } else {
      ChordFromRoot(rec.a, rec.b, f(rec.b));
    }
  }

  lemma {:induction false} StraddleNeverBlocks(f: real -> real, a: real, b: real, prior: Option<real>,
                                               tol: real, fuel: nat)
    requires Straddles(f, a, b)
    ensures Iterate(f, a, b, prior, tol, fuel).Success?
    decreases fuel
  {
    if fuel > 0 {
      assert f(a) != f(b);
      var xr := RegulaFalsi(a, b, f(a), f(b));
      var rec := BracketRecord(a, b, xr, f(xr), ErrorAgainst(prior, xr));
      if !Converged(rec.ea, tol) {
        NextBracketStraddles(f, rec);
        var nb := NextBracket(f, rec);
        StraddleNeverBlocks(f, nb.0, nb.1, Some(xr), tol, fuel - 1);
      }
    }
  }

  /** In exact arithmetic the per-iteration equal-value guard can never fire
      once the entry sign check has passed: the solver either rejects its
      inputs or returns a trace. */
  lemma NeverZeroDenominator(f: real -> real, a: real, b: real, tol: real, maxIter: int)
    ensures Solve(f, a, b, tol, maxIter) != Failure(ZeroDenominator)
    ensures ValidConfig(tol, maxIter) && SignChange(f, a, b) ==> Solve(f, a, b, tol, maxIter).Success?
  {
    if ValidConfig(tol, maxIter) && SignChange(f, a, b) {
      StraddleNeverBlocks(f, a, b, None, tol, maxIter);
    }
  }

  /** The solver succeeds with trace `t` exactly when the configuration is
      valid, the endpoints show a sign change, and `t` is a run of at most
      `maxIter` records from [a, b] with no previous estimate. */
  lemma SolveCharacterized(f: real -> real, a: real, b: real, tol: real, maxIter: int,
                           t: seq<BracketRecord>)
    ensures Solve(f, a, b, tol, maxIter) == Success(t)
        <==> ValidConfig(tol, maxIter) && SignChange(f, a, b) && Run(f, a, b, None, tol, maxIter, t)
  {
    if ValidConfig(tol, maxIter) && SignChange(f, a, b) {
      NeverZeroDenominator(f, a, b, tol, maxIter);
      IterateIsRun(f, a, b, None, tol, maxIter);
      if Run(f, a, b, None, tol, maxIter, t) {
        RunIsIterate(f, a, b, None, tol, maxIter, t);
      }
    }
  }

  /** While the bracket shows a strict sign change, the chord zero lies
      strictly inside it. */
  lemma RegulaFalsiInside(f: real -> real, a: real, b: real)
    requires SignChange(f, a, b)
    ensures a != b && f(a) != f(b)
    ensures a < b ==> a < RegulaFalsi(a, b, f(a), f(b)) < b
    ensures b < a ==> b < RegulaFalsi(a, b, f(a), f(b)) < a
  {
    var fa, fb := f(a), f(b);
    var lambda := fb / (fb - fa);
    assert 0.0 < lambda < 1.0 by {
      if fa < 0.0 {
        assert 0.0 < fb < fb - fa;
      } else {
        assert fb - fa < fb < 0.0;
      }
    }
    var xr := RegulaFalsi(a, b, fa, fb);
    assert xr - b == lambda * (a - b) by {
      assert (fb * (a - b)) / (fa - fb) == - lambda * (a - b);
    }
    if a < b {
      assert lambda * (a - b) < 0.0;
      assert a - b < lambda * (a - b);
    } else {
      assert lambda * (a - b) > 0.0;
      assert a - b > lambda * (a - b);
    }
  }

  /** Every record's bracket satisfies the loop invariant, and its estimate
      lies strictly inside it whenever the bracket shows a strict sign
      change. */
  lemma {:induction false} BracketsStraddle(f: real -> real, a: real, b: real, tol: real, maxIter: int,
                                            t: seq<BracketRecord>)
    requires Solve(f, a, b, tol, maxIter) == Success(t)
    ensures SignChange(f, t[0].a, t[0].b)
    ensures forall k :: 0 <= k < |t| ==> Straddles(f, t[k].a, t[k].b)
    ensures forall k :: 0 <= k < |t| && SignChange(f, t[k].a, t[k].b) ==>
              (t[k].a < t[k].b ==> t[k].a < t[k].xr < t[k].b) && (t[k].b < t[k].a ==> t[k].b < t[k].xr < t[k].a)
  {
    SolveCharacterized(f, a, b, tol, maxIter, t);
    forall k | 0 <= k < |t|
      ensures Straddles(f, t[k].a, t[k].b)
    {
      StraddlesAt(f, tol, maxIter, t, k);
    }
    forall k | 0 <= k < |t| && SignChange(f, t[k].a, t[k].b)
      ensures (t[k].a < t[k].b ==> t[k].a < t[k].xr < t[k].b) && (t[k].b < t[k].a ==> t[k].b < t[k].xr < t[k].a)
    {
      RegulaFalsiInside(f, t[k].a, t[k].b);
    }
  }

  lemma {:induction false} StraddlesAt(f: real -> real, tol: real, maxIter: nat,
                                       t: seq<BracketRecord>, k: nat)
    requires 0 < |t| && SignChange(f, t[0].a, t[0].b)
    requires Run(f, t[0].a, t[0].b, None, tol, maxIter, t)
    requires k < |t|
    ensures Straddles(f, t[k].a, t[k].b)
    decreases k
  {
    if k > 0 {
      StraddlesAt(f, tol, maxIter, t, k - 1);
      NextBracketStraddles(f, t[k - 1]);
    }
  }

  /** The tolerance is the only stop rule: every record but the last has an
      error that is absent, infinite or not below the tolerance, and a trace
      shorter than the cap ends on a converged record. Since the first
      record has no error, a cap of two or more yields at least two records. */
  lemma OnlyToleranceStops(f: real -> real, a: real, b: real, tol: real, maxIter: int,
                           t: seq<BracketRecord>)
    requires Solve(f, a, b, tol, maxIter) == Success(t)
    ensures forall k :: 0 <= k < |t| - 1 ==> !Converged(t[k].ea, tol)
    ensures |t| < maxIter ==> Converged(t[|t| - 1].ea, tol)
    ensures 2 <= maxIter ==> 2 <= |t|
  {
    SolveCharacterized(f, a, b, tol, maxIter, t);
  }

  /** The first record has no error; every later one has the relative error
      against the previous estimate, finite and non-negative, or Infinity
      exactly when the new estimate is zero. */
  lemma ErrorShape(f: real -> real, a: real, b: real, tol: real, maxIter: int, t: seq<BracketRecord>)
    requires Solve(f, a, b, tol, maxIter) == Success(t)
    ensures t[0].ea == NoError
    ensures forall k :: 0 < k < |t| ==> t[k].ea != NoError
    ensures forall k :: 0 < k < |t| ==> (t[k].ea == Infinity <==> t[k].xr == 0.0)
    ensures forall k :: 0 < k < |t| && t[k].ea.Finite? ==> 0.0 <= t[k].ea.value
  {
    SolveCharacterized(f, a, b, tol, maxIter, t);
    forall k | 0 < k < |t|
      ensures t[k].ea != NoError
      ensures t[k].ea == Infinity <==> t[k].xr == 0.0
      ensures t[k].ea.Finite? ==> 0.0 <= t[k].ea.value
    {
      assert t[k].ea == RelativeError(t[k].xr, t[k - 1].xr);
    }
  }

  /** Each record holds the chord zero of its own (pre-update) bracket and
      the function value there. */
  lemma RecordsAreChordZeros(f: real -> real, a: real, b: real, tol: real, maxIter: int,
                             t: seq<BracketRecord>)
    requires Solve(f, a, b, tol, maxIter) == Success(t)
    ensures forall k :: 0 <= k < |t| ==>
              f(t[k].a) != f(t[k].b) && t[k].xr == t[k].b - (f(t[k].b) * (t[k].a - t[k].b)) / (f(t[k].a) - f(t[k].b))
    ensures forall k :: 0 <= k < |t| ==> t[k].fx == f(t[k].xr)
  {
    SolveCharacterized(f, a, b, tol, maxIter, t);
  }

  /** A record that hits an exact nonzero root does not stop the loop by
      itself, but the next record repeats that estimate with error zero and
      is the last one. */
  lemma ExactRootAbsorbed(f: real -> real, a: real, b: real, tol: real, maxIter: int,
                          t: seq<BracketRecord>, k: nat)
    requires Solve(f, a, b, tol, maxIter) == Success(t)
    requires k < |t| - 1
    requires t[k].fx == 0.0 && t[k].xr != 0.0
    ensures t[k + 1].xr == t[k].xr
    ensures t[k + 1].ea == Finite(0.0)
    ensures k + 1 == |t| - 1
  {
    SolveCharacterized(f, a, b, tol, maxIter, t);
    BracketsStraddle(f, a, b, tol, maxIter, t);
    assert f(t[k].b) != 0.0;
    assert (t[k + 1].a, t[k + 1].b) == (t[k].xr, t[k].b);
    ChordFromRoot(t[k].xr, t[k].b, f(t[k].b));
    assert t[k + 1].ea == RelativeError(t[k + 1].xr, t[k].xr);
  }

  /** Once the bracket is [0, b] with f(0) == 0 and the previous estimate is
      0, every remaining iteration repeats the estimate 0 with an infinite
      error, until the cap runs out. */
  lemma {:induction false} StuckAtZero(f: real -> real, b: real, tol: real, fuel: nat)
    requires f(0.0) == 0.0 && f(b) != 0.0
    ensures Iterate(f, 0.0, b, Some(0.0), tol, fuel).Success?
    ensures |Iterate(f, 0.0, b, Some(0.0), tol, fuel).value| == fuel
    ensures forall k :: 0 <= k < fuel ==>
              Iterate(f, 0.0, b, Some(0.0), tol, fuel).value[k].xr == 0.0
              && Iterate(f, 0.0, b, Some(0.0), tol, fuel).value[k].ea == Infinity
    decreases fuel
  {
    if fuel > 0 {
      ChordFromRoot(0.0, b, f(b));
      StuckAtZero(f, b, tol, fuel - 1);
      var rec := BracketRecord(0.0, b, 0.0, 0.0, Infinity);
      var rest := Iterate(f, 0.0, b, Some(0.0), tol, fuel - 1).value;
      assert Iterate(f, 0.0, b, Some(0.0), tol, fuel).value == [rec] + rest;
    }
  }

  /** A root exactly at zero is never reported as converged: for f(x) = x on
      [-1, 2] the first estimate is the exact root 0, yet every later error
      is Infinity and the trace runs to the cap. */
  lemma RootAtZeroNeverConverges(tol: real, maxIter: int)
    requires ValidConfig(tol, maxIter)
    ensures Solve(x => x, -1.0, 2.0, tol, maxIter).Success?
    ensures var t := Solve(x => x, -1.0, 2.0, tol, maxIter).value;
              |t| == maxIter && t[0].xr == 0.0 && t[0].fx == 0.0
              && forall k :: 0 < k < |t| ==> t[k].xr == 0.0 && t[k].ea == Infinity
  {
    var f: real -> real := x => x;
    var xr := RegulaFalsi(-1.0, 2.0, -1.0, 2.0);
    assert xr == 0.0;
    var rec := BracketRecord(-1.0, 2.0, 0.0, 0.0, NoError);
    StuckAtZero(f, 2.0, tol, maxIter - 1);
    var rest := Iterate(f, 0.0, 2.0, Some(0.0), tol, maxIter - 1).value;
    assert Solve(f, -1.0, 2.0, tol, maxIter) == Success([rec] + rest);
    var t := [rec] + rest;
    forall k | 0 < k < |t|
      ensures t[k].xr == 0.0 && t[k].ea == Infinity
    {
      assert t[k] == rest[k - 1];
    }
  }
}
