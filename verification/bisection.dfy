/**
  The bisection method: halve a sign-change bracket until the approximate
  error of the midpoint drops below the tolerance, the midpoint is an exact
  root, or the iteration cap runs out.
 */
module Bisection {
  import opened Common
  import opened Bracket

  function Midpoint(a: real, b: real): (m: real)
    ensures m - a == b - m
  {
    (a + b) / 2.0
  }

  /** The loop exits after a record whose error is below the tolerance or
      whose midpoint is an exact root. */
  predicate Stops(rec: BracketRecord, tol: real)
  {
    Converged(rec.ea, tol) || rec.fx == 0.0
  }

  /** The remaining `fuel` iterations from bracket [a, b], where `prior` is
      the midpoint of the previous iteration, if any. */
  function Iterate(f: real -> real, a: real, b: real, prior: Option<real>, tol: real, fuel: nat)
    : (t: seq<BracketRecord>)
    ensures |t| <= fuel
    ensures fuel > 0 ==> 0 < |t|
    ensures 0 < |t| ==> t[0].a == a && t[0].b == b
    decreases fuel
  {
    if fuel == 0 then []
    else
      var xr := Midpoint(a, b);
      var rec := BracketRecord(a, b, xr, f(xr), ErrorAgainst(prior, xr));
      if Stops(rec, tol) then [rec]
      else
        var nb := NextBracket(f, rec);
        [rec] + Iterate(f, nb.0, nb.1, Some(xr), tol, fuel - 1)
  }

  /** The solver: validate the configuration, check the sign change at the
      endpoints, then iterate at most `maxIter` times. */
  function Solve(f: real -> real, a: real, b: real, tol: real, maxIter: int)
    : (r: Result<seq<BracketRecord>, SolverError>)
    ensures r == Failure(InvalidConfig) <==> !ValidConfig(tol, maxIter)
    ensures r == Failure(NoSignChange) <==> ValidConfig(tol, maxIter) && f(a) * f(b) >= 0.0
    ensures r.Success? ==> 1 <= |r.value| <= maxIter
    ensures r.Success? ==> r.value[0].a == a && r.value[0].b == b
  {
    if !ValidConfig(tol, maxIter) then Failure(InvalidConfig)
    else if f(a) * f(b) >= 0.0 then Failure(NoSignChange)
    else Success(Iterate(f, a, b, None, tol, maxIter))
  }

  /** Index-wise description of a bisection trace of at most `fuel` records
      that starts from bracket [a, b] with previous midpoint `prior`. */
  ghost predicate Run(f: real -> real, a: real, b: real, prior: Option<real>, tol: real, fuel: nat,
                      t: seq<BracketRecord>)
  {
    && |t| <= fuel
    && (fuel > 0 ==> 0 < |t|)
    && (0 < |t| ==> t[0].a == a && t[0].b == b && t[0].ea == ErrorAgainst(prior, t[0].xr))
    && (forall k :: 0 <= k < |t| ==> t[k].xr == Midpoint(t[k].a, t[k].b) && t[k].fx == f(t[k].xr))
    && (forall k :: 0 < k < |t| ==> t[k].ea == RelativeError(t[k].xr, t[k - 1].xr))
    && (forall k :: 0 <= k < |t| - 1 ==> !Stops(t[k], tol))
    && (forall k :: 0 <= k < |t| - 1 ==> (t[k + 1].a, t[k + 1].b) == NextBracket(f, t[k]))
    && (0 < |t| < fuel ==> Stops(t[|t| - 1], tol))
  }

  /** A run is a first record that does not stop, followed by a run from the
      bracket that record selects. */
  lemma RunCons(f: real -> real, a: real, b: real, prior: Option<real>, tol: real, fuel: nat,
                rec: BracketRecord, rest: seq<BracketRecord>)
    requires 0 < fuel
    requires rec == BracketRecord(a, b, Midpoint(a, b), f(Midpoint(a, b)), ErrorAgainst(prior, Midpoint(a, b)))
    requires !Stops(rec, tol)
    requires Run(f, NextBracket(f, rec).0, NextBracket(f, rec).1, Some(rec.xr), tol, fuel - 1, rest)
    ensures Run(f, a, b, prior, tol, fuel, [rec] + rest)
  {
    var t := [rec] + rest;
    forall k | 0 < k < |t|
      ensures t[k].ea == RelativeError(t[k].xr, t[k - 1].xr)
    {
      assert t[k] == rest[k - 1];
      if k > 1 {
        assert t[k - 1] == rest[k - 2];
      }
    }
    forall k | 0 <= k < |t| - 1
      ensures (t[k + 1].a, t[k + 1].b) == NextBracket(f, t[k])
    {
      assert t[k + 1] == rest[k];
      if k > 0 {
        assert t[k] == rest[k - 1];
      }
    }
  }

  /** The records after the first of a run of two or more form a run from
      the bracket the first record selects. */
  lemma RunTail(f: real -> real, a: real, b: real, prior: Option<real>, tol: real, fuel: nat,
                t: seq<BracketRecord>)
    requires Run(f, a, b, prior, tol, fuel, t)
    requires 1 < |t|
    ensures Run(f, NextBracket(f, t[0]).0, NextBracket(f, t[0]).1, Some(t[0].xr), tol, fuel - 1, t[1..])
  {
    var rest := t[1..];
    assert rest[0] == t[1];
    forall k | 0 < k < |rest|
      ensures rest[k].ea == RelativeError(rest[k].xr, rest[k - 1].xr)
    {
      assert rest[k] == t[k + 1];
    }
    forall k | 0 <= k < |rest| - 1
      ensures (rest[k + 1].a, rest[k + 1].b) == NextBracket(f, rest[k])
    {
      assert rest[k + 1] == t[k + 2];
    }
  }

  lemma {:induction false} IterateIsRun(f: real -> real, a: real, b: real, prior: Option<real>,
                                        tol: real, fuel: nat)
    ensures Run(f, a, b, prior, tol, fuel, Iterate(f, a, b, prior, tol, fuel))
    decreases fuel
  {
    if fuel > 0 {
      var xr := Midpoint(a, b);
      var rec := BracketRecord(a, b, xr, f(xr), ErrorAgainst(prior, xr));
      if !Stops(rec, tol) {
        var nb := NextBracket(f, rec);
        IterateIsRun(f, nb.0, nb.1, Some(xr), tol, fuel - 1);
        RunCons(f, a, b, prior, tol, fuel, rec, Iterate(f, nb.0, nb.1, Some(xr), tol, fuel - 1));
      }
    }
  }

  lemma {:induction false} RunIsIterate(f: real -> real, a: real, b: real, prior: Option<real>,
                                        tol: real, fuel: nat, t: seq<BracketRecord>)
    requires Run(f, a, b, prior, tol, fuel, t)
    ensures t == Iterate(f, a, b, prior, tol, fuel)
    decreases fuel
  {
    if fuel > 0 {
      var xr := Midpoint(a, b);
      var rec := BracketRecord(a, b, xr, f(xr), ErrorAgainst(prior, xr));
      assert t[0] == rec;
      if |t| == 1 {
        assert t == [rec];
      } else {
        RunTail(f, a, b, prior, tol, fuel, t);
        var nb := NextBracket(f, rec);
        RunIsIterate(f, nb.0, nb.1, Some(xr), tol, fuel - 1, t[1..]);
        assert t == [rec] + t[1..];
      }
    }
  }

  /** The solver succeeds with trace `t` exactly when the configuration is
      valid, the endpoints show a sign change, and `t` is a run of at most
      `maxIter` records from [a, b] with no previous midpoint. */
  lemma SolveCharacterized(f: real -> real, a: real, b: real, tol: real, maxIter: int,
                            t: seq<BracketRecord>)
    ensures Solve(f, a, b, tol, maxIter) == Success(t)
        <==> ValidConfig(tol, maxIter) && SignChange(f, a, b) && Run(f, a, b, None, tol, maxIter, t)
  {
    if ValidConfig(tol, maxIter) && SignChange(f, a, b) {
      IterateIsRun(f, a, b, None, tol, maxIter);
      if Run(f, a, b, None, tol, maxIter, t) {
        RunIsIterate(f, a, b, None, tol, maxIter, t);
      }
    }
  }

  /** Each record holds the midpoint of its own bracket and the function
      value there. */
  lemma RecordsAreMidpoints(f: real -> real, a: real, b: real, tol: real, maxIter: int,
                            t: seq<BracketRecord>)
    requires Solve(f, a, b, tol, maxIter) == Success(t)
    ensures forall k :: 0 <= k < |t| ==> t[k].xr == (t[k].a + t[k].b) / 2.0 && t[k].fx == f(t[k].xr)
  {
    SolveCharacterized(f, a, b, tol, maxIter, t);
  }

  /** The first record has no error; every later one has the relative error
      against the previous midpoint, which is Infinity exactly when the new
      midpoint is zero. */
  lemma ErrorShape(f: real -> real, a: real, b: real, tol: real, maxIter: int, t: seq<BracketRecord>)
    requires Solve(f, a, b, tol, maxIter) == Success(t)
    ensures t[0].ea == NoError
    ensures forall k :: 0 < k < |t| ==> t[k].ea != NoError
    ensures forall k :: 0 < k < |t| ==> (t[k].ea == Infinity <==> t[k].xr == 0.0)
    ensures forall k :: 0 < k < |t| && t[k].ea.Finite? ==> 0.0 <= t[k].ea.value
    ensures forall k :: 0 < k < |t| && t[k].ea.Finite? ==>
              t[k].ea.value * Abs(t[k].xr) == 100.0 * Abs(t[k].xr - t[k - 1].xr)
  {
    SolveCharacterized(f, a, b, tol, maxIter, t);
    forall k | 0 < k < |t|
      ensures t[k].ea != NoError
      ensures t[k].ea == Infinity <==> t[k].xr == 0.0
      ensures t[k].ea.Finite? ==> 0.0 <= t[k].ea.value
      ensures t[k].ea.Finite? ==> t[k].ea.value * Abs(t[k].xr) == 100.0 * Abs(t[k].xr - t[k - 1].xr)
    {
      assert t[k].ea == RelativeError(t[k].xr, t[k - 1].xr);
    }
  }

  /** Every record's bracket shows a sign change. */
  lemma {:induction false} SignChangeEverywhere(f: real -> real, a: real, b: real, tol: real,
                                                maxIter: int, t: seq<BracketRecord>)
    requires Solve(f, a, b, tol, maxIter) == Success(t)
    ensures forall k :: 0 <= k < |t| ==> SignChange(f, t[k].a, t[k].b)
  {
    SolveCharacterized(f, a, b, tol, maxIter, t);
    forall k | 0 <= k < |t|
      ensures SignChange(f, t[k].a, t[k].b)
    {
      SignChangeAt(f, tol, maxIter, t, k);
    }
  }

  lemma {:induction false} SignChangeAt(f: real -> real, tol: real, maxIter: nat,
                                        t: seq<BracketRecord>, k: nat)
    requires 0 < |t| && SignChange(f, t[0].a, t[0].b)
    requires Run(f, t[0].a, t[0].b, None, tol, maxIter, t)
    requires k < |t|
    ensures SignChange(f, t[k].a, t[k].b)
    decreases k
  {
    if k > 0 {
      SignChangeAt(f, tol, maxIter, t, k - 1);
      NextBracketKeepsSignChange(f, t[k - 1]);
    }
  }

  /** Consecutive brackets keep one endpoint and move the other to the
      previous midpoint, so the width exactly halves. */
  lemma BracketHalves(f: real -> real, a: real, b: real, tol: real, maxIter: int,
                      t: seq<BracketRecord>)
    requires Solve(f, a, b, tol, maxIter) == Success(t)
    ensures forall k :: 0 <= k < |t| - 1 ==>
              (t[k + 1].a == t[k].a && t[k + 1].b == t[k].xr) || (t[k + 1].a == t[k].xr && t[k + 1].b == t[k].b)
    ensures forall k :: 0 <= k < |t| - 1 ==> t[k + 1].b - t[k + 1].a == (t[k].b - t[k].a) / 2.0
  {
    SolveCharacterized(f, a, b, tol, maxIter, t);
  }

  function Pow2(k: nat): (p: real)
    ensures 1.0 <= p
  {
    if k == 0 then 1.0 else 2.0 * Pow2(k - 1)
  }

  /** The bracket of record k is the initial bracket shrunk by 2^k. */
  lemma {:induction false} WidthAfter(f: real -> real, a: real, b: real, tol: real, maxIter: int,
                                      t: seq<BracketRecord>, k: nat)
    requires Solve(f, a, b, tol, maxIter) == Success(t)
    requires k < |t|
    ensures t[k].b - t[k].a == (b - a) / Pow2(k)
    decreases k
  {
    if k > 0 {
      WidthAfter(f, a, b, tol, maxIter, t, k - 1);
      BracketHalves(f, a, b, tol, maxIter, t);
      assert t[k].b - t[k].a == (t[k - 1].b - t[k - 1].a) / 2.0;
    }
  }

  /** The stop rule: every record but the last continues the loop, with no
      error yet or one not below the tolerance, and a midpoint that is not an
      exact root; a last record that would also continue means the cap ran
      out. */
  lemma StopRule(f: real -> real, a: real, b: real, tol: real, maxIter: int, t: seq<BracketRecord>)
    requires Solve(f, a, b, tol, maxIter) == Success(t)
    ensures forall k :: 0 <= k < |t| - 1 ==>
              (t[k].ea == NoError || (t[k].ea.Finite? ==> t[k].ea.value >= tol)) && t[k].fx != 0.0
    ensures !Stops(t[|t| - 1], tol) ==> |t| == maxIter
  {
    SolveCharacterized(f, a, b, tol, maxIter, t);
  }
}
