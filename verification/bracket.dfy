/**
  The iteration record and the bracket update shared by the two bracketing
  methods, bisection and false position.
 */
module Bracket {
  import opened Common

  /** One iteration of a bracketing method. `a` and `b` are the bracket as it
      stood when `xr` was computed, before this iteration's update; `fx` is
      the function value at `xr`. */
  datatype BracketRecord = BracketRecord(a: real, b: real, xr: real, fx: real, ea: ApproxError)

  /** `f` takes values of strictly opposite sign at the two endpoints. */
  predicate SignChange(f: real -> real, a: real, b: real)
  {
    f(a) * f(b) < 0.0
  }

  /** The bracket for the next iteration: the root lies between `a` and `xr`
      when `f(a)` and `f(xr)` differ in sign, so `b` moves to `xr`; otherwise
      `a` moves to `xr`. */
  function NextBracket(f: real -> real, rec: BracketRecord): (nb: (real, real))
    ensures (nb.0 == rec.a && nb.1 == rec.xr) || (nb.0 == rec.xr && nb.1 == rec.b)
    ensures f(rec.a) * rec.fx < 0.0 ==> nb == (rec.a, rec.xr)
    ensures f(rec.a) * rec.fx >= 0.0 ==> nb == (rec.xr, rec.b)
  {
    if f(rec.a) * rec.fx < 0.0 then (rec.a, rec.xr) else (rec.xr, rec.b)
  }

  /** Two nonzero reals whose product with a third nonzero real is negative
      and non-negative respectively have products of opposite sign with it. */
  lemma SignTransfer(fa: real, fb: real, fx: real)
    requires fa * fb < 0.0
    requires fx != 0.0
    requires fa * fx >= 0.0
    ensures fx * fb < 0.0
  {
    if fa > 0.0 {
      assert fb < 0.0;
      assert fx > 0.0;
    } else {
      assert fa < 0.0;
      assert fb > 0.0;
      assert fx < 0.0;
    }
  }

  /** The update keeps a sign change as long as `f(xr)` is not an exact zero. */
  lemma NextBracketKeepsSignChange(f: real -> real, rec: BracketRecord)
    requires SignChange(f, rec.a, rec.b)
    requires rec.fx == f(rec.xr)
    requires rec.fx != 0.0
    ensures SignChange(f, NextBracket(f, rec).0, NextBracket(f, rec).1)
  {
    if f(rec.a) * rec.fx >= 0.0 {
      SignTransfer(f(rec.a), f(rec.b), rec.fx);
    }
  }
}
