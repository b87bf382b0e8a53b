/**
  The two chord methods side by side. False position and secant are
  independent solvers, and neither imports the other; this module relates
  their step formulas.
 */
module Chords {
  import FalsePosition
  import Secant

  /** False position and secant write the chord zero differently but, in
      exact arithmetic, compute the same point from the same pair. */
  lemma RegulaFalsiIsSecant(a: real, b: real, fa: real, fb: real)
    requires fa != fb
    ensures FalsePosition.RegulaFalsi(a, b, fa, fb) == Secant.SecantStep(a, b, fa, fb)
  {
    assert (fb * (a - b)) / (fa - fb) == fb * (b - a) / (fb - fa);
  }
}
