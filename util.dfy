/** `src/core/util.rs`: approximate equality of two `f64` values. */
module CoreUtil {
  import opened Numeric

  /** `f64::EPSILON`, the gap between 1.0 and the next `f64`: exactly 2^-52. */
  const EPSILON: real := 0.0000000000000002220446049250313080847263336181640625

  lemma EpsilonBounds()
    ensures 0.0 < EPSILON < 0.5
  {
  }

  /** `float_cmp`: the two values differ by strictly less than `EPSILON`. */
  predicate FloatCmp(left: real, right: real) {
    Abs(left - right) < EPSILON
  }

  /** Every value is approximately equal to itself, because `EPSILON` is positive. */
  lemma FloatCmpReflexive(a: real)
    ensures FloatCmp(a, a)
  {
  }

  lemma FloatCmpSymmetric(a: real, b: real)
    ensures FloatCmp(a, b) == FloatCmp(b, a)
  {
  }

  /** The comparison is strict: a gap of exactly `EPSILON` already counts as different. */
  lemma FloatCmpFalseWhenFar(a: real, b: real)
    requires EPSILON <= Abs(a - b)
    ensures !FloatCmp(a, b)
  {
  }

  /** Shifting both operands by the same amount does not change the outcome. */
  lemma FloatCmpShift(a: real, b: real, c: real)
    ensures FloatCmp(a + c, b + c) == FloatCmp(a, b)
  {
    assert (a + c) - (b + c) == a - b;
  }

  /** Two values that are each within `EPSILON` of 0 and 1 do not exist: used to keep points
      and vectors apart. */
  lemma FloatCmpSeparates(w: real, p: real, q: real)
    requires p - q >= 1.0 || q - p >= 1.0
    ensures !(FloatCmp(w, p) && FloatCmp(w, q))
  {
  }
}
