/** `clamp` (src/util.rs) and the small shared notions the model needs:
    optional values, the extended reals used for `f64::INFINITY` bounds,
    and what the model assumes of the square root it is given. */
module Util {

  datatype Option<+T> = None | Some(value: T)

  /** `x.min(max).max(min)`. */
  function Clamp(x: real, min: real, max: real): (r: real)
    ensures min <= max ==> min <= r <= max
    ensures min <= x <= max ==> r == x
    ensures x < min ==> r == min
    ensures min <= max < x ==> r == max
    ensures max < min ==> r == min
  {
    var capped := if x < max then x else max;
    if capped > min then capped else min
  }

  lemma ClampIdempotent(x: real, min: real, max: real)
    ensures Clamp(Clamp(x, min, max), min, max) == Clamp(x, min, max)
  {
  }

  /** An f64 bound of a parametric interval: finite, or one of the two
      infinities the source passes (`f64::NEG_INFINITY`, `f64::INFINITY`). */
  datatype ExtReal = NegInf | Finite(value: real) | PosInf

  predicate Less(a: ExtReal, b: ExtReal) {
    match (a, b)
    case (NegInf, NegInf) => false
    case (NegInf, _) => true
    case (Finite(x), Finite(y)) => x < y
    case (Finite(_), PosInf) => true
    case (_, _) => false
  }

  predicate LessEq(a: ExtReal, b: ExtReal) {
    a == b || Less(a, b)
  }

  function Max(a: ExtReal, b: ExtReal): ExtReal {
    if Less(b, a) then a else b
  }

  function Min(a: ExtReal, b: ExtReal): ExtReal {
    if Less(a, b) then a else b
  }

  lemma LessTotal(a: ExtReal, b: ExtReal)
    ensures Less(a, b) || a == b || Less(b, a)
    ensures !(Less(a, b) && Less(b, a))
    ensures !Less(a, a)
  {
  }

  lemma LessTransitive(a: ExtReal, b: ExtReal, c: ExtReal)
    ensures LessEq(a, b) && Less(b, c) ==> Less(a, c)
    ensures Less(a, b) && LessEq(b, c) ==> Less(a, c)
  {
  }

  /** `lo <= x <= hi`: the negation of the source's `x < t_min || t_max < x`. */
  predicate Within(x: real, lo: ExtReal, hi: ExtReal) {
    !Less(Finite(x), lo) && !Less(hi, Finite(x))
  }

  /** The facts the model uses of the square root it is given (`f64::sqrt`). */
  ghost predicate IsSqrt(sqrt: real -> real) {
    forall x :: 0.0 <= x ==> 0.0 <= sqrt(x) && sqrt(x) * sqrt(x) == x
  }
}
