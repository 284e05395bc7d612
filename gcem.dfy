/**
  The constexpr maths library the renderer calls (gcem.hpp is not part of this
  model). Its four routines are taken as opaque parameters: every member that
  needs one receives a `Math` record, so nothing in the model depends on how
  they are computed.
 */
module Gcem {

  /** `gcem::sqrt`, `gcem::acos`, `gcem::sin` and `gcem::cos`, over the reals. */
  datatype Math = Math(sqrt: real -> real, acos: real -> real, sin: real -> real, cos: real -> real)

  /** The one property assumed of `gcem::sqrt` where a lemma needs it: it never returns a negative value. */
  ghost predicate NonNegativeSqrt(m: Math)
  {
    forall x :: 0.0 <= m.sqrt(x)
  }
}
