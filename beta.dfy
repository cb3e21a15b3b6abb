/** The inverse regularized incomplete beta function `incbi(a, b, p)`: the
    p-quantile of the Beta(a, b) distribution.  It is a foreign numeric
    routine, so the model keeps it abstract: the engine receives it as a
    partial function, defined exactly where the routine is. */
module IncompleteBeta {

  /** `incbi(a, b, p)`; calling it outside `InDomain` is a verification error. */
  type Incbi = (real, real, real) --> real

  /** Shape parameters positive, probability in (0, 1]. */
  predicate InDomain(a: real, b: real, p: real) {
    a > 0.0 && b > 0.0 && 0.0 < p <= 1.0
  }

  /** The routine accepts every argument triple of its domain. */
  ghost predicate Defined(incbi: Incbi) {
    forall a, b, p :: InDomain(a, b, p) ==> incbi.requires(a, b, p)
  }

  /** A quantile of a distribution on [0, 1] lies in [0, 1]. */
  ghost predicate UnitValued(incbi: Incbi) {
    Defined(incbi) &&
    forall a, b, p :: InDomain(a, b, p) ==> 0.0 <= incbi(a, b, p) <= 1.0
  }

  /** A quantile function is non-decreasing in its probability. */
  ghost predicate IncreasingInP(incbi: Incbi) {
    Defined(incbi) &&
    forall a, b, p, q :: InDomain(a, b, p) && InDomain(a, b, q) && p <= q ==>
      incbi(a, b, p) <= incbi(a, b, q)
  }
}
