/**
  The two library calls of java.lang.Math the classifier makes, left
  uninterpreted. `logQuot(a, b)` stands for `Math.log(a / b)` evaluated
  on doubles; it is one function of the pair because b may be zero there
  (a zero document frequency, an empty smoothing sum), where Java yields
  an infinity or NaN that reals cannot express. `Math.log(p)` is
  `logQuot(p, 1.0)`, division by 1.0 being exact. `exp` is `Math.exp`.
*/
module Numerics {

  datatype Numerics = Numerics(logQuot: (real, real) -> real, exp: real -> real)

  /** Math.log(a / b) */
  function LogQuot(nm: Numerics, a: real, b: real): real
  {
    nm.logQuot(a, b)
  }

  /** Math.exp(r) */
  function Exp(nm: Numerics, r: real): real
  {
    nm.exp(r)
  }

  /**
    The facts about Math.exp that the division in the softmax relies on:
    exp(0) is 1 and no result is negative.
  */
  ghost predicate ExpBasics(nm: Numerics)
  {
    Exp(nm, 0.0) == 1.0 && forall r: real :: Exp(nm, r) >= 0.0
  }

  /**
    Those facts, and that Math.exp is semi-monotonic, as its documentation
    requires of every implementation.
  */
  ghost predicate ExpFacts(nm: Numerics)
  {
    ExpBasics(nm) && forall r1: real, r2: real :: r1 <= r2 ==> Exp(nm, r1) <= Exp(nm, r2)
  }
}
