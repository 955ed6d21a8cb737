/**
 * The Python builtins the engine calls but whose implementation is outside
 * this model: `float(s)`, `int(s)` and `re.match(pattern, s)`. They are
 * passed in as an `Oracles` record of function values; the only thing the
 * model assumes about them is stated as explicit predicates.
 */
module Host {
  import opened Wrappers
  import opened Text

  /** A Python float: finite, one of the infinities, or nan. */
  datatype PyFloat = Finite(x: real) | PosInf | NegInf | NaN

  /** IEEE `v < bound`: nan compares false, -inf is below every finite bound. */
  predicate Below(v: PyFloat, bound: real)
  {
    match v
    case Finite(x) => x < bound
    case NegInf => true
    case PosInf => false
    case NaN => false
  }

  /** IEEE `v > bound`. */
  predicate Above(v: PyFloat, bound: real)
  {
    match v
    case Finite(x) => x > bound
    case PosInf => true
    case NegInf => false
    case NaN => false
  }

  /**
   * toFloat(s): the result of `float(s)`, `None` when it raises ValueError.
   * parsesInt(s): whether `int(s)` succeeds.
   * reMatch(p, s): whether `re.match(p, s)` finds a match starting at
   * position 0 of `s` (a prefix match unless `p` anchors its end).
   */
  datatype Oracles = Oracles(
    toFloat: string -> Option<PyFloat>,
    parsesInt: string -> bool,
    reMatch: (string, string) -> bool)

  /**
   * `float()` accepts every ASCII digit string. It may round a long one, or
   * give `inf` for a very long one, but it never raises on it.
   */
  ghost predicate DigitsCoerce(o: Oracles)
  {
    forall s :: IsDigits(s) ==> o.toFloat(s).Some?
  }
}
