/**
 * The floating-point primitives the trainer relies on. Their numeric
 * behaviour is not modelled: `log`, `LogAdd` (log(exp(a) + exp(b))) and the
 * value a table lookup yields for a missing key are parameters, so every
 * result below holds whatever they are.
 */
module LogDomain {

  /** The log-domain primitives: natural log, log-sum-exp, and the value
      returned by `lookup` for a key that is not in the table. */
  datatype Numerics = Numerics(log: real -> real, logAdd: (real, real) -> real, miss: real)

  /** -DBL_MAX, the sentinel that stands for log(0) in the expected counts:
      (2^53 - 1) * 2^971, written out exactly. */
  const NegDblMax: real := -179769313486231570814527423731704356798070567525844996598917476803157260780028538760589558632766878171540458953514382464234321326889464182768467546703537516986049910576551282076245490090389328944075868508455133942304583236903222948165808559332123348274797826204144723168738177180919299881250404026184124858368.0

  /** `a` after `n` successive accumulations `a := logAdd(a, v)`. */
  function LogAddRepeat(logAdd: (real, real) -> real, v: real, n: nat, a: real): (r: real)
  {
    if n == 0 then a else logAdd(LogAddRepeat(logAdd, v, n - 1, a), v)
  }
}
