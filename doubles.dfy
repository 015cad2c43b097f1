/**
  IEEE doubles, reduced to what the storage rules look at: whether a value is
  a finite number, not-a-number, or an infinity. Arithmetic is not modelled.
 */
module Doubles {

  datatype Double = Finite(value: real) | NaN | Infinity(negative: bool)

  /** `double.IsNaN`. */
  predicate IsNaN(d: Double) { d.NaN? }

  /** `double.IsInfinity`: positive or negative infinity. */
  predicate IsInfinity(d: Double) { d.Infinity? }

  /** Neither NaN nor infinite: the values a JSON number can hold. */
  predicate IsFinite(d: Double) { !IsNaN(d) && !IsInfinity(d) }
}
