/** Types shared by every formula of the library: the error taxonomy, the
    result type, the option kind, and the view of an `f64` input that the
    finiteness gates need. */
module Types {

  /** The five failure kinds every formula reports. */
  datatype FinanceError =
    | InvalidInterestRate
    | InvalidPeriods
    | InvalidMonetaryValue
    | DivisionByZero
    | InvalidInput

  /** A formula's outcome: a value, or the error that stopped it.
      Failure-compatible, so `:-` plays the part of Rust's `?`. */
  datatype Result<+T> = Ok(value: T) | Err(error: FinanceError) {
    predicate IsFailure() { Err? }

    function PropagateFailure<U>(): Result<U>
      requires Err?
    {
      Err(error)
    }

    function Extract(): T
      requires Ok?
    {
      value
    }
  }

  /** European option kind. */
  datatype OptionType = Call | Put

  /** An `f64` argument as the `is_finite` gates see it: a finite value, or
      one of the infinities and NaNs, which the gates reject before any
      other comparison reads them. */
  datatype F64 = Finite(v: real) | NonFinite
}
