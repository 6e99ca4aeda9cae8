/** Optional values, typed outcomes and the engine's stable error codes. */
module Outcomes {

  datatype Option<+T> = None | Some(value: T) {
    function GetOr(default: T): T {
      match this
      case Some(v) => v
      case None => default
    }
  }

  /** The codes of `PricingError`: behaviour depends on the code, never on the message. */
  datatype ErrorCode =
    | INVALID_DECIMAL
    | INVALID_DATE
    | INVALID_LINE
    | INVALID_SETTINGS
    | NO_SCHEDULE
    | OVERLAPPING_SCHEDULES
    | MISSING_QUANTITY
    | MISSING_CONTEXT
    | RULE_NOT_FOUND
    | NEGATIVE_PRICE
    | INDEX_NOT_FOUND
    | INDEX_VALUE_NOT_FOUND
    | DUPLICATE_INDEX_VALUE
    | INVALID_REVISION_COEFFICIENTS
    | AMBIGUOUS_OVERRIDE
    | DISCOUNT_TARGET_MISMATCH
    | DISCOUNT_EXCEEDS_BASE
    | DIVISION_BY_ZERO
    | FORMULA_ERROR

  /** A computed value, or the error that the original raises as an exception. */
  datatype Result<+T> = Ok(value: T) | Err(code: ErrorCode) {
    predicate IsFailure() {
      Err?
    }

    function PropagateFailure<U>(): Result<U>
      requires Err?
    {
      Err(code)
    }

    function Extract(): T
      requires Ok?
    {
      value
    }
  }

  /** Succeeds exactly when the condition holds. */
  function Check(condition: bool, code: ErrorCode): (r: Result<()>)
  {
    if condition then Ok(()) else Err(code)
  }
}
