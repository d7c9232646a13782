/** The ways a call to the vault can fail (src/error.rs), and the result type every
    entry point returns. Every failure aborts the whole call: nothing it wrote is kept. */
module ContractErrors {

  datatype Error =
    /** `ContractError::Std` wrapping `StdError::Overflow`: a `checked_sub` inside a
        storage update closure, whose error is converted to a `StdError` first. */
    | StdOverflow
    /** `ContractError::OverflowError`: a `checked_mul` whose product leaves Uint128. */
    | Overflow
    /** `ContractError::ConversionOverflowError`: a Uint256 that does not fit Uint128. */
    | ConversionOverflow
    | DivideByZero
    | Unauthorized
    | Insufficient
    | Invalidate
    | Locked
    | Paused
    /** Not a `ContractError` variant: a Rust panic (an overflowing plain operator, a
        division by zero, an `unwrap` of `None`), which traps the contract and aborts
        the transaction just as an error does. */
    | Panic

  datatype Result<+T> = Ok(value: T) | Err(error: Error) {
    predicate IsFailure() { Err? }

    function PropagateFailure<U>(): Result<U>
      requires Err?
    {
      Err(error)
    }

    function Extract(): T
      requires Ok?
    {
      value
    }
  }
}
