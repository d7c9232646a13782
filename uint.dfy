/** The fixed-width integers of cosmwasm-std as unbounded naturals with their bounds
    written out. A plain operator on Uint128 (`+`, `-`, `*`, `/`) panics when its result
    leaves the type; the `checked_*` and `try_from` forms return an error instead. */
module Uint {
  import opened ContractErrors

  const U32: nat := 0x1_0000_0000
  const U64: nat := 0x1_0000_0000_0000_0000
  const U128: nat := 0x1_0000_0000_0000_0000_0000_0000_0000_0000
  const U256: nat := 0x1_0000_0000_0000_0000_0000_0000_0000_0000_0000_0000_0000_0000_0000_0000_0000_0000

  /** A cosmwasm `Timestamp` counts nanoseconds in a u64. */
  const NANOS_PER_SECOND: nat := 1_000_000_000

  /** Assumption about `Decimal256` (its library is not part of this model): a decimal is
      its numerator over 10^18. */
  const DECIMAL_FRACTIONAL: nat := 1_000_000_000_000_000_000

  /** Uint128 `+`, which panics on overflow. */
  function Add128(a: nat, b: nat): Result<nat> {
    if a + b < U128 then Ok(a + b) else Err(Panic)
  }

  /** Uint128 `-`, which panics on underflow. */
  function Sub(a: nat, b: nat): Result<nat> {
    if b <= a then Ok(a - b) else Err(Panic)
  }

  /** Uint128 `*`, which panics on overflow. */
  function Mul128(a: nat, b: nat): Result<nat> {
    if a * b < U128 then Ok(a * b) else Err(Panic)
  }

  /** Uint128 `/`, which panics on a zero divisor. */
  function Div(a: nat, b: nat): Result<nat> {
    if b == 0 then Err(Panic) else Ok(a / b)
  }

  /** `Uint128::checked_mul`, converted to `ContractError::OverflowError` by `?`. */
  function CheckedMul128(a: nat, b: nat): Result<nat> {
    if a * b < U128 then Ok(a * b) else Err(Overflow)
  }

  /** `Uint128::try_from(Uint256)`. */
  function TryFrom256(x: nat): Result<nat> {
    if x < U128 then Ok(x) else Err(ConversionOverflow)
  }

  /** `Uint256 * Decimal256` under the fixed-point assumption: the floor of x·p/10^18,
      which panics when it leaves Uint256. */
  function MulDecimal(x: nat, p: nat): Result<nat> {
    if x * p / DECIMAL_FRACTIONAL < U256 then Ok(x * p / DECIMAL_FRACTIONAL) else Err(Panic)
  }

  /** `Decimal256::inv().unwrap()` under the fixed-point assumption: the numerator
      10^36 / p, and a panic (unwrap of `None`) for a zero price. */
  function Inverse(p: nat): Result<nat> {
    if p == 0 then Err(Panic) else Ok(DECIMAL_FRACTIONAL * DECIMAL_FRACTIONAL / p)
  }

  /** `Timestamp::plus_seconds`: nanosecond arithmetic in u64, which panics on overflow
      (contracts are built with overflow checks on). */
  function PlusSeconds(t: nat, seconds: nat): Result<nat> {
    if seconds * NANOS_PER_SECOND < U64 && t + seconds * NANOS_PER_SECOND < U64
    then Ok(t + seconds * NANOS_PER_SECOND)
    else Err(Panic)
  }
}
