/** Small shared vocabulary: optional values, results, and the unsigned integer widths of the program. */
module Prelude {

  datatype Option<+T> = None | Some(value: T)

  datatype Result<+T, +E> = Ok(value: T) | Err(error: E)

  const U16_MAX: nat := 0xFFFF
  const U32_MAX: nat := 0xFFFF_FFFF
  const U64_MAX: nat := 0xFFFF_FFFF_FFFF_FFFF
  const U64_SIZE: nat := U64_MAX + 1

  function Min(a: int, b: int): int { if a <= b then a else b }

  function Max(a: int, b: int): int { if a <= b then b else a }

  /** Saturating addition of two u64 values. */
  function SatAdd(a: nat, b: nat): nat { Min(a + b, U64_MAX) }

  /** Saturating subtraction of two unsigned values. */
  function SatSub(a: nat, b: nat): nat { if a <= b then 0 else a - b }

}
