/** Byte strings, and the two integer layouts the repository writes. */
module Bytes {

  type byte = x: int | 0 <= x < 256

  datatype Option<+T> = None | Some(value: T)

  const U16_LIMIT: nat := 0x1_0000
  const U32_LIMIT: nat := 0x1_0000_0000
  const U64_LIMIT: nat := 0x1_0000_0000_0000_0000

  /** Saturating arithmetic on 64-bit integers, applied to the exact result. */
  function Saturated(n: nat): nat { if n < U64_LIMIT then n else U64_LIMIT - 1 }
}
