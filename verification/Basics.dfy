/** Shared vocabulary: bytes, results and a little integer and real arithmetic. */
module Basics {
  type byte = x: int | 0 <= x < 256

  /** Go strings and Python bytes are both byte sequences. */
  type Bytes = seq<byte>

  datatype Option<+T> = None | Some(value: T)

  datatype Result<+T, +E> = Ok(value: T) | Err(error: E)

  function Max(a: int, b: int): int { if a < b then b else a }

  function Min(a: int, b: int): int { if b < a then b else a }

  function MaxReal(a: real, b: real): real { if a < b then b else a }

  function MinReal(a: real, b: real): real { if b < a then b else a }

  /** The least integer that is not below `x`. */
  function Ceil(x: real): int { -((-x).Floor) }
}
