/** Failure-carrying result types and the fixed-width integers of the program. */
module Wrappers {
  datatype Option<+T> = None | Some(value: T)

  datatype Result<+T> = Ok(value: T) | Err

  type byte = n: int | 0 <= n < 0x100

  type uint16 = n: int | 0 <= n < 0x1_0000

  type uint64 = n: int | 0 <= n < 0x1_0000_0000_0000_0000
}
