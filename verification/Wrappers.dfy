/** Values that may be missing, and lookups that may fail. */
module Wrappers {

  datatype Option<+T> = None | Some(value: T)

  /** A call into the surroundings that hands out a value or a negative error code. */
  datatype Lookup<+T> = Found(value: T) | Failed(rv: int)

  /** The conversion of an `int` to `uint32_t`. */
  function U32(n: int): (u: nat)
    ensures u < 0x1_0000_0000
    ensures 0 <= n < 0x1_0000_0000 ==> u == n
  {
    n % 0x1_0000_0000
  }
}
