/** Small value types shared by the other modules. */
module Wrappers {

  /** A value that may be absent: a nil pointer, an empty V8 handle. */
  datatype Option<+T> = None | Some(value: T)

  /** One byte of a message buffer. */
  newtype byte = b: int | 0 <= b < 256

  /** A value of C's 32-bit `int`. */
  type int32 = n: int | -0x8000_0000 <= n < 0x8000_0000
}
