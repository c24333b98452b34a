/** Shared vocabulary: optional values (Go's nil pointers and SQL NULL) and byte strings. */
module Basics {

  datatype Option<+T> = None | Some(value: T)

  newtype byte = x: int | 0 <= x < 256

  type Bytes = seq<byte>

  const NUL: byte := 0
}
