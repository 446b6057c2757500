/** Option and Result, the two failure-carrying shapes the model uses for Go's
    `(value, ok)` and `(value, error)` returns. */
module Wrappers {

  datatype Option<+T> = None | Some(value: T)

  /** A Go `(value, error)` pair whose error is a message. */
  datatype Result<+T> = Ok(value: T) | Err(msg: string)
}

/** Bytes as Go's `[]byte` holds them. */
module Bytes {
  type byte = b: int | 0 <= b < 256
  type Bytes = seq<byte>
}
