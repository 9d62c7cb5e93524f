/** Types shared by every module of the model: octets, and the two
    failure-carrying wrappers used for the source's exceptions. */
module Common {

  /** One octet of a byte stream, as Python's `bytes` elements are. */
  type byte = x: int | 0 <= x < 256

  datatype Option<+T> = None | Some(value: T)

  /** The value of an operation that either succeeds or raises. */
  datatype Result<+T, +E> = Success(value: T) | Failure(error: E)

  function Min(a: int, b: int): int
  {
    if a <= b then a else b
  }
}
