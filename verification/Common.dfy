/** Failure-aware result types and byte strings shared by the other modules. */
module Common {
  datatype Option<+T> = None | Some(value: T) {
    predicate IsFailure() {
      None?
    }

    function PropagateFailure<U>(): Option<U>
      requires None?
    {
      None
    }

    function Extract(): T
      requires Some?
    {
      value
    }
  }

  datatype Result<+T, +E> = Ok(value: T) | Err(error: E)

  function Lesser(a: int, b: int): int {
    if a < b then a else b
  }

  /** One octet.  The encoders below do arithmetic on octets, so they are small integers. */
  type Byte = b: int | 0 <= b < 256 witness 0

  type Bytes = seq<Byte>
}
