/** Small shared datatypes: an optional value and a success-or-error value. */
module Common {

  datatype Option<+T> = None | Some(value: T)

  /** The outcome of an operation that the program can abort with an exception. */
  datatype Result<+T, +E> = Ok(value: T) | Err(error: E)

  function Min(a: int, b: int): (m: int)
    ensures m <= a && m <= b && (m == a || m == b)
  {
    if a <= b then a else b
  }
}
