/** Option and Result, the two failure-carrying datatypes the rest of the model uses. */
module Base {

  datatype Option<+T> = None | Some(value: T)

  /** A computation that either yields a value or stops with an error (a Python exception). */
  datatype Result<+T, +E> = Ok(value: T) | Err(error: E)

  function Min(a: nat, b: nat): nat
  {
    if a <= b then a else b
  }
}
