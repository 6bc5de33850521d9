/** The outcome of an operation that returns a Go `error`. */
module Results {
  datatype Option<+T> = None | Some(value: T)

  datatype Result<+T> = Ok(value: T) | Err
}
