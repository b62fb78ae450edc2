/** Error-carrying results, standing in for Go's `(value, error)` returns and panics. */
module Results {

  datatype Option<+T> = None | Some(value: T)

  datatype Result<+T, +E> = Ok(value: T) | Err(error: E)
}
