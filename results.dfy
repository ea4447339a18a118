/** Error-returning results shared by the models: Go's `(value, error)` pairs
    and "found / not found" answers. */
module Results {

  datatype Option<+T> = None | Some(value: T)

  /** A Go function returning `(T, error)`: `Err` carries the error text. */
  datatype Result<+T> = Ok(value: T) | Err(message: string)
}
