/** Option and Result values shared by every module of the model. */
module Common {

  /** A value that may be absent: JavaScript `undefined`/`null`, Python `None`. */
  datatype Option<+T> = None | Some(value: T)

  /** The outcome of an operation that may raise an exception in the source. */
  datatype Result<+T, +E> = Ok(value: T) | Err(error: E)
}
