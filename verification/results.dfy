/** Failure-carrying values shared by the whole model. */
module Results {

  /** A value that may be missing; `None` plays the part of JavaScript's `undefined`. */
  datatype Option<+T> = None | Some(value: T)

  /** The outcome of an operation that can throw: `Err` carries what would have been thrown. */
  datatype Result<+T, +E> = Ok(value: T) | Err(error: E)
}
