/** The optional value and the success-or-exception result that the other modules return. */
module Wrappers {
  datatype Option<+T> = None | Some(value: T)

  /** Ok for a normal return, Err for a thrown exception. */
  datatype Result<+T, +E> = Ok(value: T) | Err(error: E)
}
