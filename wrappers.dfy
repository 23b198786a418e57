/** The optional and failure-carrying values the rest of the model builds on. */
module Wrappers {

  /** `None` stands for JavaScript's `undefined` (an absent field or property). */
  datatype Option<+T> = None | Some(value: T)

  /** A computation that produced a value or raised an error. */
  datatype Result<+T, +E> = Ok(value: T) | Err(error: E)
}
