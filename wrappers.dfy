/** Failure-carrying values shared by the model. */
module Wrappers {

  /** A JavaScript value that may be absent: `None` stands for a missing
      argument, `null` and `undefined` alike. */
  datatype Option<T> = None | Some(value: T)

  /** The outcome of an operation that throws on failure: `Err` carries the
      text of the thrown error. */
  datatype Result<T, E> = Ok(value: T) | Err(error: E)
}
