/** Failure-carrying return values shared by the puzzle modules. */
module Wrappers {

  datatype Option<T> = None | Some(value: T)

  /** `Err` stands for the source's error returns and for its explicit panics. */
  datatype Result<T, E> = Ok(value: T) | Err(error: E)
}
