/** Option and Result values shared by every module of the blog model. */
module Wrappers {

  /** An optional value: a nullable foreign key, an absent URL argument. */
  datatype Option<+T> = None | Some(value: T)

  /** The outcome of an operation that can fail with an error of type E. */
  datatype Result<+T, +E> = Ok(value: T) | Err(error: E)

  /** The outcome of an operation that returns nothing but can fail. */
  datatype Outcome<+E> = Pass | Fail(error: E)
}
