/** Option and Result, the two failure-carrying datatypes the model uses for Java's
    nullable references and for the exceptions that abort an analysis. */
module Wrappers {

  /** A Java reference that may be null: `None` stands for null. */
  datatype Option<+T> = None | Some(value: T)

  /** The outcome of an operation that may throw. */
  datatype Result<+R, +E> = Ok(value: R) | Err(error: E)
}
