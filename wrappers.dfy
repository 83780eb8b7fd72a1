/**
 * Option and Result, the two failure-carrying datatypes the rest of the
 * model uses, and Patch, a field of a request body.
 */
module Wrappers {

  datatype Option<+T> = None | Some(value: T)

  datatype Result<+T, +E> = Ok(value: T) | Err(error: E)

  /** A field of a request body: not sent, sent as null, or sent with a value. */
  datatype Patch<T> = Unset | SetNull | SetValue(value: T)
}
