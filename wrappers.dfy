/** Option and Result, the two failure-carrying datatypes the model uses. */
module Wrappers {

  datatype Option<+T> = None | Some(value: T)

  /** A computation that either produced a value or raised; `Err` carries the
      kind of exception the Python code would raise at that point. */
  datatype Result<+T> = Ok(value: T) | Err(error: string)
}
