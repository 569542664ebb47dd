/** Option and Result values used across the model for absent values, parse errors and panics. */
module Wrappers {

  datatype Option<+T> = None | Some(value: T)

  /** Why an operation did not produce a value: a reported parse error, or a Rust panic
      (an `unwrap` of nothing, an arithmetic underflow, `unimplemented!`). */
  datatype Failure = ParseError(reason: string) | Panic(reason: string)

  datatype Result<+T> = Ok(value: T) | Err(failure: Failure)
}
