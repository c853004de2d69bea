/**
 Results of calls that may fail, and values that may be missing.
 */
module Outcomes {
  datatype Option<T> = None | Some(value: T)

  datatype Result<T> = Ok(value: T) | Fail
}
