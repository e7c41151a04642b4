/** Optional values and outcomes that may be an error. */
module Wrappers {

  datatype Option<+T> = None | Some(value: T)

  /** What a call returned: a value, or an error (Go: a non-nil error). */
  datatype Outcome<+T> = Ok(value: T) | Err
}
