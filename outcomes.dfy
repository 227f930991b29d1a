// Optional values and error-carrying results, the Dafny counterpart of Go's
// `(value, error)` returns and nil pointers.
module Outcomes {
  datatype Option<T> = None | Some(value: T)

  /** `Err` carries the message of the Go error value. */
  datatype Result<T> = Ok(value: T) | Err(error: string)

  /** A decoder or callback that never fails. */
  function NoError<T>(m: T): Option<string>
  {
    None
  }
}
