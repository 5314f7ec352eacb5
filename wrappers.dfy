/** Option and error-carrying results shared by the whole model.
    A Go function returning `(value, error)` becomes a `Result`; one returning only
    `error` becomes an `Outcome`. The error is its message text, because the
    handlers decide status codes by comparing that text. */
module Wrappers {

  datatype Option<+T> = None | Some(value: T) {
    function GetOr(default: T): T {
      match this
      case Some(v) => v
      case None => default
    }
  }

  datatype Result<+T> = Ok(value: T) | Err(msg: string)

  datatype Outcome = Pass | Fail(msg: string)
}
