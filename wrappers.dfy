/** Optional values and the reply shapes shared by every handler. */
module Wrappers {

  datatype Option<+T> = None | Some(value: T) {
    function GetOr(default: T): T {
      match this
      case Some(v) => v
      case None => default
    }
  }

  /** A JavaScript value that is `undefined` or the empty string is falsy. */
  predicate Falsy(s: Option<string>) {
    s.None? || s.value == ""
  }
}

/** The `{ error: message }` replies and successful JSON bodies of the HTTP handlers. */
module Http {

  datatype Error = Error(status: int, message: string)

  /** What a handler sends: a status with a body, or a status with an error message. */
  datatype Reply<+T> = Ok(status: int, value: T) | Fail(error: Error)

  /** The outcome of a chain of request validations: carry on with a value, or stop with an error. */
  datatype Check<+T> = Pass(value: T) | Reject(error: Error)
}
