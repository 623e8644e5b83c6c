/** Optional values and error outcomes shared by the modules of this model. */
module Wrappers {

  /** A value that may be absent: Go's "nil pointer or value" and "(value, ok)" pairs. */
  datatype Option<+T> = None | Some(value: T)

  /** The outcome of a Go function that returns only an `error`. */
  datatype Outcome = Pass | Fail(message: string)
}
