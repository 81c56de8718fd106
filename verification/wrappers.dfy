/** Failure-carrying values shared by the models: Go's `(T, error)` pairs and
    bare `error` returns become an Option or an Outcome. */
module Wrappers {

  /** A value that may be missing (Go: a map lookup's `ok`, or a nil error). */
  datatype Option<+T> = None | Some(value: T)

  /** The result of a check that returns only an `error`: `Pass` is a nil error. */
  datatype Outcome<+E> = Pass | Fail(error: E)
}
