/** Values shared by every module: an optional value, and what a call of a
    Python callable did (it returned a value, or it raised an exception). */
module Outcomes {

  datatype Option<+T> = None | Some(value: T)

  /** The outcome of calling a function whose exceptions are of kind `E`. */
  datatype Outcome<+V, +E> = Returned(value: V) | Raised(error: E)
}
