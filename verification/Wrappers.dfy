/** Results that may be missing, and results of operations that may fail with an error code. */
module Wrappers {
  datatype Option<+T> = None | Some(value: T)

  datatype Outcome<+T> = Done(value: T) | Failed(code: int)
}
