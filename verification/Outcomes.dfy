/** Results that may be missing, and operations that may abort the program. */
module Outcomes {
  datatype Option<T> = None | Some(value: T)

  datatype Outcome<T> = Done(value: T) | Abort
}
