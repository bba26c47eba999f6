/** The optional value used wherever the source has a `null` or a caught exception. */
module Wrappers {

  /** Some value, or nothing. */
  datatype Option<+T> = None | Some(value: T)
}
