/** An optional value, used throughout the model. */
module Wrappers {

  /** A value that may be absent: a lookup that found nothing, a JSON `null`,
      or the `false` that the validator returns when nothing is missing. */
  datatype Option<+T> = None | Some(value: T)
}
