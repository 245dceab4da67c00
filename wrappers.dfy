/** Optional values and step outcomes shared by the whole model. */
module Wrappers {

  /** A value that may be absent (JavaScript `null`/`undefined`, Python `None`). */
  datatype Option<+T> = None | Some(value: T)

  /** The outcome of a step the model does not look inside: a value, or a raised error with its text. */
  datatype Outcome<+T> = Done(value: T) | Raised(message: string)
}
