/** Small value wrappers shared by the form model. */
module Wrappers {

  /** An optional value: a JavaScript value that may be `undefined`. */
  datatype Option<+T> = None | Some(value: T)

  /** How a JavaScript expression finishes: with a value, or by throwing a `TypeError`. */
  datatype Completion<+T> = Normal(value: T) | TypeError
}
