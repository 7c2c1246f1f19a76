/** Small value wrappers shared by the model. */
module Wrappers {

  /** A JavaScript value that may be `undefined` (or `null`). */
  datatype Option<+T> = None | Some(value: T)
}
