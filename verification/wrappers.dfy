/** The optional value used where JavaScript leaves a field `undefined`. */
module Wrappers {

  /** `None` plays the role of JavaScript's `undefined`. */
  datatype Option<+T> = None | Some(value: T)
}
