/** The optional value shared by the dispatcher and the reconciliation model. */
module Wrappers {

  /** A value that may be absent; stands for `null`, `undefined` and a missing object key. */
  datatype Option<+T> = None | Some(value: T)
}
