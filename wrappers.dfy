/** Option, the one failure-compatible wrapper the model needs (nullable values of the source). */
module Wrappers {

  datatype Option<+T> = None | Some(value: T)
}
