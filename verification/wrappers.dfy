/** The nullable-reference stand-in used throughout the model: a Java field or
    argument that may be `null` is an `Option`. */
module Wrappers {

  datatype Option<+T> = None | Some(value: T)
}
