/** The optional value used wherever the parser returns `Option<T>`. */
module Wrappers {

  datatype Option<+T> = None | Some(value: T)
}
