/** The wrapper type the model shares. */
module Wrappers {

  datatype Option<+T> = None | Some(value: T)
}
