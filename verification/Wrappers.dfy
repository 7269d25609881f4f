/** The option type shared by the component models. */
module Wrappers {
  datatype Option<+T> = None | Some(value: T)
}
