/** The optional value the model uses for a parse that may fail. */
module Wrappers {
  datatype Option<+T> = None | Some(value: T)
}
