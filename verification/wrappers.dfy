/** The optional value the model uses where the program uses `null`. */
module Wrappers {

  datatype Option<+T> = None | Some(value: T)
}
