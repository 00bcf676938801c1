/** The optional value used where the component takes or returns `null`. */
module Wrappers {

  datatype Option<+T> = None | Some(value: T)
}
