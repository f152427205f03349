/** The optional value used for the search's failure path and for predecessor links. */
module Wrappers {

  datatype Option<T> = None | Some(value: T)

}
