/** The optional value used where the client code holds `null` or `undefined`. */
module Wrappers {

  datatype Option<T> = None | Some(value: T)
}
