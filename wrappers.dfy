/** The optional value used for the client's board before the first
    full-state message has arrived, and for a drop that changed nothing. */
module Wrappers {

  datatype Option<T> = None | Some(value: T)
}
