/** The optional value used for a thread id that may not exist yet and for a
    search that may find nothing. */
module Wrappers {

  datatype Option<+T> = None | Some(value: T)
}
