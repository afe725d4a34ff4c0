/** The optional value used wherever the source returns a pointer that may be null
    or a lookup that may miss. */
module Wrappers {

  datatype Option<+T> = None | Some(value: T)
}
