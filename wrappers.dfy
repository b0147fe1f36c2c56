/** The optional value used for the source's "pointer or nullptr" and
    "value or exception" results. */
module Wrappers {

  datatype Option<+T> = None | Some(value: T)
}
