/** Presence of an optional value: a protobuf field that may be unset, or a
    Python value that may be `None`. */
module Wrappers {

  datatype Option<+T> = None | Some(value: T)
}
