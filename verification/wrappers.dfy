/** The optional result the source expresses as "a value or None". */
module Wrappers {

  datatype Option<+T> = None | Some(value: T)
}
