/** An optional value: a browser dialog that the user may cancel (JavaScript `null`). */
module Wrappers {

  datatype Option<+T> = None | Some(value: T)
}
