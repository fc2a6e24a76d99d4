/** A value that may be absent: JavaScript's `null`/`undefined` where the JavaScript uses it as "not set". */
module Wrappers {

  datatype Option<+T> = None | Some(value: T)

}
