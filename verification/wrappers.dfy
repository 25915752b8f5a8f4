/** The optional value used for PHP's nullable parameters (`?string`). */
module Wrappers {

  datatype Option<+T> = None | Some(value: T)
}
