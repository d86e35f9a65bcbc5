/** The optional value returned by `String.prototype.match` and friends: `null` becomes None. */
module Wrappers {
  datatype Option<+T> = None | Some(value: T)
}
