/** An optional value: JavaScript's `null`/`undefined` against a present one. */
module Wrappers {
  datatype Option<T> = None | Some(value: T)
}
