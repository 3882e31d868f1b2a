/** Optional values: a JavaScript `undefined` (or a computation that has no
    value) is `None`. */
module Wrappers {

  datatype Option<+T> = None | Some(value: T)
}
