/** Optional values: a JavaScript `undefined` result, a missing cell, a failed decode. */
module Wrappers {

  datatype Option<+T> = None | Some(value: T)
}
