/** Optional values: JavaScript's `undefined`/`null` results and `NaN` parses. */
module Wrappers {
  datatype Option<+T> = None | Some(value: T)
}
