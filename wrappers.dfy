/** Optional values, standing for JavaScript `undefined`/optional parameters and Python `None`. */
module Wrappers {
  datatype Option<+T> = None | Some(value: T)
}
