/** Optional values: `None` stands for a missing value (JavaScript's `undefined`,
    or a decoding that fails). */
module Wrappers {
  datatype Option<+T> = None | Some(value: T)
}
