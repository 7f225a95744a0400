/** Optional values: `None` stands for JavaScript's `undefined`/`null` where a field may be missing. */
module Wrappers {

  datatype Option<+T> = None | Some(value: T)
}
