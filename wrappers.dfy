/** Optional values: `None` stands for Python's missing or failed result. */
module Wrappers {

  datatype Option<+T> = None | Some(value: T)

}
