/** Optional results, used where the calculator has no value to give back. */
module Wrappers {

  datatype Option<+T> = None | Some(value: T)
}
