/** Optional values and the outcome of calls that can fail. */
module Wrappers {

  datatype Option<+T> = None | Some(value: T)

  datatype Outcome = Ok | Err
}
