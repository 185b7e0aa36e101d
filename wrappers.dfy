/** Optional values: an absent `Result`/`Error` field, a payload that failed to decode. */
module Wrappers {

  datatype Option<+T> = None | Some(value: T)
}
