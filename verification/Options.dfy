/** Optional values: the results of lookups, and of operations that the source ends by throwing. */
module Options {
  datatype Option<+T> = None | Some(value: T)
}
