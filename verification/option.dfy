/** Optional values: the model's stand-in for TypeScript's `T | undefined`. */
module Optional {

  /** `None` is `undefined` (or, where noted, a sentinel such as `+Infinity` or `null`). */
  datatype Option<+T> = None | Some(value: T)
}
