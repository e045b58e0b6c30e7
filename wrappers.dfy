/** Optional values: a TypeScript `T | undefined` or `T | null`. */
module Wrappers {
  datatype Option<+T> = None | Some(value: T)
}
