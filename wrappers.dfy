/** Optional values: the model's stand-in for TypeScript's `?:` fields and `| null` results. */
module Wrappers {

  datatype Option<+T> = None | Some(value: T)
}
