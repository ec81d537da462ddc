/** Optional values: a TypeScript `T | undefined` or `T | null` field or state. */
module Options {
  datatype Option<+T> = None | Some(value: T)
}
