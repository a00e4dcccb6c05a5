/** Optional values: JavaScript's `null` / `undefined` next to a present value. */
module Wrappers {

  datatype Option<+T> = None | Some(value: T)

  /** JavaScript truthiness of a value that is either a string or null/undefined:
      null, undefined and the empty string are all falsy. */
  predicate Truthy(o: Option<string>) {
    o.Some? && o.value != ""
  }
}
