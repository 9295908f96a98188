/** Optional values and results with an error, as the generator and the application use them. */
module Wrappers {

  /** Python's `None`-or-value, and C++'s maybe-null. */
  datatype Option<+T> = None | Some(value: T)

  /** A value, or the name of the exception the source raises instead. */
  datatype Result<+T> = Ok(value: T) | Failure(error: string)

  /** Python truthiness of an optional string: `None` and `""` are both false. */
  predicate Truthy(o: Option<string>) {
    o.Some? && o.value != []
  }
}
