/** Optional values, used where the source returns a null pointer, an empty
    string or an error code instead of a value. */
module Wrappers {
  datatype Option<T> = None | Some(value: T)
  {
    predicate IsSome() { Some? }
  }
}
