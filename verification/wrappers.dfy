/** Optional values shared by the other modules. */
module Wrappers {

  /** A value that may be absent: a missing JSON field, a rejected parse,
      a timestamp outside the range a JavaScript Date can hold. */
  datatype Option<+T> = None | Some(value: T)
}
