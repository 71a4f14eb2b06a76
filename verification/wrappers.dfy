/** Optional values, used where the runner keeps a `java.util.Optional`. */
module Wrappers {

  /** A value that may be absent: the result of a monitor construction attempt. */
  datatype Option<+T> = None | Some(value: T)
}
