// The optional value the other modules use for a storage entry or a result that may be missing.
module Wrappers {

  datatype Option<+T> = None | Some(value: T)
}
