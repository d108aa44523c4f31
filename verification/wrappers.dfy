/** A value that may be absent. The notifier uses it for an environment
    variable that is not set, a snapshot file that could not be loaded,
    and a push body that does not have the expected shape. */
module Wrappers {

  datatype Option<T> = None | Some(value: T)
}
