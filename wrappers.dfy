/** Python's `None`-or-value, as an Option. */
module Wrappers {

  datatype Option<+T> = None | Some(value: T)

}
