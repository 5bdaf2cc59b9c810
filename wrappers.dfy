/** The nullable columns of the account table are modelled with Option. */
module Wrappers {

  /** `None` is the SQL NULL of a nullable column, `Some(v)` a stored value. */
  datatype Option<+T> = None | Some(value: T)
}
