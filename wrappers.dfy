/** The optional value used wherever the portal has `null`/`undefined` or a query without data. */
module Wrappers {

  datatype Option<+T> = None | Some(value: T)
}
