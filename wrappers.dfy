/** The optional value used for what browser storage returns. */
module Wrappers {

  datatype Option<T> = None | Some(value: T)
}
