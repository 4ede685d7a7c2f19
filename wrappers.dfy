/** The nullable values of the store and of the provider's replies. */
module Wrappers {

  /** A column that may hold NULL, or a parser result that may be absent. */
  datatype Option<+T> = None | Some(value: T)
}
