/** The optional value used where the source would produce a non-finite or missing result. */
module Wrappers {

  datatype Option<+T> = None | Some(value: T)
}
