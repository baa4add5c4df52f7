/** The optional-value datatype used for nullable columns, optional envelope fields and the
    signed-in user that a session may or may not carry. */
module Wrappers {

  datatype Option<+T> = None | Some(value: T)
}
