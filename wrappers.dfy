/** Small failure-carrying datatypes shared by the validation modules. */
module Wrappers {

  datatype Option<+T> = None | Some(value: T)

  /** The shape of `Result<(), E>`: success carries nothing. */
  datatype Outcome<+E> = Pass | Fail(error: E)
}
