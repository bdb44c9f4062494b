/** Plain option and result datatypes shared by the other modules (matched on, not used with `:-`). */
module Wrappers {

  datatype Option<+T> = None | Some(value: T)

  datatype Result<+R, +E> = Success(value: R) | Failure(error: E)
}
