/** Result shapes shared by the model, and the ways a statement of the database fails. */
module Wrappers {

  datatype Option<+T> = None | Some(value: T)

  datatype Result<+R, +E> = Ok(value: R) | Err(error: E)

  /** Why a statement did not go through; only a locked database is worth retrying. */
  datatype Fault = LockFault | OtherFault
}
