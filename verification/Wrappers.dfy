/** Result types shared by the modules of the model. */
module Wrappers {

  datatype Option<+T> = None | Some(value: T)

  /** The error classes of backend/app/core/errors.py, and the database's integrity error. */
  datatype Error = NotFound | Validation | Forbidden | Conflict | Unauthorized | Integrity

  datatype Result<+T> = Success(value: T) | Failure(error: Error)
}
