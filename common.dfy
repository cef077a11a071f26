/** Values shared by every service: optional results and the exceptions the services throw. */
module Common {

  /** A value that may be absent (the source's `null` / `undefined`). */
  datatype Option<+T> = None | Some(value: T)

  /** The exception classes raised by the services, each with the message it carries. */
  datatype Error =
    | NotFound(message: string)             // NotFoundException, answered with 404
    | Conflict(message: string)             // ConflictException, answered with 409
    | InternalServerError(message: string)  // InternalServerErrorException, answered with 500
    | QueryFailed                           // the database refused a write (a unique constraint)

  /** The outcome of an operation that either returns a value or throws. */
  datatype Result<+T> = Ok(value: T) | Failure(error: Error)
}
