/** Values shared by every module: optional values, results with an error message,
    and bytes. */
module Base {

  datatype Option<+T> = None | Some(value: T)

  /** The outcome of a collaborator call that can fail with a message. */
  datatype Result<+T> = Success(value: T) | Failure(error: string)

  newtype byte = x: int | 0 <= x < 256
}
