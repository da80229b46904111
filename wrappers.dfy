/** Small failure-carrying datatypes shared by the other modules. */
module Wrappers {

  datatype Option<+T> = None | Some(value: T)

  datatype Result<+R, +E> = Success(value: R) | Failure(error: E)

  /** The outcome of one call into the operating-system library: either it
      returned a value or it raised an exception. */
  datatype Probe<+T> = Got(value: T) | Raised

  /** An HTTP error as raised through the web framework: a status code and a detail text. */
  datatype HttpError = HttpError(status: int, detail: string)
}
