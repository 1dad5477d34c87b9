/** Failure-carrying results: the Java exceptions the core raises or lets escape. */
module Wrappers {

  datatype Option<+T> = None | Some(value: T)

  /** The exception classes that can leave the modelled operations. */
  datatype Exc =
    | LastError            // com.sun.jna.LastErrorException: a native call returned -1
    | TransferFailed       // RuntimeException "Read/Write memory failed at address ..."
    | IllegalState         // IllegalStateException
    | UnsupportedOperation // UnsupportedOperationException
    | IndexOutOfBounds     // ArrayIndexOutOfBounds- or StringIndexOutOfBoundsException

  /** A value, or the exception thrown instead of returning it. */
  datatype Result<+T> = Ok(value: T) | Err(error: Exc)

  /** Completion of a call whose Java result is `void` or `this`. */
  datatype Outcome = Done | Failed(error: Exc)
}
