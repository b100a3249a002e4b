/** Error codes and positions reported by the decoder, and the `Result` type its operations return. */
module Errors {

  datatype Option<+T> = None | Some(value: T)

  /** The error codes the modelled decoder paths can raise; decoders of kinds outside the model may raise any `Other` code. */
  datatype ErrorCode =
    | UnexpectedEndOfFile
    | InvalidType
    | NumberOutOfRange
    | Other(code: nat)

  /** An error: its code and, when the decoder knows it, the `pos` at which it was detected. */
  datatype Error = Error(code: ErrorCode, pos: Option<nat>)

  datatype Result<+T> = Ok(value: T) | Err(error: Error)

  /** What the reader reports when fewer bytes remain than were asked for. The reader does not know the decoder's `pos`. */
  function EndOfFile(): Error {
    Error(UnexpectedEndOfFile, None)
  }
}
