/** Failure-compatible result types shared by the models. */
module Wrappers {

  /** The std::optional of the source. */
  datatype Option<+T> = None | Some(value: T)

  /** The error codes of CaptureError that the modelled operations can raise. */
  datatype ErrorCode =
    | ValidationFailed
    | SourceStreamFailure
    | BackendFailure
    | AlignmentFailed
    | UnsupportedFormat
    | UnsupportedBitDepth
    | UnsupportedSampleRate
    | WavRead
    | WavWrite

  /** A value, or the code of the CaptureError that was thrown instead. */
  datatype Result<+T> = Ok(value: T) | Err(error: ErrorCode)
}
