/** Failure-carrying results shared by every module of the model. */
module Wrappers {

  /** `Option` of the source: `None` when a constructor rejects its arguments. */
  datatype Option<+T> = None | Some(value: T)

  /** The kinds of recoverable failure the library reports (the source reports them as strings). */
  datatype Error =
    | DimensionMismatch          // operands of different dimension
    | NotSquare                  // determinant of a non-square matrix
    | Not2x2                     // a 2x2-only operation on another shape
    | ZeroNorm                   // normalizing a vector of norm zero
    | NoContext                  // drawing or animating an object without a context
    | OutOfBounds                // attaching an object the context cannot contain
    | ContextMismatch            // adding two objects bound to different contexts
    | FrameGenerationFailed(completed: nat, total: nat)
    | FrameCounterNotIncreasing  // the frame counter commit was refused
    | InvalidRange               // an axis range whose start is not below its end

  datatype Result<+T> = Ok(value: T) | Err(error: Error)

  /** `Result<(), _>` of the source. */
  datatype Outcome = Pass | Fail(error: Error)
}
