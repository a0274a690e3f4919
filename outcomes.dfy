/** Values the NCF inference handler passes between its stages, and the
    exceptions it can raise, as failure-compatible datatypes. */
module Outcomes {

  datatype Option<+T> = None | Some(value: T)

  /** The exceptions the handler can raise, one constructor for each raise site the model keeps. */
  datatype Error =
    | UnsupportedContentType(message: string)  // ValueError raised by _process_input
    | ItemNotInList                            // ValueError raised by list.index(1)
    | UpstreamFailure(message: string)         // ValueError raised by _process_output
    | EmptyPredictionRow                       // IndexError raised by p[0]

  /** A value, or the exception that took its place. */
  datatype Result<+T> = Success(value: T) | Failure(error: Error) {

    predicate IsFailure() {
      Failure?
    }

    function PropagateFailure<U>(): Result<U>
      requires Failure?
    {
      Failure(error)
    }

    function Extract(): T
      requires Success?
    {
      value
    }
  }
}
