/** Failure values of the backend shim and the failure-compatible result type
    through which every modelled operation reports them. */
module Errors {

  /** The conditions under which an operation raises instead of returning. */
  datatype Error =
    | RankNotSupported          // "ndim=3, 4 or 5" ValueError of the layout and dispatch code
    | BadTuple                  // ValueError of the tuple-standardisation helper
    | ChannelsNotDivisible      // conv: channels not a multiple of kernel.shape[1]
    | ShapeMismatch             // losses: target and output shapes disagree
    | RankTooLow                // losses: rank below 1
    | IndexOutOfRange           // a Python IndexError on a shape lookup
    | DivisionByZero            // a Python ZeroDivisionError
    | AxisOutOfRange            // the engine rejects a dimension index
    | EmptyReduction            // the engine rejects a maximum over an empty dimension
    | SynchronizedNotSupported  // moments: NotImplementedError

  datatype Option<+T> = None | Some(value: T)

  datatype Result<+T> = Ok(value: T) | Err(error: Error) {
    predicate IsFailure() { Err? }

    function PropagateFailure<U>(): Result<U>
      requires Err?
    {
      Err(error)
    }

    function Extract(): T
      requires Ok?
    {
      value
    }
  }
}
