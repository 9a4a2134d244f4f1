/** Failure-compatible result types and the Python exceptions the modelled code can raise. */
module Wrappers {

  datatype Option<+T> = None | Some(value: T) {
    function GetOr(default: T): T {
      match this
      case Some(v) => v
      case None => default
    }
  }

  /** The exceptions raised along the modelled paths. */
  datatype Error =
    | AssertionError
    | ZeroDivisionError
    | IndexError
    | KeyError
    | ValueError
    | AttributeError(message: string)
    /** `cv2.error`, raised when an OpenCV assertion on its arguments fails. */
    | OpenCvError

  datatype Result<+T> = Ok(value: T) | Err(error: Error) {
    predicate IsFailure() {
      Err?
    }

    function PropagateFailure<U>(): Result<U>
      requires Err?
    {
      Err(error)
    }

    function Extract(): T
      requires Ok?
    {
      value
    }
  }
}
