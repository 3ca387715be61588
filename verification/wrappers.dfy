/** Option and Result, the failure-carrying datatypes every other module uses. */
module Wrappers {

  datatype Option<+T> = None | Some(value: T) {

    /** The wrapped value, or `default` when there is none. */
    function GetOr(default: T): T {
      match this
      case Some(v) => v
      case None => default
    }
  }

  /** The ways a Python routine of the pipeline can raise instead of returning. */
  datatype Error =
    | MalformedLine(index: nat)       // json.loads raised on a queue line read without a guard
    | MissingKey(key: string)         // subscription of a dict with an absent key (KeyError)
    | NotAnObject                     // subscription or .append on a value of the wrong JSON type
    | Unhashable                      // an unhashable value used as a set element
    | BadField(field: string)         // a value that cannot be unpacked or parsed (ValueError)
    | NoneValue(what: string)         // an operation applied to Python's None (TypeError)

  datatype Result<+R> = Success(value: R) | Failure(error: Error) {

    predicate IsFailure() {
      Failure?
    }

    function PropagateFailure<U>(): Result<U>
      requires Failure?
    {
      Failure(error)
    }

    function Extract(): R
      requires Success?
    {
      value
    }
  }
}
