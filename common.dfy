/** Option, Result and the exceptions the service lets escape to its caller. */
module Common {

  datatype Option<T> = None | Some(value: T)

  /** A call either returns a value or raises one of the errors below. */
  datatype Result<T> = Success(value: T) | Failure(error: Error) {
    predicate IsFailure() { Failure? }

    function PropagateFailure<U>(): Result<U>
      requires Failure?
    {
      Failure(error)
    }

    function Extract(): T
      requires Success?
    {
      value
    }
  }

  /** The exceptions raised by the implementation, by kind. */
  datatype Error =
    | NotFound(ref: string)            // the workspace has nothing stored under ref
    | KeyError(key: string)            // a dict subscript on a missing key
    | InvalidReference(ref: string)    // ValueError: the reference has not 2 or 3 '/'-pieces
    | NotAnInteger(text: string)       // ValueError raised by int()
    | ReturnTypeError(operation: string) // the generated isinstance check on a return value
    | StrKeywordError                  // TypeError: str() given the keyword no_data
}
