/** Option and the failure-compatible result types shared by the whole model. */
module Wrappers {

  datatype Option<+T> = None | Some(value: T) {
    /** The value held, or `fallback` when there is none. */
    function GetOr(fallback: T): T {
      match this
      case Some(v) => v
      case None => fallback
    }
  }

  /** How a conversion can end without a result. */
  datatype Failure =
      /** NotationDataError: the document is MusicXML but some element breaks a requirement. */
    | DataError(message: string)
      /** Any other exception escaping the converter (KeyError, TypeError, AttributeError,
          IndexError, NotImplementedError, or the ValueError the emitters raise). */
    | InternalError(message: string)

  datatype Result<+T> = Ok(value: T) | Err(failure: Failure) {
    predicate IsFailure() {
      Err?
    }

    function PropagateFailure<U>(): Result<U>
      requires Err?
    {
      Err(failure)
    }

    function Extract(): T
      requires Ok?
    {
      value
    }
  }
}
