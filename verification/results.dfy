/** Failure-carrying values shared by every module of the writer model. */
module Results {

  /** A value that may be absent: `undefined` in the source. */
  datatype Option<+T> = None | Some(value: T)

  /** A computation that either produced a value or raised an error before changing anything. */
  datatype Result<+T, +E> = Ok(value: T) | Err(error: E) {
    predicate IsFailure() {
      Err?
    }

    function PropagateFailure<U>(): Result<U, E>
      requires Err?
    {
      Err(error)
    }

    function Extract(): T
      requires Ok?
    {
      value
    }
  }

  /** The errors the writer raises, one per `throw` site of the source. */
  datatype Error =
    | NegativeIndentation        // an indentation level below zero
    | NotSpacesOrTabs            // an indentation string holding something other than spaces and tabs
    | NotStringOrNumber          // an indentation argument that is neither a number nor a string
    | PositionBelowZero          // unsafeInsert: position less than zero
    | PositionAboveLength        // unsafeInsert: position greater than the text length
    | UnhandledInsert            // unsafeInsert: fragment search found nothing
    | InvalidTimes               // es5StringRepeat: negative count
    | InvalidCount               // String.prototype.repeat: negative count (a RangeError)
}
