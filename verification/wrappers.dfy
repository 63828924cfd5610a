/** Option and Result, the two failure-compatible wrappers used across the model. */
module Wrappers {

  datatype Option<+T> = None | Some(value: T) {

    predicate IsFailure() {
      None?
    }

    function PropagateFailure<U>(): Option<U>
      requires None?
    {
      None
    }

    function Extract(): T
      requires Some?
    {
      value
    }

    /** Python's `d.get(k, default)`: the value when present, otherwise the default. */
    function GetOr(default: T): T {
      match this
      case Some(v) => v
      case None => default
    }
  }

  datatype Result<+T, +E> = Ok(value: T) | Err(error: E) {

    predicate IsFailure() {
      Err?
    }

    function PropagateFailure<U>(): Result<U, E>
      requires Err?
    {
      Err(error)
    }

    function Extract(): T
      requires Ok?
    {
      value
    }
  }
}

/**
 * The causes of a failed run. The program raises a single processing-error
 * type carrying a message; the model keeps the cause that message describes.
 */
module Failures {

  datatype Failure =
    | UnknownBook(name: string)                                   // KeyError on the layout table
    | LineLengthMismatch(line: nat, actual: nat, expected: nat)   // fixed-width gate; actual counts the terminator
    | FileMissing                                                 // FileNotFoundError
    | NotANumber(text: string)                                    // ValueError from int() or float()
    | MissingField(number: nat)                                   // KeyError while summing (legacy engine)
    | MissingBook                                                 // TypeError: arithmetic on None (legacy engine)
    | UnboundDecimalIndex                                         // UnboundLocalError (legacy decoder)
    | LineCountMismatch(difference: nat, first: nat, second: nat)
    | MalformedDifference                                         // ValueError: not a 3-tuple
    | NoneOperand                                                 // TypeError: None used as text while patching
    | LineOutOfRange(index: int)                                  // IndexError (legacy patcher)
    | EmptyDocument                                               // IndexError: first character of ""
    | PositionOutOfRange(position: nat)                            // IndexError: single position past the line (legacy decoder)
}
