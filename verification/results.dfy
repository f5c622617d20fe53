/** Option, Result and the error values of the DNA string library. */
module Results {

  /** A value that may be absent, like a Python argument left at `None`. */
  datatype Option<+T> = None | Some(value: T) {

    /** The value, or `default` when absent. */
    function GetOr(default: T): T {
      match this
      case Some(v) => v
      case None => default
    }
  }

  /** The exceptions the library raises, one constructor per kind. */
  datatype Error =
    | NonDnaText                    // single sequence: text with a character outside the alphabet
    | NonDnaSequence(position: nat) // bulk construction: the first input that fails validation
    | IndexOutOfRange(key: int)     // integer access outside the collection
    | RangesLengthMismatch          // range directory given start, width and name lists of different lengths
    | TextJoinedAsBytes             // a bytes separator asked to join decoded text (a type error)

  /** Either a value or the error that was raised instead; usable with `:-`. */
  datatype Result<+T> = Ok(value: T) | Err(error: Error) {

    predicate IsFailure() {
      Err?
    }

    function PropagateFailure<U>(): Result<U>
      requires Err?
    {
      Err(error)
    }

    function Extract(): T
      requires Ok?
    {
      value
    }
  }
}
