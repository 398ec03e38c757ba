/** Error values for the exceptions the merger raises, and a result type that carries them. */
module Outcomes {

  /** The exceptions the core raises, by kind. */
  datatype Error =
    | ParseError(message: string)        // ParseException
    | SliceOutOfRange                    // ArgumentOutOfRangeException from slicing a short text
    | GeneralError(message: string)      // a plain Exception

  /** The message of the ParseException raised when no timestamp can be located in an entry. */
  function UnableToFind(entry: string): string {
    "Unable to find time in log entry: '" + entry + "'."
  }

  /** The message of the ParseException raised when located timestamp text does not parse. */
  function UnableToParse(text: string): string {
    "Unable to parse time in log entry: '" + text + "'."
  }

  datatype Result<+T> = Ok(value: T) | Err(error: Error) {
    predicate IsFailure() { Err? }

    function PropagateFailure<U>(): Result<U>
      requires Err?
    {
      Err(error)
    }

    function Extract(): T
      requires Ok?
    {
      value
    }
  }

  datatype Option<+T> = None | Some(value: T)
}
