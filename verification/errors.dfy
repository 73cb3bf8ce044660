/** Failures raised while building a distance matrix, and the exact text
    each one carries when it escapes the library as an exception. */
module Errors {

  datatype Error =
    | EmptySequence      // no sequences, or the first one is empty
    | LengthMismatch     // sequences of differing lengths
    | DistanceOverflow   // a pair's distance exceeds the accumulator type
    | MalformedNumber    // std::stoi rejected a field of a matrix file

  /** The `what()` text of the exception raised for `e`. */
  function Message(e: Error): string {
    match e
    case EmptySequence => "Error: Empty sequence"
    case LengthMismatch => "Error: Sequences do not all have the same length"
    case DistanceOverflow => "Error: Distance is too large for chosen integer type"
    case MalformedNumber => "stoi"
  }

  /** Distinct failures are reported with distinct messages. */
  lemma MessagesDistinguish(e1: Error, e2: Error)
    ensures Message(e1) == Message(e2) <==> e1 == e2
  {
    if e1 != e2 {
      // the four messages have four different lengths
      assert |Message(e1)| != |Message(e2)|;
    }
  }

  /** A value, or the failure that aborted its construction. */
  datatype Result<+T> = Ok(value: T) | Err(error: Error) {
    predicate IsFailure() { Err? }

    function PropagateFailure<U>(): Result<U>
      requires Err?
    {
      Err(error)
    }

    function Extract(): T
      requires Ok?
    {
      value
    }
  }

  /** The verdict of a check that produces no value. */
  datatype Outcome = Pass | Fail(error: Error)
}
