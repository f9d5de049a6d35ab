/** Failure kinds of the solver core and the result type that carries them.

    The first four kinds are the exception classes of the error-handling module;
    `SingularMatrix` is the linear-algebra failure of inverting a singular design
    matrix. The last three stand for Python runtime failures that the source
    reaches on some inputs without raising one of its own exceptions. */
module Errors {

  datatype Error =
    | InsufficientData   // a required measurement (TDoA) is missing
    | UnknownCase        // configuration or vector format outside every defined case
    | NotImplemented     // recognised configuration whose algorithm is not written
    | InvalidSolution    // a solution fails the reference-consistency check
    | SingularMatrix     // the 3x3 design matrix has no inverse
    | UnboundName        // a local or attribute read before any assignment
    | IndexOutOfRange    // an index past the end: element 0 of an empty list, or root i when there are fewer roots than solutions
    | ShapeMismatch      // a matrix product whose inner dimensions disagree

  /** Either a value or the error raised while computing it. */
  datatype Result<T> = Ok(value: T) | Err(error: Error) {

    predicate IsFailure() {
      Err?
    }

    function PropagateFailure<U>(): Result<U>
      requires Err?
    {
      Err(error)
    }

    function Extract(): T
      requires Ok?
    {
      value
    }
  }

  datatype Option<T> = None | Some(value: T)
}
