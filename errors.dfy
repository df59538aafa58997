/** Failure-carrying values shared by the helpers of GPflow/misc.py.
    The Python code raises exceptions; here each raise is a value. */
module Errors {

  /** A lookup that may find nothing (Python's `None` sentinel). */
  datatype Option<+T> = None | Some(value: T)

  /** A computation that either yields a value or raises. */
  datatype Result<+T, +E> = Ok(value: T) | Err(error: E)

  /** A computation with no result that either completes or raises. */
  datatype Outcome<+E> = Pass | Fail(error: E)

  /** The conditions the helpers raise, by kind (message text is not modelled). */
  datatype Error =
    | AmbiguousTensor(name: string)  // ValueError: both "name:0" and "name:1" exist
    | NotInTrainables                 // GPflowError: removing a variable that is not a member
    | UnknownDtype                    // ValueError: element type neither float nor int
    | ShapeMismatch                   // raised by the framework's scatter when M != N(N+1)/2
}
