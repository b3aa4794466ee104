/** Outcomes of the mode engines. Each error is the Python exception the
    source raises in that situation. */
module Errors {

  datatype Error =
    | AssertionFailed  // a failed `assert` (coordinates that are not 1-D)
    | ZeroDivision     // ZeroDivisionError from Python float division
    | ValueError       // a negative mode order, or numpy shapes that do not broadcast
    | TypeError        // len() of a 0-d array

  datatype Result<+T> = Ok(value: T) | Err(error: Error)

  datatype Option<+T> = None | Some(value: T)
}
