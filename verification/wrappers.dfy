/** Failure-compatible result types shared by every module of the model.
    `Result` stands for a Python call that either returns a value or raises. */
module Wrappers {

  /** The Python exceptions the modelled code can raise. */
  datatype Exception =
    | IndexError      // a list or array index out of range
    | ValueError      // an explicit `raise ValueError`, or numpy refusing an argument
    | KeyError        // a missing dictionary key
    | AttributeError  // an attribute read on an object that lacks it
    | LinAlgError     // numpy.linalg.solve on a singular matrix
    | NameError       // a local variable read before it was assigned
    | ZeroDivision    // a division by zero (numpy answers inf or nan instead of raising)

  datatype Option<+T> = None | Some(value: T)

  datatype Result<+T, +E> = Ok(value: T) | Err(error: E) {

    predicate IsFailure() {
      Err?
    }

    function PropagateFailure<U>(): Result<U, E>
      requires Err?
    {
      Err(error)
    }

    function Extract(): T
      requires Ok?
    {
      value
    }
  }
}
