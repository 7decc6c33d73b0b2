/** Failure-compatible result types shared by the model. */
module Wrappers {

  datatype Option<+T> = None | Some(value: T)

  /** The exceptions the backend can raise out of the modelled computations. */
  datatype Fault =
    | ZeroDivision   // Python's ZeroDivisionError on a float division by 0.0
    | DataNotLoaded  // the daily dataset failed to load at start-up

  datatype Result<+T> = Ok(value: T) | Err(fault: Fault) {

    predicate IsFailure() {
      Err?
    }

    function PropagateFailure<U>(): Result<U>
      requires Err?
    {
      Err(fault)
    }

    function Extract(): T
      requires Ok?
    {
      value
    }
  }
}
