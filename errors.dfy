/** Failure-compatible result types shared by the whole model. Each Python
    exception the modelled code can raise becomes one constructor of Error. */
module Errors {

  /** The exceptions raised by NIRScanNano and by the library calls it makes. */
  datatype Error =
    | DimensionError   // NIRScanNano's own exception for misaligned data
    | IndexError       // indexing an empty list
    | KeyError         // missing mapping key or DataFrame column
    | ValueError       // numpy/sklearn shape errors, bad float literals, empty separator
    | TypeError        // polyfit input errors, indexing or item assignment on None
    | AttributeError   // calling a method on None
    | StopIteration    // reading past the end of a file
    | NotFittedError   // using a PCA estimator before fitting it

  datatype Option<+T> = None | Some(value: T)

  datatype Result<+T> = Ok(value: T) | Err(error: Error) {
    predicate IsFailure() { Err? }

    function PropagateFailure<U>(): Result<U>
      requires Err?
    {
      Err(error)
    }

    function Extract(): T
      requires Ok?
    {
      value
    }
  }

  /** The result of an operation that returns nothing but may raise. */
  datatype Outcome = Pass | Fail(error: Error)
}
