/** The outcomes the concepts report: the error classes they throw
    (`NotFoundError`, `NotAllowedError` and its subclass `UnsatisfiedError`)
    and wrappers for results that may fail. */
module Errors {

  datatype Error =
    | NotFound
    | NotAllowed
      /** `UnsatisfiedError(attributeName, values)`, a kind of `NotAllowedError` */
    | Unsatisfied(attributeName: string, values: seq<string>)
  {
    /** True for `NotAllowedError` and its subclasses. */
    predicate IsNotAllowed() {
      NotAllowed? || Unsatisfied?
    }
  }

  datatype Option<T> = None | Some(value: T)

  /** The value an operation returns, or the error it throws. */
  datatype Result<T> = Ok(value: T) | Err(error: Error)

  /** An operation that returns no value of interest, or throws. */
  datatype Outcome = Pass | Fail(error: Error)
}
