/** Option and Result, the failure-carrying values every fallible operation returns.
    An `Err` stands for the exception (`error(...)`, `!!`, a failed cast, `single`)
    that aborts the whole request in the source. */
module Wrappers {

  datatype Option<+T> = None | Some(value: T)

  datatype Result<+T> = Ok(value: T) | Err(message: string) {
    predicate IsFailure() {
      Err?
    }

    function PropagateFailure<U>(): Result<U>
      requires Err?
    {
      Err(message)
    }

    function Extract(): T
      requires Ok?
    {
      value
    }
  }
}
