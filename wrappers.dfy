/** Option and Result, and the exceptions the modelled Python code can raise. */
module Wrappers {

  datatype Option<+T> = None | Some(value: T)

  /** The Python exceptions the codec and the databases raise, as values.
      NoTermination stands for a loop of the source that never ends: the
      model reports it where the source would spin forever. */
  datatype Exception =
    | ValueError(reason: string)
    | IndexError
    | OverflowError
    | TypeError
    | AttributeError
    | KeyError
    | NoTermination

  /** A computation that either produces a value or raises. */
  datatype Result<+T> = Ok(value: T) | Err(error: Exception) {

    predicate IsFailure() {
      Err?
    }

    function PropagateFailure<U>(): Result<U>
      requires Err?
    {
      Err(error)
    }

    function Extract(): T
      requires Ok?
    {
      value
    }
  }
}
