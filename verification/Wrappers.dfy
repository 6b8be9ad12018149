/** The option and result types shared by the model. */
module Wrappers {

  /** The source's `Option`. */
  datatype Option<+T> = None | Some(value: T)

  /** The source's `Result`; what the error says is not part of the model. */
  datatype Result<+T> = Ok(value: T) | Err {
    predicate IsFailure() {
      Err?
    }

    function PropagateFailure<U>(): Result<U>
      requires Err?
    {
      Err
    }

    function Extract(): T
      requires Ok?
    {
      value
    }
  }
}
