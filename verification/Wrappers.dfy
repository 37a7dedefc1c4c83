/** Failure-compatible result types shared by the codecs. */
module Wrappers {

  datatype Option<+T> = None | Some(value: T)

  /** Result of a Go function returning `(T, error)`; the error text is not modelled. */
  datatype Result<+T> = Err | Ok(value: T) {
    predicate IsFailure() {
      Err?
    }

    function PropagateFailure<U>(): Result<U>
      requires Err?
    {
      Err
    }

    function Extract(): T
      requires Ok?
    {
      value
    }
  }
}
