/** Failure-carrying results shared by the G-code and detection modules. */
module Wrappers {

  datatype Option<+T> = None | Some(value: T)

  /** Why a Python-level operation of the program would raise instead of returning. */
  datatype Error =
    | ValueError(text: string)   // `float(...)` could not read the text
    | IndexError                 // a list or string index past its end
    | ShapeError                 // numpy could not broadcast one column onto another

  datatype Result<+T> = Ok(value: T) | Err(error: Error) {
    predicate IsFailure() { Err? }
    function PropagateFailure<U>(): Result<U>
      requires Err?
    {
      Err(error)
    }
    function Extract(): T
      requires Ok?
    {
      value
    }
  }
}
