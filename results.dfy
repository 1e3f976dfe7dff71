/** Outcomes of the scripts' operations: a value, or the Python exception that
    the script would raise instead. */
module Results {

  /** The exceptions the modelled Python code can raise on bad input. */
  datatype Error =
    | IndexError   // a list or string index out of range
    | NameError    // a loop variable read although the loop never ran
    | ValueError   // float() applied to a token that is not a number

  datatype Option<+T> = None | Some(value: T)

  datatype Result<+T> = Ok(value: T) | Err(error: Error) {
    predicate IsFailure() { Err? }

    function PropagateFailure<U>(): Result<U>
      requires Err?
    {
      Err(error)
    }

    function Extract(): T
      requires Ok?
    {
      value
    }
  }
}
