/** Success and failure values standing for the (value, error) pairs of the source. */
module Results {

  datatype Option<+T> = None | Some(value: T)

  /** `Err` carries the message of the source's error. */
  datatype Result<+T> = Ok(value: T) | Err(error: string) {
    predicate IsFailure() {
      Err?
    }

    function PropagateFailure<U>(): (r: Result<U>)
      requires Err?
    {
      Err(error)
    }

    function Extract(): T
      requires Ok?
    {
      value
    }
  }

  datatype Unit = Unit
}
