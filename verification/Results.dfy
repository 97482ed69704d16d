/** The outcome of decoding. */
module Results {
  /** Underrun: the input ends too early. Malformed: a field has a value that the decoder does not accept. */
  datatype Error = Underrun | Malformed

  datatype Result<+T> = Ok(value: T) | Err(error: Error) {
    predicate IsFailure() {
      Err?
    }

    function PropagateFailure<U>(): Result<U>
      requires Err?
    {
      Err(error)
    }

    function Extract(): T
      requires Ok?
    {
      value
    }
  }
}
