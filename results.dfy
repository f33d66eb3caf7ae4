/** Failure-carrying wrappers shared by the other modules. */
module Results {

  datatype Option<T> = None | Some(value: T)

  /** The exceptions (or hang) the code can end in. */
  datatype Error =
    | AlphabetTooSmall   // fewer than two distinct symbols: the merge loop cannot shrink the queue
    | TypeError          // an operation applied to Python's None
    | IndexError         // a string index out of range

  datatype Result<T> = Ok(value: T) | Err(error: Error)
}
