/** Optional values and results that carry a Python exception. */
module Results {
  datatype Option<+T> = None | Some(value: T)

  /** What a call did: returned, or raised. Failure-compatible, so `:-` propagates the exception. */
  datatype Outcome<+T, +E> = Ok(value: T) | Raised(error: E)
  {
    predicate IsFailure() { Raised? }

    function PropagateFailure<U>(): Outcome<U, E>
      requires Raised?
    {
      Raised(error)
    }

    function Extract(): T
      requires Ok?
    {
      value
    }

    function ToOption(): Option<T>
    {
      if Ok? then Some(value) else None
    }
  }
}
