/** Optional values and the outcome of an operation that can raise. */
module Results {

  datatype Option<+T> = None | Some(value: T)

  /** `Fail` stands for an exception the source raises (a failed `assert`, a
      `KeyError`, a `ValueError`): the whole plugin stops with no output. */
  datatype Result<+T> = Ok(value: T) | Fail(reason: string) {

    predicate IsFailure() {
      Fail?
    }

    function PropagateFailure<U>(): Result<U>
      requires Fail?
    {
      Fail(reason)
    }

    function Extract(): T
      requires Ok?
    {
      value
    }
  }
}
