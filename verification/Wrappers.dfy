/** Failure-compatible values shared by the other modules. */
module Wrappers {

  datatype Option<+T> = None | Some(value: T)

  datatype Result<+T, +E> = Success(value: T) | Failure(error: E) {
    predicate IsFailure() {
      Failure?
    }

    function PropagateFailure<U>(): Result<U, E>
      requires Failure?
    {
      Failure(error)
    }

    function Extract(): T
      requires Success?
    {
      value
    }
  }

  /** The outcome of a run-time assertion: `:- Check(condition, site);` stops with the site that failed. */
  datatype Checked<+E> = Holds | Fails(error: E) {
    predicate IsFailure() {
      Fails?
    }

    function PropagateFailure<U>(): Result<U, E>
      requires Fails?
    {
      Failure(error)
    }
  }

  function Check<E>(condition: bool, site: E): Checked<E> {
    if condition then Holds else Fails(site)
  }
}
