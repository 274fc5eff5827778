/** Failure-carrying results shared by every component of the model. */
module Wrappers {

  /** A value that may be absent; also stands for JavaScript's `null`. */
  datatype Option<+T> = None | Some(value: T)

  /**
   * The outcome of an operation that the source either completes or aborts
   * by throwing; `msg` is the thrown message (or the JavaScript error kind,
   * such as "TypeError", when the runtime throws on its own).  The three
   * members let `:-` pass a throw on to the caller.
   */
  datatype Result<+T> = Ok(value: T) | Err(msg: string)
  {
    predicate IsFailure()
    {
      Err?
    }

    function PropagateFailure<U>(): Result<U>
      requires Err?
    {
      Err(msg)
    }

    function Extract(): T
      requires Ok?
    {
      value
    }
  }
}
