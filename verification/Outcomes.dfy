/** Values a computation may fail to produce. */
module Outcomes {

  datatype Option<+T> = None | Some(value: T)

  /** What the program computes, or its refusal in place of a thrown error. */
  datatype Result<+T, +E> = Ok(value: T) | Refused(why: E) {
    predicate IsFailure() {
      Refused?
    }

    function PropagateFailure<U>(): Result<U, E>
      requires Refused?
    {
      Refused(why)
    }

    function Extract(): T
      requires Ok?
    {
      value
    }
  }
}
