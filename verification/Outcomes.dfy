/** Results shared by the components that can refuse their input. */
module Outcomes {

  /** The compiler reports every refusal as the same exception type; only its text differs. */
  datatype Outcome<+T> = Accepted(value: T) | Rejected {
    predicate IsFailure() {
      Rejected?
    }

    function PropagateFailure<U>(): Outcome<U>
      requires Rejected?
    {
      Rejected
    }

    function Extract(): T
      requires Accepted?
    {
      value
    }
  }

  datatype Option<+T> = None | Some(value: T)
}
