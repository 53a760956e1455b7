/** Success or failure of one step of `calculate_streaks`. */
module Wrappers {

  /** `Some(v)`: the step produced `v`. `None`: the step raised, and the
      calculation falls back to its zero result. The three members below
      make `:-` return at the first `None`. */
  datatype Option<T> = None | Some(value: T) {

    predicate IsFailure() {
      !Some?
    }

    function PropagateFailure<U>(): Option<U>
      requires !Some?
    {
      None
    }

    function Extract(): T
      requires Some?
    {
      value
    }
  }
}
