/** The two result shapes of the modelled code: an absent value, and a call that may throw. */
module Options {
  /** `undefined` / `null`, or a value. */
  datatype Option<+T> = None | Some(value: T) {
    function Or(default: T): T {
      if Some? then value else default
    }
  }

  /** A call that throws, or returns. */
  datatype Attempt<+T> = Threw | Returned(value: T) {
    function Or(default: T): T {
      if Returned? then value else default
    }
    predicate IsFailure() { Threw? }
    function PropagateFailure<U>(): Attempt<U>
      requires Threw?
    {
      Threw
    }
    function Extract(): T
      requires Returned?
    {
      value
    }
  }
}
