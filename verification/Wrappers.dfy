/** The failure type the other modules share. */
module Wrappers {

  /** Some value, or nothing; usable with `:-`. */
  datatype Option<+T> = None | Some(value: T) {
    predicate IsFailure() {
      None?
    }

    function PropagateFailure<U>(): Option<U>
      requires None?
    {
      None
    }

    function UnwrapOr(default: T): T {
      if Some? then value else default
    }

    function Extract(): T
      requires Some?
    {
      value
    }
  }
}
