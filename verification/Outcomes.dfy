// What comes of an operation: a value, an error that it reports, or nothing at
// all, because it never returns or violates an assertion.
module Outcomes {
  datatype Outcome<+T> = Done(value: T) | Failed | Stuck
  {
    /** The same lack of a value, of another type. */
    function Propagate<U>(): Outcome<U>
      requires !Done?
    {
      if Failed? then Failed else Stuck
    }
  }
}
