/** A value that may be absent: Python's `None`, or the outcome of a check that may fail. */
module Wrappers {

  datatype Option<+T> = None | Some(value: T) {
    predicate IsFailure() { None? }

    function PropagateFailure<U>(): Option<U>
      requires None?
    {
      None
    }

    function Extract(): T
      requires Some?
    {
      value
    }
  }

  /** `s or ""`. */
  function OrEmpty(s: Option<string>): string { if s.Some? then s.value else "" }

  datatype Check = Passed | Failed {
    predicate IsFailure() { Failed? }

    function PropagateFailure<U>(): Option<U>
      requires Failed?
    {
      None
    }
  }

  /** `:- Need(p)` gives up where the program raises an error. */
  function Need(p: bool): Check {
    if p then Passed else Failed
  }
}
