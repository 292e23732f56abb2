/** Failure-compatible wrappers shared by every module of the model. */
module Wrappers {

  /** A Java reference that may be `null`. */
  datatype Option<+T> = None | Some(value: T) {
    predicate IsFailure() { None? }

    function PropagateFailure<U>(): Option<U>
      requires None?
    {
      None
    }

    function Extract(): T
      requires Some?
    {
      value
    }

    function GetOr(default: T): T {
      if Some? then value else default
    }
  }

  /** The unchecked Java exceptions the modelled code raises and does not catch. */
  datatype Exn = NullPointer | ClassCast | IllegalArgument | Arithmetic

  /**
   * What running a piece of the checker yields: a value, an exception that escapes it,
   * or no answer at all: a loop over a cyclic model that never ends, or a recursion over
   * one that only stops when the Java stack overflows (`StackOverflowError`).
   */
  datatype Outcome<+T> = Ok(value: T) | Throws(exn: Exn) | Diverges {
    predicate IsFailure() { !Ok? }

    function PropagateFailure<U>(): Outcome<U>
      requires !Ok?
    {
      if Throws? then Throws(exn) else Diverges
    }

    function Extract(): T
      requires Ok?
    {
      value
    }
  }
}
