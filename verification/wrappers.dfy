/** Failure-carrying datatypes shared by every module of the model.

    The Python code signals every failure by raising: an `assert` that does
    not hold, an index past the end of a list, a missing dictionary key.  The
    scenes never catch any of them, so each one ends the render.  The model
    keeps the kind of exception and nothing else.
 */
module Wrappers {

  datatype Option<+T> = None | Some(value: T)

  /** The Python exception a failing call would raise. */
  datatype PyError =
    | AssertionFailed   // an `assert` statement whose condition is false
    | IndexError        // a list index outside the list
    | KeyError          // a VDict / dict key that is not present
    | ValueError        // e.g. `range` with a zero step, `int("x")`
    | TypeError         // e.g. `int()` of a list
    | AttributeError    // an attribute that was never assigned, or read from None
    | UnboundLocal      // a local variable read before any assignment

  datatype Result<+T> = Ok(value: T) | Err(error: PyError) {
    predicate IsFailure() { Err? }

    function PropagateFailure<U>(): Result<U>
      requires Err?
    {
      Err(error)
    }

    function Extract(): T
      requires Ok?
    {
      value
    }
  }

  /** Python's reading of index `i` into a list of length `n`: negative
      indices count from the end, anything else outside the list raises
      IndexError (here: None). */
  function NormIndex(n: nat, i: int): (r: Option<nat>)
    ensures r.Some? <==> -(n as int) <= i < n
    ensures r.Some? ==> r.value < n
    ensures r.Some? && i >= 0 ==> r.value == i
    ensures r.Some? && i < 0 ==> r.value == n + i
  {
    if 0 <= i < n then Some(i)
    else if -(n as int) <= i < 0 then Some((n + i) as nat)
    else None
  }
}
