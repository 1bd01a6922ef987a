/** Failure-carrying results for the grading harness.

    The harness is Python: a failed lookup yields `None`, and the errors it
    does not catch (a `KeyError`, a `TypeError` from comparing `None` with a
    number, an `UnboundLocalError` from a misspelled local) end the run. Those
    uncaught exceptions become the `Err` side of `Result`.
 */
module Outcomes {

  /** Python's `None` / a present value. */
  datatype Option<+T> = None | Some(value: T)

  /** The uncaught Python exceptions the harness can raise. */
  datatype PyError =
    | KeyError(key: string)
    | TypeError
    | UnboundLocalError(name: string)

  /** Either the value a harness function returns, or the exception it raises. */
  datatype Result<+T> = Ok(value: T) | Err(error: PyError)

  /** Python adds booleans as the integers 0 and 1. */
  function BoolToNat(b: bool): nat
  {
    if b then 1 else 0
  }
}
