/** Failure-carrying wrappers shared by the whole model.

    The Python code signals "nothing" with `None` and signals an unhandled
    problem by raising; both are made explicit here. */
module Common {

  /** Python's optional value: `None` or a present value. */
  datatype Option<+T> = None | Some(value: T) {

    /** The value, or `default` when absent (Python's `getattr(x, f, default)`
        and `dict.get(k, default)`). */
    function ValueOr(default: T): T {
      match this
      case Some(v) => v
      case None => default
    }
  }

  /** The exceptions that escape the modelled functions (none of them is caught
      by the code that raises it). */
  datatype Failure =
    | MissingEntryAttribute   // `entry.title` / `entry.link` on an entry lacking it
    | UnformattableValue      // `{x:.2f}` applied to a non-numeric JSON value

  /** Either a value or the exception that aborted the computation. */
  datatype Result<+T> = Ok(value: T) | Err(error: Failure)

  function Min(a: int, b: int): int { if a <= b then a else b }
  function Max(a: int, b: int): int { if a <= b then b else a }
}
