/** Python exceptions as values.

    Every routine of the toolkit either returns a value or raises one of a small
    set of Python exceptions. The model returns a `Result`: `Ok(v)` for a normal
    return, `Err(e)` for a raise, with `e` naming the exception class that the
    Python code would raise (the message text is not modelled, except where it
    carries the missing key or attribute).
 */
module Errors {

  /** The exception classes the modelled code can raise. */
  datatype PyError =
    | ValueError
    | KeyError(key: string)
    | IndexError
    | TypeError
    | ZeroDivisionError
    | OverflowError
    | NotImplementedError
    | AttributeError(name: string)
    | UnboundLocalError(name: string)
      /** ValueError subclasses of the htcondor utilities, carrying the offending line. */
    | SchedulerInformationParseError(line: string)
    | ClusterSummaryParseError(line: string)

  datatype Result<+T> = Ok(value: T) | Err(error: PyError) {

    predicate IsFailure() {
      Err?
    }

    function PropagateFailure<U>(): Result<U>
      requires Err?
    {
      Err(error)
    }

    function Extract(): T
      requires Ok?
    {
      value
    }
  }

  datatype Option<+T> = None | Some(value: T) {

    predicate IsFailure() {
      None?
    }

    function PropagateFailure<U>(): Option<U>
      requires None?
    {
      None
    }

    function Extract(): T
      requires Some?
    {
      value
    }

    /** `dict.get(key, default)`-style access. */
    function GetOr(default: T): T {
      if Some? then value else default
    }
  }

  /** `Ok(v)` when `c` holds, otherwise the raise `e`. */
  function Need(c: bool, e: PyError): (r: Result<()>)
    ensures r.Ok? <==> c
    ensures r.Err? ==> r.error == e
  {
    if c then Ok(()) else Err(e)
  }

  /** Python's `list[i]`: negative indices count from the end, anything outside
      `-|s| .. |s|-1` raises IndexError. */
  function PyIndex<T>(s: seq<T>, i: int): (r: Result<T>)
    ensures r.Ok? <==> -|s| <= i < |s|
    ensures 0 <= i < |s| ==> r == Ok(s[i])
    ensures -|s| <= i < 0 ==> r == Ok(s[|s| + i])
    ensures r.Err? ==> r.error == IndexError
  {
    if 0 <= i < |s| then Ok(s[i])
    else if -|s| <= i < 0 then Ok(s[|s| + i])
    else Err(IndexError)
  }
}
