/** Option and Result types shared by the whole model. `Raised` stands for a
    Python exception of any kind. Where a handler catches only some kinds,
    the model keeps those kinds apart: the Overpass fetcher's answers tell
    a timeout, an HTTP error and another request failure apart, and
    `int(...)` and `json.loads` are None exactly where they raise the
    `ValueError` or `JSONDecodeError` their handlers catch. The other
    handlers are a bare `except` or an `except Exception`, where the kind
    of exception does not change what happens. */
module Wrappers {

  datatype Option<+T> = None | Some(value: T)

  datatype Result<+T> = Ok(value: T) | Raised {

    predicate IsFailure() {
      Raised?
    }

    function PropagateFailure<U>(): Result<U>
      requires Raised?
    {
      Raised
    }

    function Extract(): T
      requires Ok?
    {
      value
    }
  }
}
