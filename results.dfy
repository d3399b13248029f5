/** Failure-compatible wrappers shared by the whole model.
    Every `Err` stands for the HTTP 400 answer `{ message: ... }` that the handlers send
    from their `catch` blocks. */
module Results {

  datatype Option<+T> = None | Some(value: T) {
    predicate IsFailure() { None? }

    function PropagateFailure<U>(): Option<U>
      requires None?
    {
      None
    }

    function Extract(): T
      requires Some?
    {
      value
    }

    function GetOr(default: T): T {
      match this
      case Some(v) => v
      case None => default
    }
  }

  /** Why a request was answered with status 400. */
  datatype Error =
    | InvalidBody(field: string)      // the request body failed its schema
    | InvalidQuery(argument: string)  // the ORM refused the query arguments
    | RecordNotFound(model: string)   // a `delete` or a nested `connect` found no row

  datatype Result<+T> = Ok(value: T) | Err(error: Error) {
    predicate IsFailure() { Err? }

    function PropagateFailure<U>(): Result<U>
      requires Err?
    {
      Err(error)
    }

    function Extract(): T
      requires Ok?
    {
      value
    }
  }
}
