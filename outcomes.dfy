/**
 * How an operation of the table client ends: with a value, with a returned
 * error, or with a Go panic that aborts the process.
 */
module Outcomes {
  import opened Reflect

  datatype Error =
    | MissingMember(member: string)         // "getID: missing ID", "getFields: missing Fields"
    | WrongKind(member: string, want: Kind) // "getID: ID not a string", "getFields: Fields not a struct"
    | Transport(msg: string)                // passed through from the HTTP client
    | Codec(msg: string)                    // passed through from json.Marshal / json.Unmarshal
    | Unassignable                          // json.Unmarshal: a response value of the wrong kind for its member
    | NotDeleted(raw: string)               // "error: did not delete <response>"

  datatype Outcome<+T> = Done(value: T) | Failed(error: Error) | Aborted(panic: Panic)
  {
    predicate IsFailure() {
      !Done?
    }

    /** The same failure, at another result type. */
    function PropagateFailure<U>(): (r: Outcome<U>)
      requires !Done?
      ensures Failed? ==> r == Failed(error)
      ensures Aborted? ==> r == Aborted(panic)
    {
      if Failed? then Failed(error) else Aborted(panic)
    }

    function Extract(): T
      requires Done?
    {
      value
    }
  }
}
