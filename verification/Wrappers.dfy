module Wrappers {

  datatype Option<+T> = None | Some(value: T)

  /** The ways an operation is refused, one per exception class of the program. */
  datatype Error =
    | NotFound
    | InvalidName
    | DuplicateName
    | Archived
    | InvalidLifecycle
    | InvalidAmount
    | Unbalanced
    | Ownership
    | Immutable
    | KeyConflict
    | KeyInProgress
    | InvalidKey
    | IneligibleAccount
    | IneligibleEntry
    | DuplicateMembership
    | NonZeroDifference
    | IntegrityViolation
    | TriggerAbort
    | Injected

  datatype Result<+T> = Ok(value: T) | Err(error: Error) {
    predicate IsFailure() {
      Err?
    }

    function PropagateFailure<U>(): Result<U>
      requires Err?
    {
      Err(error)
    }

    function Extract(): T
      requires Ok?
    {
      value
    }
  }
}
