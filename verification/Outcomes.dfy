/** Results shared by every stage: a value, or the fixed reason for which the stage refuses. */
module Outcomes {

  datatype Option<+T> = None | Some(value: T)

  /** The reasons of `security/reasons.py` that the modelled stages can raise, and the two
      token errors. */
  datatype Reason =
    | TableResolutionMismatch
    | DuplicateBinding
    | QualifierUnknown
    | ColumnNotFound
    | ColumnAmbiguous
    | OrderOutputAmbiguous
    | QualifyFailed
    | LimitNodes
    | LimitJoins
    | LimitInList
    | NotAllowed
    | TokenOutsideProtected
    | ProtectedPosition
    | ProtectedNeedsToken
    | TableNotFound
    | TableGone
    | TableScope
    | BindUnsafe
    | TokenNotReplaced
    | RowCountInvalid
    | RowCountTooLarge
    | InvalidToken
    | UnsupportedValue
    | UnsupportedResult

  datatype Result<+T> = Ok(value: T) | Rejected(reason: Reason) {

    predicate IsFailure() {
      Rejected?
    }

    function PropagateFailure<U>(): Result<U>
      requires Rejected?
    {
      Rejected(reason)
    }

    function Extract(): T
      requires Ok?
    {
      value
    }
  }
}
