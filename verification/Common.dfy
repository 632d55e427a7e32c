/** Shared result types. */
module Common {
  datatype Option<+T> = None | Some(value: T)

  /** The application errors that the modelled operations return. */
  datatype Error =
    | AlreadyMember
    | ClientAttachedToProject
    | ClientNotFound
    | DatabaseError
    | DeliverableNotFound
    | DeliverableRequired
    | DueDateInPast
    | AssignmentNotFound
    | Forbidden
    | InternalServer
    | InvalidPassword
    | InvalidProjectPriority
    | InvalidStatusTransition
    | InvalidToken
    | InvitationPending
    | MembershipNotFound
    | MilestoneNotAwaitingApproval
    | MilestoneNotFound
    | OrganizationNameInvalid
    | OrganizationNotFound
    | OrganizationSlugExists
    | PersonalWorkspace
    | ProjectHasNoClient
    | ProjectNotFound
    | SessionRevoked
    | UserNotFound
    | Validation
    | WeakPassword

  datatype Result<+T> = Ok(value: T) | Err(error: Error)
  {
    predicate IsFailure() {
      Err?
    }

    function PropagateFailure<U>(): Result<U>
      requires Err?
    {
      Err(error)
    }

    function Extract(): T
      requires Ok?
    {
      value
    }
  }
}
