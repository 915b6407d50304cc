/** Shared vocabulary of the task-tracking backend: optional values, the
    error kinds its services raise, the messages they carry, and the
    authenticated caller. */
module Common {

  type Id = nat

  datatype Option<+T> = None | Some(value: T)

  function OrEmpty(s: Option<string>): string {
    match s
    case Some(v) => v
    case None => ""
  }

  /** Java's string concatenation renders a null reference as "null". */
  function OrNull(s: Option<string>): string {
    match s
    case Some(v) => v
    case None => "null"
  }

  /** The HTTP statuses a TodoAPIException can carry. */
  datatype Status = BadRequest | Conflict | Forbidden | Unauthorized

  datatype Kind = TodoKind | ItemKind | MessageKind | UserKind

  /** The exceptions the services throw. */
  datatype Error =
    | ResourceNotFound(kind: Kind, id: Option<Id>)   // ResourceNotFoundException
    | ApiError(status: Status, message: string)     // TodoAPIException
    | IllegalState(message: string)                 // IllegalStateException
    | UsernameNotFound                              // UsernameNotFoundException

  datatype Result<+T> = Success(value: T) | Failure(error: Error)

  function TodoNotFound(id: Id): Error { ResourceNotFound(TodoKind, Some(id)) }
  function ItemNotFound(id: Id): Error { ResourceNotFound(ItemKind, Some(id)) }
  function MessageNotFound(id: Id): Error { ResourceNotFound(MessageKind, Some(id)) }
  const UserNotFound: Error := ResourceNotFound(UserKind, None)

  // Messages of the TodoAPIException and IllegalStateException throws.
  const MsgReviewedCannotBeEdited := "Reviewed task cannot be edited."
  const MsgReviewedCannotComplete := "This task has already been reviewed and cannot be marked as completed."
  const MsgReviewedCannotIncomplete := "This task has already been reviewed and cannot be marked as incomplete."
  const MsgAlreadyCompletedBy := "This task is already completed by "
  const MsgItemsIncomplete := "All items must be completed before this task can be marked as completed."
  const MsgOnlyParticipants := "Only participants who completed at least one item can complete this task."
  const MsgOnlyFinisherOrAdmin := "Only the original finisher or an admin can mark this task as incomplete."
  const MsgCannotReview := "Cannot review a task that is not completed."
  const MsgItemTitleEmpty := "Item title cannot be empty."
  const MsgReviewedCannotBeModified := "Reviewed task cannot be modified."
  const MsgOnlyCompleterOrAdmin := "Only the completer or admin can undo this item."
  const MsgContentEmpty := "Message content cannot be empty."
  const MsgOnlyAuthorOrAdmin := "Only author or admin can delete the message."
  const MsgUsernameExists := "Username is already exists!"
  const MsgEmailExists := "Email is already exists"
  const MsgInvalidEmail := "Invalid email format"
  const MsgPasswordTooShort := "Password must be at least 8 characters"
  const MsgRegistered := "User Registered Successfully!"
  /** "Wrong account or password", the one message login gives for every failure. */
  const MsgBadCredentials := "\U{5E33}\U{865F}\U{6216}\U{5BC6}\U{78BC}\U{932F}\U{8AA4}"

  const RoleAdmin := "ROLE_ADMIN"
  const RoleUser := "ROLE_USER"

  /** The authenticated caller: the name the token carries (a username or an
      email, whichever was used to log in) and the granted authorities. */
  datatype Principal = Principal(name: string, authorities: set<string>)

  /** hasRole('ADMIN'): creating, updating, deleting and reviewing. */
  predicate CanManage(p: Principal) {
    RoleAdmin in p.authorities
  }

  /** hasAnyRole('ADMIN','USER'): every other action. */
  predicate CanUse(p: Principal) {
    RoleAdmin in p.authorities || RoleUser in p.authorities
  }
}
