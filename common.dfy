/** Shared vocabulary of the idea-review backend: identities, principals,
    optional values and the HTTP-shaped errors the route handlers return. */
module Common {

  /** A Mongo ObjectId, abstracted to a natural number. */
  type Id = nat

  /** Timestamps are clock ticks supplied by the caller. */
  type Tick = nat

  /** The three roles a user account can hold. */
  datatype Role = Student | Mentor | Admin

  /** The authenticated caller, as the authentication middleware attaches it. */
  datatype Principal = Principal(id: Id, role: Role)

  datatype Option<+T> = None | Some(value: T)

  /** Why a handler refused a request; `ReasonText` is the message the
      handler sends. */
  datatype Reason =
    | TitleAndDomainRequired | DescriptionRequired | SubmissionFailed
    | IdeaNotFound | NotAllowed | EditingLocked | UpdateFailed
    | InvalidStatusValue | NotificationNotFound
    | UserNotFound | CannotDeactivateAdmin | MentorIdRequired | InvalidMentor
    | FeedbackCommentRequired | FeedbackAlreadyGiven
    | MentorNotAssigned | ChatNotAllowed | ConversationNotFound
    | MessageTextRequired | MessageNotFound | OnlySenderOrAdmin

  function ReasonText(r: Reason): string
  {
    match r
    case TitleAndDomainRequired => "Title and domain are required"
    case DescriptionRequired => "Description required for text submission"
    case SubmissionFailed => "Idea submission failed"
    case IdeaNotFound => "Idea not found"
    case NotAllowed => "Not allowed"
    case EditingLocked => "Editing locked after mentor decision"
    case UpdateFailed => "Update failed"
    case InvalidStatusValue => "Invalid status value"
    case NotificationNotFound => "Notification not found"
    case UserNotFound => "User not found"
    case CannotDeactivateAdmin => "Cannot deactivate admin"
    case MentorIdRequired => "mentorId is required"
    case InvalidMentor => "Invalid mentor"
    case FeedbackCommentRequired => "Feedback comment is required"
    case FeedbackAlreadyGiven => "You have already given feedback for this idea"
    case MentorNotAssigned => "Mentor not assigned. Chat unavailable."
    case ChatNotAllowed => "Chat not allowed"
    case ConversationNotFound => "Conversation not found"
    case MessageTextRequired => "Message text required"
    case MessageNotFound => "Message not found"
    case OnlySenderOrAdmin => "Only sender/admin can delete"
  }

  /** The failure responses of the handlers, by HTTP status code. */
  datatype Error =
    | BadRequest(reason: Reason)   // 400
    | Forbidden(reason: Reason)    // 403
    | NotFound(reason: Reason)     // 404
    | ServerError(reason: Reason)  // 500: a save rejected by schema validation

  datatype Result<+T> = Ok(value: T) | Err(error: Error)
}
