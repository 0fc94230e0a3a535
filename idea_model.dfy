/** The Idea record and its embedded feedback, timeline, notification and
    score-history entries, with the schema's enumerations and defaults. */
module IdeaModel {
  import opened Common
  import opened Text

  /** The four workflow states; an Idea starts as Pending. */
  datatype Status = Pending | Reviewed | Approved | Rejected

  const PendingName := "Pending"
  const ReviewedName := "Reviewed"
  const ApprovedName := "Approved"
  const RejectedName := "Rejected"

  function StatusName(s: Status): string
  {
    match s
    case Pending => PendingName
    case Reviewed => ReviewedName
    case Approved => ApprovedName
    case Rejected => RejectedName
  }

  /** The status values a review may set, read from the request body; any
      other value (including "Pending") is refused. */
  function ReviewStatus(name: string): (r: Option<Status>)
    ensures r.Some? <==> name == ApprovedName || name == RejectedName || name == ReviewedName
    ensures r.Some? ==> StatusName(r.value) == name && r.value != Pending
  {
    if name == ApprovedName then Some(Approved)
    else if name == RejectedName then Some(Rejected)
    else if name == ReviewedName then Some(Reviewed)
    else None
  }

  datatype SubmissionType = Text | File

  /** An uploaded attachment: original name, retrieval URL and media type. */
  datatype Attachment = Attachment(fileName: string, fileUrl: string, fileType: string)

  /** What the upload middleware hands a handler: original name, stored
      file name and media type. */
  datatype Upload = Upload(originalName: string, storedName: string, mimeType: string)

  /** The attachment recorded for an idea upload. */
  function IdeaAttachment(u: Upload): Attachment
  {
    Attachment(u.originalName, "/uploads/ideas/" + u.storedName, u.mimeType)
  }

  /** A feedback entry needs both its mentor and its comment. */
  datatype Feedback = Feedback(mentorId: Id, comment: string, createdAt: Tick)

  /** What a timeline entry records; `NoteText` is the message stored. */
  datatype Note =
    | Submitted(plagiarismWarning: bool)
    | Analysis(feasibility: int, similarity: int)
    | Decision(decided: Status, comment: string)
    | Assignment(mentorName: string, mentorEmail: string)

  function NoteText(n: Note): string
  {
    match n
    case Submitted(warning) =>
      if warning then "Idea submitted (High similarity detected - Plagiarism Warning)."
      else "Idea submitted successfully"
    case Analysis(f, s) =>
      "Mentor analysis updated (Feasibility: " + IntToString(f) + "%, Similarity: " + IntToString(s) + "%)"
    case Decision(s, comment) =>
      if comment != [] then comment else "Mentor marked as " + StatusName(s)
    case Assignment(name, email) =>
      "Mentor assigned: " + name + " (" + email + ")"
  }

  datatype TimelineEntry = TimelineEntry(status: Status, note: Note, updatedBy: Id, createdAt: Tick)

  /** A review notification for the idea's creator, about the status it set
      and the mentor's comment; `id` is the model's explicit identity for
      the mark-as-read operation. */
  datatype Notification = Notification(id: Id, userId: Id, decided: Status, comment: string, isRead: bool, createdAt: Tick)

  /** The title names the status the review set. */
  function NotificationTitle(n: Notification): (r: string)
    ensures |r| >= 5 && r[..5] == "Idea " && r[5..] == StatusName(n.decided)
  {
    "Idea " + StatusName(n.decided)
  }

  /** The message ends with the mentor's comment, or with the status when
      there is none. */
  function NotificationMessage(n: Notification): (r: string)
    ensures n.comment != [] ==> |r| >= |n.comment| && r[|r| - |n.comment|..] == n.comment
    ensures n.comment == [] ==> |r| >= |StatusName(n.decided)| && r[|r| - |StatusName(n.decided)|..] == StatusName(n.decided)
  {
    if n.comment != [] then "Mentor feedback: " + n.comment
    else "Your idea was marked as " + StatusName(n.decided)
  }

  /** An idea as stored. The schema's conversation link, last-review time,
      score history and timestamps are written by no modelled route and are
      not part of the record. */
  datatype Idea = Idea(
    title: string,
    domain: string,
    submissionType: SubmissionType,
    description: Option<string>,
    file: Option<Attachment>,
    feasibilityScore: int,
    similarityScore: int,
    plagiarismFlag: bool,
    status: Status,
    isLocked: bool,
    createdBy: Id,
    assignedMentor: Option<Id>,
    feedback: seq<Feedback>,
    timeline: seq<TimelineEntry>,
    notifications: seq<Notification>)

  /** No mentor appears in two feedback entries. */
  ghost predicate OneFeedbackPerMentor(fs: seq<Feedback>)
  {
    forall i, j :: 0 <= i < j < |fs| ==> fs[i].mentorId != fs[j].mentorId
  }

  predicate HasFeedbackFrom(fs: seq<Feedback>, mentor: Id)
  {
    exists i :: 0 <= i < |fs| && fs[i].mentorId == mentor
  }
}
