# hypothesis-gate: the idea-review backend, modelled in Dafny

hypothesis-gate is a web application for students to submit research ideas
and for mentors and admins to review them. This project models the
server-side core of its review workflow and proves properties of it.

- **Idea workflow** (`workflow.dfy`, `ideas.dfy`, `idea_model.dfy`). The
  idea record and its embedded feedback, timeline and notifications are
  datatypes. The route handlers are methods of the class `IdeaService`.
  - Student handlers: submit (with plagiarism scoring) and edit.
  - Mentor handlers: the pending list, analysis, review and per-mentor
    feedback.
  - The student's notifications and mark-as-read.
  - Admin handlers: statistics, user toggle, lock and mentor assignment.
  - Each handler runs its guards in the source's order and returns the
    source's error. On success its new state is stated through a
    transition function (`SubmittedIdea`, `ReviewedIdea`, ...), whose
    contract says what changes and what stays.
  - The class invariant: every idea is well formed, and notification ids
    are fresh.
  - Every handler keeps timelines and feedback append-only.
- **Gated chat** (`chat.dfy`). Conversations and messages are the two
  sequences of the class `ChatService`.
  - Get-or-create is allowed once a mentor is assigned. It keeps at most
    one conversation per idea.
  - Access checks for participants and admins.
  - Send delivers to the other participant.
  - Soft delete keeps a deleted message consistently blank.
  - The message listing redacts deleted messages.
- **Scoring** (`similarity.dfy`, `feasibility.dfy`).
  - Similarity is the rounded Jaccard percentage of two texts' token sets.
  - Feasibility is an additive keyword heuristic, capped at 100.
  - Each is written once as the loop the source runs and once as a
    specification function; the loop is proved to compute the function,
    and the properties are proved about the function.
- **Presentation** (`presentation.dfy`): the score helpers at the top of the
  student's "my ideas" page.
- **Findings** (`findings.dfy`): three lookups that can never succeed as
  written, with the corrected versions the rest of the model uses.
- **Shared vocabulary** (`common.dfy`, `text.dfy`): ids, principals,
  errors, and the string helpers: trim, lower-case and substring search.

Representation choices:

- Mongo ids are natural numbers.
- An idea's, conversation's or message's id is its position in creation
  order.
- Timestamps are ticks supplied by the caller.
- An absent request field is the empty string, which JavaScript's `!x`
  treats the same way.
- The caller is a `Principal` (id and role), as the authentication
  middleware attaches it.

## Model

| member | source | states |
|---|---|---|
| Text.Trim | backend/routes/chatRoutes.js:134 | the result is the slice of the input between a leading and a trailing run of white space; it is empty exactly when every character is white space, and otherwise starts and ends with a non-space |
| Text.Utf16Length | backend/utils/feasibilityScorer.js:8-10 | `length` in UTF-16 code units lies between the number of characters and twice that number |
| Text.Utf16LengthAppend | backend/utils/feasibilityScorer.js:8-10 | the code-unit length of a concatenation is the sum of the parts' lengths |
| Similarity.StripPunctuation | backend/utils/similarityChecker.js:4 | every remaining character is a word character or white space, and each word or white-space character occurs exactly as often as in the input |
| Similarity.StripPunctuationAppend | backend/utils/similarityChecker.js:4 | stripping works character by character in order: stripping a concatenation is the concatenation of the stripped parts |
| Similarity.LongTokens | backend/utils/similarityChecker.js:6 | keeps exactly the words longer than three characters |
| Similarity.TokensAreLowerWords | backend/utils/similarityChecker.js:1-7 | every token is longer than three characters and made of lower-case word characters only |
| Similarity.RoundHalfEven | backend/utils/similarityChecker.js:27 | a double operation's rounding of a significand: the quotient is within one half of the exact value, and a tie goes to the even neighbour |
| Similarity.MathRound | backend/utils/similarityChecker.js:29 | `Math.round` of a non-negative quotient: the integer r with r − 1/2 ≤ n/d < r + 1/2 |
| Similarity.RoundedPercent | backend/utils/similarityChecker.js:27-29 | `Math.round((common / union) * 100)` with the quotient and the product each rounded to a double: the result is within one point of the exact percentage 100·common/union, lies in [0, 100], is 100 when common = union and 0 when common = 0 |
| Similarity.HalfPercentRoundsDown | backend/utils/similarityChecker.js:27-29 | 23 common tokens out of 40 score 57, not the 58 that exact rounding of 57.5 gives, because the double quotient 0.575 is stored slightly low |
| Similarity.Similarity | backend/utils/similarityChecker.js:9-30 | the score lies in [0, 100] and is 0 when either text is empty |
| Similarity.SimilarityScore | backend/utils/similarityChecker.js:9-30 | the common-token counting loop computes exactly the token-set Jaccard score |
| Similarity.SimilaritySymmetric | backend/utils/similarityChecker.js:17-27 | the score does not depend on argument order |
| Similarity.SimilarityReflexive | backend/utils/similarityChecker.js:20-29 | a text with at least one token scores 100 against itself |
| Similarity.SimilarityDependsOnTokenSets | backend/utils/similarityChecker.js:17-25 | texts with the same token set score the same against any text (repetition and word order do not matter) |
| Similarity.DisjointTokensScoreZero | backend/utils/similarityChecker.js:20-29 | texts without a common token score 0 |
| Feasibility.Hits | backend/utils/feasibilityScorer.js:36-40 | the number of listed words found is at most the number of listed words |
| Feasibility.FeasibilityScore | backend/utils/feasibilityScorer.js:1-58 | the score is at most 100; the length bands count UTF-16 code units |
| Feasibility.CalculateFeasibility | backend/utils/feasibilityScorer.js:1-58 | the accumulating implementation (length band, domain bonus, keyword loop, dataset loop, cap) computes exactly the sum-of-contributions specification |
| Feasibility.ContributionBounds | backend/utils/feasibilityScorer.js:36-54 | keywords contribute a multiple of 5 of at most 30; dataset words a multiple of 4 of at most 24 |
| Feasibility.DomainBonus | backend/utils/feasibilityScorer.js:13-21 | the domain adds 20 exactly when its lower-cased form is one of the six listed domains |
| Feasibility.EmptyDescription | backend/utils/feasibilityScorer.js:4-5 | an empty description earns only the domain bonus, so 0 with an unlisted domain |
| Feasibility.CaseInsensitive | backend/utils/feasibilityScorer.js:4-5 | lower-casing either input first changes nothing |
| Feasibility.ExtendingDescriptionNeverLowersScore | backend/utils/feasibilityScorer.js:8-54 | appending text to a description never lowers the score |
| IdeaModel.ReviewStatus | backend/routes/ideaRoutes.js:222-224 | a review status is accepted exactly when it is "Approved", "Rejected" or "Reviewed", and is never Pending |
| IdeaModel.NotificationTitle | backend/routes/ideaRoutes.js:250 | the title is "Idea " followed by the status the review set |
| IdeaModel.NotificationMessage | backend/routes/ideaRoutes.js:251-253 | the message ends with the mentor's comment, or with the status when there is no comment |
| Presentation.Clamp | frontend/src/pages/student/MyIdeas.jsx:6 | the result lies in [0, 100], is the identity there and saturates outside |
| Presentation.LabelMonotone | frontend/src/pages/student/MyIdeas.jsx:8-15 | a higher score never gets a worse label, and every label is one of the five bands |
| Presentation.IsHighSimilarity | frontend/src/pages/student/MyIdeas.jsx:17 | high exactly when the score is at least 60 |
| Presentation.RecFromScores | frontend/src/pages/student/MyIdeas.jsx:19-27 | high similarity always asks for revision; "Proceed to next milestone" exactly when feasibility ≥ 75 and similarity ≤ 35; the danger tone exactly for similarity ≥ 60 |
| Presentation.PickNextActions | frontend/src/pages/student/MyIdeas.jsx:48-61 | at most four actions; the first is the attach-reference action exactly for text submissions; the references action is always there; overlap, scope and milestone actions appear under their conditions |
| IdeaRules.Scores | backend/routes/ideaRoutes.js:36-42 | one score per existing idea, each the similarity of the new text to that idea's title and description |
| IdeaRules.MaxSimilarity | backend/routes/ideaRoutes.js:33-42 | the highest similarity is at most 100, bounds every existing idea's score, and is reached by one of them or is 0 |
| IdeaRules.HighestSimilarity | backend/routes/ideaRoutes.js:34-42 | the raise-if-higher loop computes exactly that maximum |
| IdeaRules.PendingIds | backend/routes/ideaRoutes.js:166 | the ids of exactly the Pending ideas, in increasing order |
| IdeaRules.OwnNotifications | backend/routes/ideaRoutes.js:288-289 | exactly the notifications of the caller's own ideas |
| IdeaRules.IndexOfNotification | backend/routes/ideaRoutes.js:311 | the first notification with the requested id, or none when no entry has it |
| IdeaRules.FirstNotificationFrom | backend/routes/ideaRoutes.js:308-319 | the first of the caller's ideas holding the notification, and its first matching entry; none only when no idea of the caller holds it |
| IdeaRules.FindNotification | backend/routes/ideaRoutes.js:310-316 | the early-return search loop finds exactly that location |
| IdeaRules.FeedbackGiven | backend/routes/feedbackRoutes.js:25-27 | the linear search reports a duplicate exactly when the mentor already has an entry, which is exactly when the corrected string comparison matches an entry |
| IdeaRules.AppendKeepsOneFeedbackPerMentor | backend/routes/feedbackRoutes.js:25-41 | appending feedback from a mentor without an entry keeps one entry per mentor |
| IdeaRules.CountStatus | backend/routes/adminRoutes.js:25-28 | a per-status count never exceeds the number of ideas |
| IdeaRules.CountFlagged | backend/routes/adminRoutes.js:29 | the flagged count never exceeds the number of ideas |
| IdeaRules.StatusCountsPartition | backend/routes/adminRoutes.js:24-28 | pending + reviewed + approved + rejected = total ideas |
| IdeaRules.RoleCountsPartition | backend/routes/adminRoutes.js:19-22 | students + mentors + admins = total users |
| IdeaRules.SubmittedIdea | backend/routes/ideaRoutes.js:47-75 | a new idea: trimmed title and domain, file type iff an upload, the upload's attachment and no description for a file submission, the given description otherwise, the given scores, flagged iff similarity ≥ 70, Pending, unlocked, no mentor, no feedback or notifications, one Pending timeline entry by the creator whose note carries the plagiarism warning iff similarity ≥ 70; well formed when title and domain are not blank |
| IdeaRules.EditedIdea | backend/routes/ideaRoutes.js:133-146 | only non-empty title, domain and description replace stored ones; an upload switches to a file submission; scores, plagiarism flag, mentor, status, lock, owner, timeline, feedback and notifications are unchanged |
| IdeaRules.AnalyzedIdea | backend/routes/ideaRoutes.js:192-199 | a supplied score replaces the stored one; flag, status, lock, feedback and notifications are unchanged; exactly one timeline entry under the current status with the resulting scores |
| IdeaRules.ReviewedIdea | backend/routes/ideaRoutes.js:229-255 | the new status; locked iff Approved, Rejected or already locked; feedback appended iff the trimmed comment is non-empty; exactly one timeline entry with the new status; exactly one unread notification for the creator with a fresh id |
| IdeaRules.AssignedIdea | backend/routes/adminRoutes.js:172-178 | the mentor is set; exactly one timeline entry under the unchanged status; status and lock unchanged |
| IdeaRules.ReadMarked | backend/routes/ideaRoutes.js:312-314 | only the chosen notification changes, and only its read flag |
| IdeaRules.ReviewEmail | backend/routes/ideaRoutes.js:259-266 | the e-mail goes to the idea's creator and carries the idea's title, the status set and the mentor's comment |
| IdeaRules.EmailSubject | backend/routes/ideaRoutes.js:262 | the subject starts with `Your idea "` followed by the idea's title, and ends with the status set |
| IdeaRules.EmailText | backend/routes/ideaRoutes.js:263-265 | the body starts with "Status: " followed by the status set, and ends with the mentor's comment when there is one |
| Workflow.IdeaService.Submit | backend/routes/ideaRoutes.js:21-86 | 400 when title or domain is missing, then 400 for a text submission without description, then 500 when the trimmed title or domain is blank; nothing stored on error; otherwise exactly one idea appended, with the highest similarity against all earlier ideas and the feasibility of the request |
| Workflow.IdeaService.Edit | backend/routes/ideaRoutes.js:122-153 | 404, then 403 unless the creator, then 403 when locked, then 500 when the edited title or domain is blank; otherwise only that idea is replaced by its edited version |
| Workflow.IdeaService.PendingList | backend/routes/ideaRoutes.js:160-176 | exactly the Pending ideas |
| Workflow.IdeaService.Analyze | backend/routes/ideaRoutes.js:186-203 | 404 for a missing idea, with no lock check; otherwise only that idea is updated by the analysis |
| Workflow.IdeaService.Review | backend/routes/ideaRoutes.js:220-271 | 400 for a status outside the three before any lookup, then 404; otherwise only that idea is reviewed, one fresh notification id is used, and an e-mail request is returned that the result does not depend on |
| Workflow.IdeaService.Notifications | backend/routes/ideaRoutes.js:287-291 | exactly the notifications of the caller's ideas |
| Workflow.IdeaService.MarkNotificationRead | backend/routes/ideaRoutes.js:308-319 | 404 when none of the caller's ideas holds the notification; otherwise only its first occurrence is marked read |
| Workflow.IdeaService.Stats | backend/routes/adminRoutes.js:19-42 | each role count is the number of users with that role, each status count the number of ideas with that status, the flagged count the number of flagged ideas; the status counts sum to the idea total and the role counts to the user total |
| Workflow.IdeaService.ToggleUser | backend/routes/adminRoutes.js:78-85 | 404 for a missing user, 403 for an admin; otherwise only that user's active flag is negated |
| Workflow.IdeaService.SetLock | backend/routes/adminRoutes.js:134-140 | 404 for a missing idea; otherwise the lock takes the given value whatever the status, and nothing else changes |
| Workflow.IdeaService.AssignMentor | backend/routes/adminRoutes.js:159-180 | 400 without a mentor id, then 400 unless it names a mentor, then 404; otherwise only that idea gets the mentor and one timeline entry |
| Workflow.IdeaService.AddFeedback | backend/routes/feedbackRoutes.js:14-46 | 400 for a blank comment before the lookup, then 404, then 400 for a mentor who already has an entry (feedback unchanged); otherwise exactly one entry appended at the end; one entry per mentor is preserved |
| Workflow.IdeaService.GetFeedback | backend/routes/feedbackRoutes.js:56-69 | 404 for a missing idea; otherwise the feedback and a count equal to its length |
| Workflow.ToggleTwiceRestores | backend/routes/adminRoutes.js:84 | two toggles of a user restore the user store |
| Workflow.SetLockIdempotent | backend/routes/adminRoutes.js:139 | setting the lock twice equals setting it once |
| Workflow.DecisionLocks | backend/routes/ideaRoutes.js:231-233 | after an approval or rejection the idea is locked and its creator's edit is refused as locked |
| Findings.CreatorRefusedAsWritten | backend/routes/ideaRoutes.js:125-127 | as written, the owner check refuses the idea's own creator |
| Findings.SameUserIffSameId | backend/routes/chatRoutes.js:10 | comparing both ids as text holds exactly when the ids are equal |
| Findings.RepeatFeedbackAcceptedAsWritten | backend/routes/feedbackRoutes.js:25-33 | as written, a mentor with an entry is not detected, and the second entry breaks one-entry-per-mentor |
| Findings.AlreadyGivenIffHasFeedback | backend/routes/feedbackRoutes.js:25-29 | the corrected duplicate test holds exactly when the mentor already has an entry |
| Findings.AsStored | backend/models/Idea.js:46-71 | notifications are stored one subdocument each, in order |
| Findings.SubdocumentById | backend/routes/ideaRoutes.js:311 | the subdocument found has the requested `_id`; none is found only when no subdocument has it |
| Findings.NotificationNeverFoundAsWritten | backend/routes/ideaRoutes.js:308-319 | as written, the lookup finds no notification, so mark-as-read always answers 404 |
| Chat.NewMessage | backend/models/Message.js:5-62 | a new message carries its routing and text, has the empty default file slot, is unread and not deleted, and is deletion-consistent |
| Chat.Deleted | backend/routes/chatRoutes.js:202-206 | a deleted message is deletion-consistent, records when and by whom, and keeps its conversation, sender, receiver, read flag and creation time |
| Chat.Receiver | backend/routes/chatRoutes.js:148 | the mentor receives the student's messages; the student receives everyone else's |
| Chat.ReceiverIsOtherParticipant | backend/routes/chatRoutes.js:141-148 | between two different people, each participant's message goes to the other one |
| Chat.ConversationFor | backend/routes/chatRoutes.js:38 | the first conversation about the idea, or none when there is none |
| Chat.ConversationForIsUnique | backend/models/Conversation.js:5-10 | with one conversation per idea, the lookup finds the only one |
| Chat.FindConversation | backend/routes/chatRoutes.js:38 | the search loop finds exactly that conversation |
| Chat.MyConversations | backend/routes/chatRoutes.js:67-78 | students get exactly the conversations they are the student of, mentors those they mentor, admins all; in creation order |
| Chat.AdminSeesAll | backend/routes/chatRoutes.js:67-72 | an admin is listed every conversation |
| Chat.Thread | backend/routes/chatRoutes.js:105-107 | exactly the messages of the conversation, in creation order |
| Chat.View | backend/routes/chatRoutes.js:110-119 | a deleted message is shown with empty text and no file; a live one as stored |
| Chat.RedactionKeepsConsistentContent | backend/routes/chatRoutes.js:112-116 | on a deletion-consistent message the redaction changes nothing |
| Chat.Listing | backend/routes/chatRoutes.js:105-119 | one redacted view per message of the conversation, in creation order |
| Chat.ThreadAppend | backend/routes/chatRoutes.js:150-155 | storing a message extends its own conversation's thread by its id and no other thread |
| Chat.SentMessageListedLast | backend/routes/chatRoutes.js:150-155 | a sent message is listed last in its conversation, and other listings do not change |
| Chat.DeletionListing | backend/routes/chatRoutes.js:202-208 | a soft delete keeps every listing's entries and order and shows the deleted message blank |
| Chat.ChatService.GetOrCreate | backend/routes/chatRoutes.js:17-53 | 404, then 400 without an assigned mentor, then 403 unless creator, assigned mentor or admin; an existing conversation is returned unchanged, else exactly one is created with the creator and the mentor; one conversation per idea is preserved |
| Chat.ChatService.ListMessages | backend/routes/chatRoutes.js:92-120 | 404, then 403 for non-participant non-admins; otherwise exactly the listing of the conversation: one view per message of it, in creation order, deleted ones blank |
| Chat.ChatService.Send | backend/routes/chatRoutes.js:132-171 | 400 for blank text before any lookup, then 404, then 403; otherwise exactly one new trimmed message to the other participant and the conversation's update time bumped |
| Chat.ChatService.SoftDelete | backend/routes/chatRoutes.js:183-210 | 404 for the message, 404 for the conversation, 403 for non-participants, 403 unless sender or admin; otherwise only that message is soft-deleted, conversations untouched |
| Chat.OpenTwice | backend/routes/chatRoutes.js:38-46 | opening the same idea's chat twice returns the same conversation |

## Left out

- HTTP transport, Express routing, JSON bodies and the 500 responses of failures outside the handlers' logic are not modelled. Examples: malformed ids that Mongoose cannot cast, and database errors.
- The authentication middleware is left out: the caller is an input.
- The role middleware is left out; backend/middleware/roleMiddleware.js is not part of this model. Each handler is modelled from the point after its role gate. The feedback route's gate names the role "Mentor", which would not admit the lower-case roles stored elsewhere.
- The e-mail utility is left out: Review returns the e-mail request it would send, and a delivery failure cannot change its result.
- The upload middleware is left out: an attachment is the (original name, stored name, media type) triple it hands over.
- Mongoose `populate` is left out; no route removes users, so referenced users always exist.
- Sorting by `createdAt`/`updatedAt` is left out: listings are in creation order.
- Chat.MyConversations: returns creation order, not the newest-updated-first order of the source.
- Workflow.IdeaService.PendingList / IdeaRules.PendingIds: creation order, not the newest-first order of the source.
- Workflow.IdeaService.SetLock: only boolean `isLocked` values are modelled; the truthiness coercion `Boolean(isLocked)` of other values (the string "false" locks, a missing field unlocks) is not.
- Workflow.IdeaService.Notifications: states which notifications are listed, not their newest-first order.
- Idea fields that no modelled route writes are left out of the record: `conversationId`, `lastReviewedAt`, `scoresHistory` and the schema timestamps.
- Stored timeline messages and notification titles and messages are kept as structured values. They are rendered by `IdeaModel.NoteText`, `IdeaModel.NotificationTitle` and `IdeaModel.NotificationMessage`.
- Notifications carry an explicit id in the model, because the stored ones have none (see Findings). Feedback and timeline entries also have no id, as in the schema.
- Request fields are modelled as strings. A non-string body value (a number, an array) is not modelled.
- Analysis scores are integers; `typeof x === "number"` admitting fractions is not modelled.
- Presentation.Clamp: defined on integers only; `Number(v || 0)` on non-numeric input (NaN) is not modelled.
- backend/routes/feedbackRoutes.js is not mounted by backend/server.js:35-38, so no request reaches it. Workflow.IdeaService.AddFeedback and Workflow.IdeaService.GetFeedback model the file as written, as does its Findings row.
- Similarity.RoundedPercent: treats the token counts as exact integers. Counts of 2^53 or more would already be inexact as doubles; they are not modelled.
- Text.Lower: lower-cases ASCII letters only, while JavaScript's `toLowerCase` also maps the upper-case letters of other alphabets.
- The following routes are left out because they only query and sort, with no guard or update: the student's own idea list (backend/routes/ideaRoutes.js:93-110) and the admin's user and idea lists (backend/routes/adminRoutes.js:52-67, 106-123).
- The fractional rubric and confidence values of the "my ideas" page use floating point and are left out.
- The Socket.IO relay, the React pages, the unmounted user routes and idea controller, and the admin-creation script are left out.
- backend/routes/ideaRoutes.js:9 loads `../utils/SendEmail` while the file is `sendEmail.js`. Module loading is not modelled.

## Findings

| source | as written | input that shows it | evidently intended | confidence | as-written member | corrected member |
|---|---|---|---|---|---|---|
| backend/routes/ideaRoutes.js:125 | `idea.createdBy.toString() !== req.user.id` compares a string with the ObjectId the authentication middleware attaches (backend/middleware/authMiddleware.js:28) by strict equality | the idea's creator editing their own idea: refused with 403 "Not allowed", so no edit ever succeeds | compare both sides as strings, as the chat routes do with `String(req.user.id)` | high; not executed | Findings.CreatorRefusedAsWritten | Findings.SameUserIffSameId, used by Workflow.IdeaService.Edit |
| backend/routes/feedbackRoutes.js:26 | `fb.mentorId.toString() === req.user.id` compares a string with that ObjectId | a mentor who already has an entry adds a second one, breaking one entry per mentor | the same string comparison | high; not executed | Findings.RepeatFeedbackAcceptedAsWritten | Findings.AlreadyGivenIffHasFeedback, used by IdeaRules.FeedbackGiven |
| backend/routes/ideaRoutes.js:311 | `idea.notifications.id(...)` looks a notification up by its `_id`, but the notification schema has `_id: false` (backend/models/Idea.js:70) | any notification id: mark-as-read always answers 404 "Notification not found" | notifications with an id the lookup can match | high; not executed | Findings.NotificationNeverFoundAsWritten | IdeaRules.FirstNotificationFrom, used by Workflow.IdeaService.MarkNotificationRead |
