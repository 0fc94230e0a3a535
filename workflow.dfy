/** The idea workflow as a service whose state is the store of ideas and
    users: submission, editing, mentor analysis and review, notifications,
    the admin operations (statistics, user toggle, lock, mentor assignment)
    and the one-feedback-per-mentor route. An idea's id is its position in
    creation order. */
module Workflow {
  import opened Common
  import opened Text
  import opened IdeaModel
  import opened IdeaRules
  import Feasibility
  import Findings

  class IdeaService {
    var ideas: seq<Idea>
    var users: map<Id, User>
    var nextNotificationId: nat

    ghost predicate Valid()
      reads this
    {
      forall i :: 0 <= i < |ideas| ==> WellFormed(ideas[i], nextNotificationId)
    }

    constructor (users: map<Id, User>)
      ensures Valid() && this.ideas == [] && this.users == users
    {
      this.ideas := [];
      this.users := users;
      this.nextNotificationId := 0;
    }

    /** Replaces idea `id`, keeping the store well formed and append-only. */
    method Replace(id: Id, idea: Idea, next: nat)
      requires Valid() && id < |ideas| && nextNotificationId <= next
      requires WellFormed(idea, next)
      requires ideas[id].timeline <= idea.timeline && ideas[id].feedback <= idea.feedback
      modifies this
      ensures Valid() && AppendOnly(old(ideas), ideas)
      ensures ideas == old(ideas)[id := idea] && nextNotificationId == next && users == old(users)
    {
      ReplaceKeepsWellFormed(ideas, id, idea, nextNotificationId, next, ideas[id := idea]);
      ReplaceAppendOnly(ideas, id, idea, ideas[id := idea]);
      ideas := ideas[id := idea];
      nextNotificationId := next;
    }

    /** Adds a new idea at the end of the store, keeping it well formed and
        append-only. */
    method Append(idea: Idea)
      requires Valid() && WellFormed(idea, nextNotificationId)
      modifies this
      ensures Valid() && AppendOnly(old(ideas), ideas)
      ensures ideas == old(ideas) + [idea] && nextNotificationId == old(nextNotificationId) && users == old(users)
    {
      AppendKeepsWellFormed(ideas, idea, nextNotificationId, ideas + [idea]);
      ideas := ideas + [idea];
    }

    /** Student: submit an idea, as text or with an attachment. */
    method Submit(p: Principal, title: string, domain: string, description: string, file: Option<Upload>, now: Tick)
      returns (r: Result<Id>)
      requires Valid()
      modifies this
      ensures Valid() && AppendOnly(old(ideas), ideas)
      ensures users == old(users) && nextNotificationId == old(nextNotificationId)
      ensures title == [] || domain == [] ==> r == Err(BadRequest(TitleAndDomainRequired))
      ensures title != [] && domain != [] && file.None? && description == [] ==>
                r == Err(BadRequest(DescriptionRequired))
      ensures title != [] && domain != [] && (file.Some? || description != []) ==>
                (r.Ok? <==> Trim(title) != [] && Trim(domain) != []) &&
                (r.Err? ==> r == Err(ServerError(SubmissionFailed)))
      ensures r.Err? ==> ideas == old(ideas)
      ensures r.Ok? ==>
                && r.value == |old(ideas)|
                && ideas == old(ideas) + [SubmittedIdea(p.id, title, domain, description, file,
                                                        MaxSimilarity(title + " " + description, old(ideas)),
                                                        Feasibility.FeasibilityScore(description, domain), now)]
    {
      if title == [] || domain == [] {
        return Err(BadRequest(TitleAndDomainRequired));
      }
      var submissionType := if file.Some? then File else Text;
      if submissionType == Text && description == [] {
        return Err(BadRequest(DescriptionRequired));
      }

      var highestSimilarity := HighestSimilarity(title + " " + description, ideas);
      var feasibilityScore := Feasibility.CalculateFeasibility(description, domain);

      // The schema trims title and domain and then requires them non-empty.
      if Trim(title) == [] || Trim(domain) == [] {
        return Err(ServerError(SubmissionFailed));
      }
      var idea := SubmittedIdea(p.id, title, domain, description, file, highestSimilarity, feasibilityScore, now);
      Append(idea);
      r := Ok(|ideas| - 1);
    }

    /** Student: edit an idea. Only its creator may, and only while it is
        not locked. */
    method Edit(p: Principal, id: Id, title: string, domain: string, description: string, file: Option<Upload>)
      returns (r: Result<Id>)
      requires Valid()
      modifies this
      ensures Valid() && AppendOnly(old(ideas), ideas)
      ensures users == old(users) && nextNotificationId == old(nextNotificationId)
      ensures id >= |old(ideas)| ==> r == Err(NotFound(IdeaNotFound))
      ensures id < |old(ideas)| && old(ideas)[id].createdBy != p.id ==> r == Err(Forbidden(NotAllowed))
      ensures id < |old(ideas)| && old(ideas)[id].createdBy == p.id && old(ideas)[id].isLocked ==>
                r == Err(Forbidden(EditingLocked))
      ensures id < |old(ideas)| && old(ideas)[id].createdBy == p.id && !old(ideas)[id].isLocked ==>
                var e := EditedIdea(old(ideas)[id], title, domain, description, file);
                (r.Ok? <==> e.title != [] && e.domain != []) &&
                (r.Err? ==> r == Err(ServerError(UpdateFailed)))
      ensures r.Err? ==> ideas == old(ideas)
      ensures r.Ok? ==> r.value == id && id < |old(ideas)| &&
                        ideas == old(ideas)[id := EditedIdea(old(ideas)[id], title, domain, description, file)]
    {
      if id >= |ideas| {
        return Err(NotFound(IdeaNotFound));
      }
      var idea := ideas[id];
      Findings.SameUserIffSameId(idea.createdBy, p);
      if !Findings.SameUser(idea.createdBy, p) {
        return Err(Forbidden(NotAllowed));
      }
      if idea.isLocked {
        return Err(Forbidden(EditingLocked));
      }
      var edited := EditedIdea(idea, title, domain, description, file);
      // Saving re-validates the required, trimmed title and domain.
      if edited.title == [] || edited.domain == [] {
        return Err(ServerError(UpdateFailed));
      }
      Replace(id, edited, nextNotificationId);
      r := Ok(id);
    }

    /** Mentor: the Pending ideas. */
    function PendingList(): (r: seq<Id>)
      reads this
      ensures forall k :: k in r ==> k < |ideas|
      ensures forall k :: 0 <= k < |ideas| ==> (k in r <==> ideas[k].status == Pending)
    {
      PendingIds(ideas)
    }

    /** Mentor: save analysis scores. */
    method Analyze(p: Principal, id: Id, feasibility: Option<int>, similarity: Option<int>, now: Tick)
      returns (r: Result<Id>)
      requires Valid()
      modifies this
      ensures Valid() && AppendOnly(old(ideas), ideas)
      ensures users == old(users) && nextNotificationId == old(nextNotificationId)
      ensures id >= |old(ideas)| ==> r == Err(NotFound(IdeaNotFound)) && ideas == old(ideas)
      ensures id < |old(ideas)| ==>
                r == Ok(id) && ideas == old(ideas)[id := AnalyzedIdea(old(ideas)[id], feasibility, similarity, p.id, now)]
    {
      if id >= |ideas| {
        return Err(NotFound(IdeaNotFound));
      }
      Replace(id, AnalyzedIdea(ideas[id], feasibility, similarity, p.id, now), nextNotificationId);
      r := Ok(id);
    }

    /** Mentor: review, approve or reject. The status is validated before the
        idea is looked up; the creator always gets a notification and an
        e-mail request. */
    method Review(p: Principal, id: Id, statusName: string, feedback: string, now: Tick)
      returns (r: Result<Id>, email: Option<Email>)
      requires Valid()
      modifies this
      ensures Valid() && AppendOnly(old(ideas), ideas)
      ensures users == old(users)
      ensures ReviewStatus(statusName).None? ==> r == Err(BadRequest(InvalidStatusValue))
      ensures ReviewStatus(statusName).Some? && id >= |old(ideas)| ==> r == Err(NotFound(IdeaNotFound))
      ensures r.Err? ==> ideas == old(ideas) && email == None && nextNotificationId == old(nextNotificationId)
      ensures ReviewStatus(statusName).Some? && id < |old(ideas)| ==>
                var s := ReviewStatus(statusName).value;
                && r == Ok(id)
                && nextNotificationId == old(nextNotificationId) + 1
                && ideas == old(ideas)[id := ReviewedIdea(old(ideas)[id], s, p.id, feedback, old(nextNotificationId), now)]
                && email == Some(ReviewEmail(old(ideas)[id], s, feedback))
    {
      var status := ReviewStatus(statusName);
      if status.None? {
        return Err(BadRequest(InvalidStatusValue)), None;
      }
      if id >= |ideas| {
        return Err(NotFound(IdeaNotFound)), None;
      }
      var before := ideas[id];
      var after := ReviewedIdea(before, status.value, p.id, feedback, nextNotificationId, now);
      assert WellFormed(before, nextNotificationId);
      Replace(id, after, nextNotificationId + 1);
      // Sent after the save; a delivery failure is caught and only logged.
      email := Some(ReviewEmail(before, status.value, feedback));
      r := Ok(id);
    }

    /** Student: the notifications of the caller's own ideas. */
    function Notifications(user: Id): (r: seq<Notification>)
      reads this
      ensures forall n :: n in r <==>
                exists i :: 0 <= i < |ideas| && ideas[i].createdBy == user && n in ideas[i].notifications
    {
      OwnNotifications(ideas, user)
    }

    /** Student: mark a notification read. Only the first matching entry of
        the first of the caller's ideas holding one changes. */
    method MarkNotificationRead(user: Id, nid: Id) returns (r: Result<Id>)
      requires Valid()
      modifies this
      ensures Valid() && AppendOnly(old(ideas), ideas)
      ensures users == old(users) && nextNotificationId == old(nextNotificationId)
      ensures FirstNotificationFrom(old(ideas), user, nid, 0).None? ==>
                r == Err(NotFound(NotificationNotFound)) && ideas == old(ideas)
      ensures FirstNotificationFrom(old(ideas), user, nid, 0).Some? ==>
                var (i, j) := FirstNotificationFrom(old(ideas), user, nid, 0).value;
                r == Ok(nid) && ideas == old(ideas)[i := ReadMarked(old(ideas)[i], j)]
    {
      var loc := FindNotification(ideas, user, nid);
      if loc.None? {
        return Err(NotFound(NotificationNotFound));
      }
      var (i, j) := loc.value;
      assert WellFormed(ideas[i], nextNotificationId);
      Replace(i, ReadMarked(ideas[i], j), nextNotificationId);
      r := Ok(nid);
    }

    /** Admin: dashboard counts. */
    function Stats(): (s: AdminStats)
      reads this
      ensures s.totalIdeas == |ideas| && s.totalUsers == |users|
      ensures s.totalStudents == |UsersWithRole(users, Student)| && s.totalMentors == |UsersWithRole(users, Mentor)|
      ensures s.totalAdmins == |UsersWithRole(users, Admin)|
      ensures s.pendingIdeas == CountStatus(ideas, Pending) && s.reviewedIdeas == CountStatus(ideas, Reviewed)
      ensures s.approvedIdeas == CountStatus(ideas, Approved) && s.rejectedIdeas == CountStatus(ideas, Rejected)
      ensures s.plagiarismFlagged == CountFlagged(ideas)
      ensures s.pendingIdeas + s.reviewedIdeas + s.approvedIdeas + s.rejectedIdeas == s.totalIdeas
      ensures s.totalStudents + s.totalMentors + s.totalAdmins == s.totalUsers
      ensures s.plagiarismFlagged <= s.totalIdeas
    {
      StatusCountsPartition(ideas);
      RoleCountsPartition(users);
      AdminStats(
        |users|, |UsersWithRole(users, Student)|, |UsersWithRole(users, Mentor)|, |UsersWithRole(users, Admin)|,
        |ideas|, CountStatus(ideas, Pending), CountStatus(ideas, Reviewed),
        CountStatus(ideas, Approved), CountStatus(ideas, Rejected), CountFlagged(ideas))
    }

    /** Admin: activate or deactivate a non-admin user. */
    method ToggleUser(userId: Id) returns (r: Result<User>)
      requires Valid()
      modifies this
      ensures Valid() && ideas == old(ideas) && nextNotificationId == old(nextNotificationId)
      ensures userId !in old(users) ==> r == Err(NotFound(UserNotFound)) && users == old(users)
      ensures userId in old(users) && old(users)[userId].role == Admin ==>
                r == Err(Forbidden(CannotDeactivateAdmin)) && users == old(users)
      ensures userId in old(users) && old(users)[userId].role != Admin ==>
                && users == old(users)[userId := old(users)[userId].(isActive := !old(users)[userId].isActive)]
                && r == Ok(users[userId])
    {
      if userId !in users {
        return Err(NotFound(UserNotFound));
      }
      var user := users[userId];
      if user.role == Admin {
        return Err(Forbidden(CannotDeactivateAdmin));
      }
      user := user.(isActive := !user.isActive);
      users := users[userId := user];
      r := Ok(user);
    }

    /** Admin: set or clear an idea's lock, whatever its status. */
    method SetLock(id: Id, locked: bool) returns (r: Result<Id>)
      requires Valid()
      modifies this
      ensures Valid() && AppendOnly(old(ideas), ideas)
      ensures users == old(users) && nextNotificationId == old(nextNotificationId)
      ensures id >= |old(ideas)| ==> r == Err(NotFound(IdeaNotFound)) && ideas == old(ideas)
      ensures id < |old(ideas)| ==> r == Ok(id) && ideas == old(ideas)[id := old(ideas)[id].(isLocked := locked)]
    {
      if id >= |ideas| {
        return Err(NotFound(IdeaNotFound));
      }
      assert WellFormed(ideas[id], nextNotificationId);
      Replace(id, ideas[id].(isLocked := locked), nextNotificationId);
      r := Ok(id);
    }

    /** Admin: assign a mentor, which is what makes chat possible. */
    method AssignMentor(p: Principal, id: Id, mentorId: Option<Id>, now: Tick) returns (r: Result<Id>)
      requires Valid()
      modifies this
      ensures Valid() && AppendOnly(old(ideas), ideas)
      ensures users == old(users) && nextNotificationId == old(nextNotificationId)
      ensures mentorId.None? ==> r == Err(BadRequest(MentorIdRequired))
      ensures mentorId.Some? && (mentorId.value !in users || users[mentorId.value].role != Mentor) ==>
                r == Err(BadRequest(InvalidMentor))
      ensures mentorId.Some? && mentorId.value in users && users[mentorId.value].role == Mentor && id >= |old(ideas)| ==>
                r == Err(NotFound(IdeaNotFound))
      ensures r.Err? ==> ideas == old(ideas)
      ensures mentorId.Some? && mentorId.value in users && users[mentorId.value].role == Mentor && id < |old(ideas)| ==>
                r == Ok(id) &&
                ideas == old(ideas)[id := AssignedIdea(old(ideas)[id], mentorId.value, users[mentorId.value], p.id, now)]
    {
      if mentorId.None? {
        return Err(BadRequest(MentorIdRequired));
      }
      if mentorId.value !in users || users[mentorId.value].role != Mentor {
        return Err(BadRequest(InvalidMentor));
      }
      var mentor := users[mentorId.value];
      if id >= |ideas| {
        return Err(NotFound(IdeaNotFound));
      }
      assert WellFormed(ideas[id], nextNotificationId);
      Replace(id, AssignedIdea(ideas[id], mentorId.value, mentor, p.id, now), nextNotificationId);
      r := Ok(id);
    }

    /** Mentor: add feedback, at most one entry per mentor. */
    method AddFeedback(p: Principal, id: Id, comment: string, now: Tick) returns (r: Result<Feedback>)
      requires Valid()
      modifies this
      ensures Valid() && AppendOnly(old(ideas), ideas)
      ensures users == old(users) && nextNotificationId == old(nextNotificationId)
      ensures Trim(comment) == [] ==> r == Err(BadRequest(FeedbackCommentRequired))
      ensures Trim(comment) != [] && id >= |old(ideas)| ==> r == Err(NotFound(IdeaNotFound))
      ensures Trim(comment) != [] && id < |old(ideas)| && HasFeedbackFrom(old(ideas)[id].feedback, p.id) ==>
                r == Err(BadRequest(FeedbackAlreadyGiven))
      ensures r.Err? ==> ideas == old(ideas)
      ensures Trim(comment) != [] && id < |old(ideas)| && !HasFeedbackFrom(old(ideas)[id].feedback, p.id) ==>
                && r == Ok(Feedback(p.id, comment, now))
                && ideas == old(ideas)[id := old(ideas)[id].(feedback := old(ideas)[id].feedback + [r.value])]
      ensures id < |old(ideas)| && OneFeedbackPerMentor(old(ideas)[id].feedback) ==>
                OneFeedbackPerMentor(ideas[id].feedback)
    {
      if Trim(comment) == [] {
        return Err(BadRequest(FeedbackCommentRequired));
      }
      if id >= |ideas| {
        return Err(NotFound(IdeaNotFound));
      }
      var idea := ideas[id];
      var alreadyGiven := FeedbackGiven(idea.feedback, p);
      if alreadyGiven {
        return Err(BadRequest(FeedbackAlreadyGiven));
      }
      var entry := Feedback(p.id, comment, now);
      if OneFeedbackPerMentor(idea.feedback) {
        AppendKeepsOneFeedbackPerMentor(idea.feedback, entry);
      }
      assert WellFormed(idea, nextNotificationId);
      Replace(id, idea.(feedback := idea.feedback + [entry]), nextNotificationId);
      r := Ok(entry);
    }

    /** Anyone signed in: an idea's feedback with its count. */
    function GetFeedback(id: Id): (r: Result<FeedbackReport>)
      reads this
      ensures id >= |ideas| ==> r == Err(NotFound(IdeaNotFound))
      ensures id < |ideas| ==> r.Ok? && r.value.feedback == ideas[id].feedback &&
                               r.value.feedbackCount == |ideas[id].feedback|
    {
      if id >= |ideas| then Err(NotFound(IdeaNotFound))
      else Ok(FeedbackReport(id, |ideas[id].feedback|, ideas[id].feedback))
    }
  }

  /** Two toggles of the same user restore the original account. */
  method ToggleTwiceRestores(service: IdeaService, userId: Id)
    requires service.Valid()
    modifies service
    ensures service.Valid() && service.users == old(service.users) && service.ideas == old(service.ideas)
  {
    var first := service.ToggleUser(userId);
    var second := service.ToggleUser(userId);
  }

  /** Setting the lock twice to the same value is the same as setting it
      once. */
  method SetLockIdempotent(service: IdeaService, id: Id, locked: bool)
    requires service.Valid()
    modifies service
    ensures service.Valid()
    ensures id < |old(service.ideas)| ==> service.ideas == old(service.ideas)[id := old(service.ideas)[id].(isLocked := locked)]
    ensures id >= |old(service.ideas)| ==> service.ideas == old(service.ideas)
  {
    var first := service.SetLock(id, locked);
    var second := service.SetLock(id, locked);
  }

  /** A successful decision to approve or reject locks the idea, after which
      its creator's edits are refused. */
  method DecisionLocks(service: IdeaService, mentor: Principal, student: Principal, id: Id, statusName: string,
                       feedback: string, now: Tick, title: string, domain: string, description: string)
    returns (edit: Result<Id>)
    requires service.Valid()
    requires statusName == ApprovedName || statusName == RejectedName
    requires id < |service.ideas| && service.ideas[id].createdBy == student.id
    modifies service
    ensures service.Valid() && |service.ideas| == |old(service.ideas)| && service.ideas[id].isLocked
    ensures edit == Err(Forbidden(EditingLocked))
  {
    var r, email := service.Review(mentor, id, statusName, feedback, now);
    edit := service.Edit(student, id, title, domain, description, None);
  }
}
