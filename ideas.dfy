/** The rules of the idea workflow as values: the record invariants, the
    updates each route applies to one idea, the queries over the store and
    the texts the routes write. Class `Workflow.IdeaService` applies them to
    its state. */
module IdeaRules {
  import opened Common
  import opened Text
  import opened IdeaModel
  import Similarity
  import Feasibility
  import Findings

  datatype User = User(name: string, email: string, role: Role, isActive: bool)

  /** The best-effort e-mail a review asks the mailer to send to the idea's
      creator; whether it is delivered has no effect on the review. */
  datatype Email = Email(to: Id, ideaTitle: string, decided: Status, comment: string)

  /** The subject names the idea and ends with the decision. */
  function EmailSubject(e: Email): (r: string)
    ensures |r| >= |StatusName(e.decided)| && r[|r| - |StatusName(e.decided)|..] == StatusName(e.decided)
    ensures |r| >= 11 && r[..11] == "Your idea \"" && e.ideaTitle <= r[11..]
  {
    "Your idea \"" + e.ideaTitle + "\" has been " + StatusName(e.decided)
  }

  /** The body states the decision and ends with the mentor's comment, or
      says that none was given. */
  function EmailText(e: Email): (r: string)
    ensures |r| >= 8 && r[..8] == "Status: " && StatusName(e.decided) <= r[8..]
    ensures e.comment != [] ==> |r| >= |e.comment| && r[|r| - |e.comment|..] == e.comment
  {
    if e.comment != [] then "Status: " + StatusName(e.decided) + "\n\nMentor Feedback:\n" + e.comment
    else "Status: " + StatusName(e.decided) + "\n\nNo feedback provided."
  }

  datatype FeedbackReport = FeedbackReport(ideaId: Id, feedbackCount: nat, feedback: seq<Feedback>)

  datatype AdminStats = AdminStats(
    totalUsers: nat, totalStudents: nat, totalMentors: nat, totalAdmins: nat,
    totalIdeas: nat, pendingIdeas: nat, reviewedIdeas: nat, approvedIdeas: nat,
    rejectedIdeas: nat, plagiarismFlagged: nat)

  // ---------------------------------------------------------------------
  // Record invariants
  // ---------------------------------------------------------------------

  /** What every stored idea satisfies: a title and domain that survived
      trimming, an attachment exactly for file submissions, a description
      for text submissions, and a timeline opened by its Pending submission
      entry. */
  ghost predicate RecordWellFormed(idea: Idea)
  {
    && idea.title != [] && idea.domain != []
    && (idea.submissionType == File <==> idea.file.Some?)
    && (idea.submissionType == Text ==> idea.description.Some? && idea.description.value != [])
    && |idea.timeline| >= 1 && idea.timeline[0].status == Pending
  }

  /** Every notification id of the idea was issued before `next`. */
  ghost predicate NotificationIdsBelow(idea: Idea, next: nat)
  {
    forall k :: 0 <= k < |idea.notifications| ==> idea.notifications[k].id < next
  }

  ghost predicate WellFormed(idea: Idea, nextNotificationId: nat)
  {
    RecordWellFormed(idea) && NotificationIdsBelow(idea, nextNotificationId)
  }

  /** Replacing one well-formed idea by another keeps the store well formed,
      also when the next notification id has moved forward. */
  lemma ReplaceKeepsWellFormed(ideas: seq<Idea>, id: nat, idea: Idea, n: nat, n': nat, after: seq<Idea>)
    requires id < |ideas| && n <= n' && after == ideas[id := idea]
    requires forall i :: 0 <= i < |ideas| ==> WellFormed(ideas[i], n)
    requires WellFormed(idea, n')
    ensures forall i :: 0 <= i < |after| ==> WellFormed(after[i], n')
  {
    forall i | 0 <= i < |after| ensures WellFormed(after[i], n') {
      if i != id {
        assert WellFormed(ideas[i], n);
      }
    }
  }

  /** Appending a well-formed idea keeps the store well formed and is
      append-only. */
  lemma AppendKeepsWellFormed(ideas: seq<Idea>, idea: Idea, n: nat, after: seq<Idea>)
    requires after == ideas + [idea]
    requires forall i :: 0 <= i < |ideas| ==> WellFormed(ideas[i], n)
    requires WellFormed(idea, n)
    ensures forall i :: 0 <= i < |after| ==> WellFormed(after[i], n)
    ensures AppendOnly(ideas, after)
  {
    forall i | 0 <= i < |after| ensures WellFormed(after[i], n) {
      if i < |ideas| {
        assert after[i] == ideas[i];
      }
    }
  }

  /** Timelines and feedback lists only grow at their end, and no idea
      disappears. */
  ghost predicate AppendOnly(before: seq<Idea>, after: seq<Idea>)
  {
    && |before| <= |after|
    && forall i :: 0 <= i < |before| ==>
         before[i].timeline <= after[i].timeline && before[i].feedback <= after[i].feedback
  }

  /** Replacing one idea by a version whose timeline and feedback extend the
      old ones is append-only. */
  lemma ReplaceAppendOnly(ideas: seq<Idea>, id: nat, idea: Idea, after: seq<Idea>)
    requires id < |ideas| && after == ideas[id := idea]
    requires ideas[id].timeline <= idea.timeline && ideas[id].feedback <= idea.feedback
    ensures AppendOnly(ideas, after)
  {
  }

  // ---------------------------------------------------------------------
  // Similarity against the existing ideas (submission)
  // ---------------------------------------------------------------------

  /** The text an idea is compared by: title, a space, and the description
      or "" when there is none. */
  function IdeaText(idea: Idea): string
  {
    idea.title + " " + (if idea.description.Some? then idea.description.value else [])
  }

  /** The similarity of `text` to each of `existing`, in order. */
  function Scores(text: string, existing: seq<Idea>): (r: seq<nat>)
    ensures |r| == |existing|
    ensures forall i :: 0 <= i < |existing| ==> r[i] == Similarity.Similarity(text, IdeaText(existing[i]))
  {
    seq(|existing|, i requires 0 <= i < |existing| => Similarity.Similarity(text, IdeaText(existing[i])))
  }

  /** The largest of `xs`, 0 for none. */
  function MaxOf(xs: seq<nat>): (m: nat)
    ensures forall i :: 0 <= i < |xs| ==> xs[i] <= m
    ensures m == 0 || exists i :: 0 <= i < |xs| && xs[i] == m
  {
    if xs == [] then 0
    else
      var m := MaxOf(xs[..|xs| - 1]);
      assert forall i :: 0 <= i < |xs| - 1 ==> xs[..|xs| - 1][i] == xs[i];
      if xs[|xs| - 1] > m then xs[|xs| - 1] else m
  }

  /** The highest similarity of `text` to any of `existing`, 0 when there
      are none; it is reached by one of them and bounded by 100. */
  function MaxSimilarity(text: string, existing: seq<Idea>): (h: nat)
    ensures h <= 100
    ensures forall i :: 0 <= i < |existing| ==> Similarity.Similarity(text, IdeaText(existing[i])) <= h
    ensures h == 0 || exists i :: 0 <= i < |existing| && Similarity.Similarity(text, IdeaText(existing[i])) == h
  {
    var xs := Scores(text, existing);
    var h := MaxOf(xs);
    assert h == 0 || h <= 100 by {
      if h != 0 {
        var i :| 0 <= i < |xs| && xs[i] == h;
      }
    }
    h
  }

  /** The submission loop: `highestSimilarity` is raised by every existing
      idea that scores above it. */
  method HighestSimilarity(text: string, existing: seq<Idea>) returns (highest: nat)
    ensures highest == MaxSimilarity(text, existing)
  {
    ghost var xs := Scores(text, existing);
    highest := 0;
    for i := 0 to |existing|
      invariant highest == MaxOf(xs[..i])
    {
      assert xs[..i + 1][..i] == xs[..i];
      var score := Similarity.SimilarityScore(text, IdeaText(existing[i]));
      if score > highest {
        highest := score;
      }
    }
    assert xs[..|existing|] == xs;
  }

  // ---------------------------------------------------------------------
  // Queries
  // ---------------------------------------------------------------------

  /** The mentor's pending list: the ids of exactly the Pending ideas, in
      creation order. */
  function PendingIds(ideas: seq<Idea>): (r: seq<Id>)
    ensures forall k :: k in r ==> k < |ideas|
    ensures forall k :: 0 <= k < |ideas| ==> (k in r <==> ideas[k].status == Pending)
    ensures forall a, b :: 0 <= a < b < |r| ==> r[a] < r[b]
  {
    if ideas == [] then []
    else
      var r := PendingIds(ideas[..|ideas| - 1]);
      assert forall a :: 0 <= a < |r| ==> r[a] < |ideas| - 1 by {
        forall a | 0 <= a < |r| ensures r[a] < |ideas| - 1 {
          assert r[a] in r;
        }
      }
      if ideas[|ideas| - 1].status == Pending then r + [|ideas| - 1] else r
  }

  /** The student's notification list: the notifications of the student's
      own ideas, idea by idea. */
  function OwnNotifications(ideas: seq<Idea>, user: Id): (r: seq<Notification>)
    ensures forall n :: n in r <==>
              exists i :: 0 <= i < |ideas| && ideas[i].createdBy == user && n in ideas[i].notifications
  {
    if ideas == [] then []
    else
      var r := OwnNotifications(ideas[..|ideas| - 1], user);
      var last := ideas[|ideas| - 1];
      var r' := if last.createdBy == user then r + last.notifications else r;
      assert forall n :: n in r' ==>
               exists i :: 0 <= i < |ideas| && ideas[i].createdBy == user && n in ideas[i].notifications by {
        forall n | n in r'
          ensures exists i :: 0 <= i < |ideas| && ideas[i].createdBy == user && n in ideas[i].notifications
        {
          if n in r {
            var i :| 0 <= i < |ideas| - 1 && ideas[..|ideas| - 1][i].createdBy == user && n in ideas[..|ideas| - 1][i].notifications;
            assert ideas[i] == ideas[..|ideas| - 1][i];
          } else {
            assert ideas[|ideas| - 1].createdBy == user && n in ideas[|ideas| - 1].notifications;
          }
        }
      }
      assert forall n :: (exists i :: 0 <= i < |ideas| && ideas[i].createdBy == user && n in ideas[i].notifications) ==> n in r' by {
        forall n | exists i :: 0 <= i < |ideas| && ideas[i].createdBy == user && n in ideas[i].notifications
          ensures n in r'
        {
          var i :| 0 <= i < |ideas| && ideas[i].createdBy == user && n in ideas[i].notifications;
          if i < |ideas| - 1 {
            assert ideas[..|ideas| - 1][i] == ideas[i];
          }
        }
      }
      r'
  }

  /** `notifications.id(nid)`: the position of the first notification with
      that id. */
  function IndexOfNotification(ns: seq<Notification>, nid: Id): (r: Option<nat>)
    ensures r.Some? ==> r.value < |ns| && ns[r.value].id == nid &&
                        forall j :: 0 <= j < r.value ==> ns[j].id != nid
    ensures r.None? ==> forall j :: 0 <= j < |ns| ==> ns[j].id != nid
  {
    if ns == [] then None
    else if ns[0].id == nid then Some(0)
    else
      var r := IndexOfNotification(ns[1..], nid);
      if r.Some? then Some(r.value + 1) else None
  }

  /** Where mark-as-read finds a notification: the first of the user's ideas,
      from position `from` on, that holds one with that id, and its first
      such entry. */
  function FirstNotificationFrom(ideas: seq<Idea>, user: Id, nid: Id, from: nat): (r: Option<(nat, nat)>)
    requires from <= |ideas|
    ensures r.Some? ==> from <= r.value.0 < |ideas| && ideas[r.value.0].createdBy == user &&
                        IndexOfNotification(ideas[r.value.0].notifications, nid) == Some(r.value.1)
    ensures r.Some? ==> forall i :: from <= i < r.value.0 && ideas[i].createdBy == user ==>
                          IndexOfNotification(ideas[i].notifications, nid).None?
    ensures r.None? ==> forall i :: from <= i < |ideas| && ideas[i].createdBy == user ==>
                          IndexOfNotification(ideas[i].notifications, nid).None?
    decreases |ideas| - from
  {
    if from == |ideas| then None
    else if ideas[from].createdBy == user && IndexOfNotification(ideas[from].notifications, nid).Some? then
      Some((from, IndexOfNotification(ideas[from].notifications, nid).value))
    else FirstNotificationFrom(ideas, user, nid, from + 1)
  }

  /** The mark-as-read search loop: the user's ideas are visited in order and
      the search stops at the first idea holding the notification. */
  method FindNotification(ideas: seq<Idea>, user: Id, nid: Id) returns (loc: Option<(nat, nat)>)
    ensures loc == FirstNotificationFrom(ideas, user, nid, 0)
  {
    for i := 0 to |ideas|
      invariant FirstNotificationFrom(ideas, user, nid, 0) == FirstNotificationFrom(ideas, user, nid, i)
    {
      if ideas[i].createdBy == user {
        var j := IndexOfNotification(ideas[i].notifications, nid);
        if j.Some? {
          return Some((i, j.value));
        }
      }
    }
    return None;
  }

  /** The duplicate-feedback guard: a linear search for an entry by the
      mentor. */
  method FeedbackGiven(fs: seq<Feedback>, mentor: Principal) returns (found: bool)
    ensures found <==> HasFeedbackFrom(fs, mentor.id)
    ensures found <==> Findings.AlreadyGiven(fs, mentor)
  {
    Findings.AlreadyGivenIffHasFeedback(fs, mentor);
    for i := 0 to |fs|
      invariant forall j :: 0 <= j < i ==> fs[j].mentorId != mentor.id
    {
      Findings.SameUserIffSameId(fs[i].mentorId, mentor);
      if Findings.SameUser(fs[i].mentorId, mentor) {
        return true;
      }
    }
    return false;
  }

  /** Appending feedback from a mentor who has none keeps one entry per
      mentor. */
  lemma AppendKeepsOneFeedbackPerMentor(fs: seq<Feedback>, f: Feedback)
    requires OneFeedbackPerMentor(fs) && !HasFeedbackFrom(fs, f.mentorId)
    ensures OneFeedbackPerMentor(fs + [f])
  {
    var fs' := fs + [f];
    forall i, j | 0 <= i < j < |fs'| ensures fs'[i].mentorId != fs'[j].mentorId {
      if j == |fs| {
        assert fs'[i] == fs[i];
      }
    }
  }

  // ---------------------------------------------------------------------
  // Statistics
  // ---------------------------------------------------------------------

  function CountStatus(ideas: seq<Idea>, s: Status): (n: nat)
    ensures n <= |ideas|
  {
    if ideas == [] then 0
    else CountStatus(ideas[..|ideas| - 1], s) + (if ideas[|ideas| - 1].status == s then 1 else 0)
  }

  function CountFlagged(ideas: seq<Idea>): (n: nat)
    ensures n <= |ideas|
  {
    if ideas == [] then 0
    else CountFlagged(ideas[..|ideas| - 1]) + (if ideas[|ideas| - 1].plagiarismFlag then 1 else 0)
  }

  function UsersWithRole(users: map<Id, User>, r: Role): set<Id>
  {
    set k | k in users && users[k].role == r
  }

  /** Counting per status over the four enumeration values accounts for
      every idea exactly once. */
  lemma {:induction false} StatusCountsPartition(ideas: seq<Idea>)
    ensures CountStatus(ideas, Pending) + CountStatus(ideas, Reviewed) +
            CountStatus(ideas, Approved) + CountStatus(ideas, Rejected) == |ideas|
  {
    if ideas != [] {
      StatusCountsPartition(ideas[..|ideas| - 1]);
    }
  }

  /** Every user holds exactly one of the three roles. */
  lemma RoleCountsPartition(users: map<Id, User>)
    ensures |UsersWithRole(users, Student)| + |UsersWithRole(users, Mentor)| +
            |UsersWithRole(users, Admin)| == |users|
  {
    var s, m, a := UsersWithRole(users, Student), UsersWithRole(users, Mentor), UsersWithRole(users, Admin);
    assert s * m == {} && (s + m) * a == {};
    assert |s + m| == |s| + |m|;
    assert |s + m + a| == |s + m| + |a|;
    assert s + m + a == users.Keys;
  }

  // ---------------------------------------------------------------------
  // Updates applied by the handlers
  // ---------------------------------------------------------------------

  /** The record a submission creates: trimmed title and domain, the
      description only for a text submission, the attachment only for a file
      one, the computed scores, flagged when the similarity reaches 70, Pending
      and unlocked, with one opening timeline entry. */
  function SubmittedIdea(creator: Id, title: string, domain: string, description: string, file: Option<Upload>,
                         similarity: nat, feasibility: nat, now: Tick): (idea: Idea)
    ensures idea.title == Trim(title) && idea.domain == Trim(domain) && idea.createdBy == creator
    ensures idea.submissionType == File <==> file.Some?
    ensures idea.status == Pending && !idea.isLocked && idea.assignedMentor == None
    ensures idea.feedback == [] && idea.notifications == []
    ensures idea.similarityScore == similarity && idea.feasibilityScore == feasibility
    ensures idea.plagiarismFlag <==> similarity >= 70
    ensures |idea.timeline| == 1 && idea.timeline[0].status == Pending && idea.timeline[0].updatedBy == creator
    ensures idea.timeline[0].note == Submitted(similarity >= 70)
    ensures idea.description == (if file.Some? then None else Some(description))
    ensures idea.file == (if file.Some? then Some(IdeaAttachment(file.value)) else None)
    ensures Trim(title) != [] && Trim(domain) != [] && (file.Some? || description != []) ==> RecordWellFormed(idea)
  {
    var flag := similarity >= 70;
    Idea(Trim(title), Trim(domain), if file.Some? then File else Text,
         if file.Some? then None else Some(description),
         if file.Some? then Some(IdeaAttachment(file.value)) else None,
         feasibility, similarity, flag, Pending, false, creator, None, [],
         [TimelineEntry(Pending, Submitted(flag), creator, now)],
         [])
  }

  /** The record after an edit: each non-empty field replaces the stored one
      (title and domain trimmed by the schema), and an upload switches the
      idea to a file submission. Nothing is re-scored: the scores, the
      plagiarism flag and the mentor stay, as do status, lock, history and
      ownership, and a record that keeps a non-blank title and domain stays
      well formed. */
  function EditedIdea(idea: Idea, title: string, domain: string, description: string, file: Option<Upload>): (e: Idea)
    ensures e.status == idea.status && e.isLocked == idea.isLocked && e.createdBy == idea.createdBy
    ensures e.timeline == idea.timeline && e.feedback == idea.feedback && e.notifications == idea.notifications
    ensures e.title == (if title != [] then Trim(title) else idea.title)
    ensures e.domain == (if domain != [] then Trim(domain) else idea.domain)
    ensures e.description == (if description != [] then Some(description) else idea.description)
    ensures e.similarityScore == idea.similarityScore && e.feasibilityScore == idea.feasibilityScore
    ensures e.plagiarismFlag == idea.plagiarismFlag && e.assignedMentor == idea.assignedMentor
    ensures file.Some? ==> e.submissionType == File && e.file == Some(IdeaAttachment(file.value))
    ensures file.None? ==> e.submissionType == idea.submissionType && e.file == idea.file
    ensures RecordWellFormed(idea) && e.title != [] && e.domain != [] ==> RecordWellFormed(e)
  {
    idea.(
      title := if title != [] then Trim(title) else idea.title,
      domain := if domain != [] then Trim(domain) else idea.domain,
      description := if description != [] then Some(description) else idea.description,
      submissionType := if file.Some? then File else idea.submissionType,
      file := if file.Some? then Some(IdeaAttachment(file.value)) else idea.file)
  }

  /** The record after a mentor analysis: a supplied score replaces the
      stored one, the plagiarism flag is not recomputed, and one timeline
      entry under the unchanged status records the resulting scores. */
  function AnalyzedIdea(before: Idea, feasibility: Option<int>, similarity: Option<int>, actor: Id, now: Tick): (after: Idea)
    ensures after.feasibilityScore == (if feasibility.Some? then feasibility.value else before.feasibilityScore)
    ensures after.similarityScore == (if similarity.Some? then similarity.value else before.similarityScore)
    ensures after.plagiarismFlag == before.plagiarismFlag
    ensures after.status == before.status && after.isLocked == before.isLocked
    ensures after.feedback == before.feedback && after.notifications == before.notifications
    ensures after.timeline == before.timeline +
              [TimelineEntry(before.status, Analysis(after.feasibilityScore, after.similarityScore), actor, now)]
    ensures RecordWellFormed(before) ==> RecordWellFormed(after)
  {
    var f := if feasibility.Some? then feasibility.value else before.feasibilityScore;
    var s := if similarity.Some? then similarity.value else before.similarityScore;
    before.(feasibilityScore := f, similarityScore := s,
            timeline := before.timeline + [TimelineEntry(before.status, Analysis(f, s), actor, now)])
  }

  /** The record after a review: the new status, locked by an approval or a
      rejection (never unlocked), a feedback entry exactly when the comment is
      not blank, one timeline entry with the new status, and one unread
      notification for the creator carrying the fresh id `nid`. */
  function ReviewedIdea(before: Idea, s: Status, mentor: Id, feedback: string, nid: Id, now: Tick): (after: Idea)
    ensures after.status == s
    ensures after.isLocked <==> s == Approved || s == Rejected || before.isLocked
    ensures after.feedback == before.feedback + (if Trim(feedback) != [] then [Feedback(mentor, feedback, now)] else [])
    ensures after.timeline == before.timeline + [TimelineEntry(s, Decision(s, feedback), mentor, now)]
    ensures after.notifications == before.notifications +
              [Notification(nid, before.createdBy, s, feedback, false, now)]
    ensures after.createdBy == before.createdBy && after.title == before.title
    ensures RecordWellFormed(before) ==> RecordWellFormed(after)
    ensures NotificationIdsBelow(before, nid) ==> NotificationIdsBelow(after, nid + 1)
  {
    var entry := Notification(nid, before.createdBy, s, feedback, false, now);
    var after := before.(
      status := s,
      isLocked := if s == Approved || s == Rejected then true else before.isLocked,
      feedback := before.feedback + (if Trim(feedback) != [] then [Feedback(mentor, feedback, now)] else []),
      timeline := before.timeline + [TimelineEntry(s, Decision(s, feedback), mentor, now)],
      notifications := before.notifications + [entry]);
    assert NotificationIdsBelow(before, nid) ==> NotificationIdsBelow(after, nid + 1) by {
      if NotificationIdsBelow(before, nid) {
        forall k | 0 <= k < |after.notifications| ensures after.notifications[k].id < nid + 1 {
          if k < |before.notifications| {
            assert after.notifications[k] == before.notifications[k];
          }
        }
      }
    }
    after
  }

  /** The record after a mentor assignment: the mentor is recorded and the
      timeline notes it under the unchanged status; the lock stays. */
  function AssignedIdea(before: Idea, mentorId: Id, mentor: User, actor: Id, now: Tick): (after: Idea)
    ensures after.assignedMentor == Some(mentorId)
    ensures after.status == before.status && after.isLocked == before.isLocked
    ensures after.feedback == before.feedback && after.notifications == before.notifications
    ensures after.timeline == before.timeline + [TimelineEntry(before.status, Assignment(mentor.name, mentor.email), actor, now)]
    ensures RecordWellFormed(before) ==> RecordWellFormed(after)
  {
    before.(assignedMentor := Some(mentorId),
            timeline := before.timeline + [TimelineEntry(before.status, Assignment(mentor.name, mentor.email), actor, now)])
  }

  /** The record after notification `j` is marked read: that entry alone
      changes, and only in its read flag. */
  function ReadMarked(before: Idea, j: nat): (after: Idea)
    requires j < |before.notifications|
    ensures |after.notifications| == |before.notifications|
    ensures after.notifications[j] == before.notifications[j].(isRead := true)
    ensures forall k :: 0 <= k < |before.notifications| && k != j ==> after.notifications[k] == before.notifications[k]
    ensures after.timeline == before.timeline && after.feedback == before.feedback
    ensures after.status == before.status && after.isLocked == before.isLocked
    ensures forall n :: WellFormed(before, n) ==> WellFormed(after, n)
  {
    before.(notifications := before.notifications[j := before.notifications[j].(isRead := true)])
  }

  /** The e-mail a review requests. */
  function ReviewEmail(idea: Idea, s: Status, feedback: string): (e: Email)
    ensures e.to == idea.createdBy && e.decided == s
    ensures e.ideaTitle == idea.title && e.comment == feedback
  {
    Email(idea.createdBy, idea.title, s, feedback)
  }
}
