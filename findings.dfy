/** Three lookups that cannot succeed as the routes write them, each with
    the corrected version the rest of the model uses.

    The owner checks of the edit route and of the feedback route compare a
    stored id, turned into a string, with the caller's id by JavaScript
    strict equality. The authentication middleware attaches the caller's id
    as the user record's ObjectId, not as a string, so the two never compare
    equal. The chat routes read the caller as `String(req.user.id)`, which
    is the comparison intended.

    The mark-as-read route looks a notification up by its subdocument
    `_id`, which the notification schema switches off. */
module Findings {
  import opened Common
  import opened Text
  import opened IdeaModel

  /** The operands of a strict comparison: a string, or an ObjectId object. */
  datatype JsValue = Str(s: string) | ObjectIdValue(id: Id)

  /** `===`: two strings are equal when their characters are; a string never
      equals an object, and the stored id and the request's id are distinct
      objects, so no object operand compares equal here. */
  predicate StrictEquals(a: JsValue, b: JsValue)
  {
    a.Str? && b.Str? && a.s == b.s
  }

  /** `id.toString()`: the id's text (hexadecimal digits for a Mongo id,
      decimal digits for the natural numbers standing for them here). */
  function IdText(id: Id): string
  {
    NatToString(id)
  }

  /** `req.user.id` as the authentication middleware sets it: the ObjectId. */
  function RequestUserId(p: Principal): JsValue
  {
    ObjectIdValue(p.id)
  }

  /** `String(req.user.id)`: the caller's id as text. */
  function CallerText(p: Principal): JsValue
  {
    Str(IdText(p.id))
  }

  // -------------------------------------------------------------------
  // The edit route's owner check
  // -------------------------------------------------------------------

  /** The edit route's refusal test, as written. */
  predicate EditRefusedAsWritten(createdBy: Id, p: Principal)
  {
    !StrictEquals(Str(IdText(createdBy)), RequestUserId(p))
  }

  /** As written, even the idea's creator is refused, so no edit succeeds. */
  lemma CreatorRefusedAsWritten(createdBy: Id, p: Principal)
    requires p.id == createdBy
    ensures EditRefusedAsWritten(createdBy, p)
  {
  }

  /** The corrected comparison: both sides as text. */
  predicate SameUser(stored: Id, p: Principal)
  {
    StrictEquals(Str(IdText(stored)), CallerText(p))
  }

  /** The corrected comparison holds exactly for the caller's own id. */
  lemma SameUserIffSameId(stored: Id, p: Principal)
    ensures SameUser(stored, p) <==> stored == p.id
  {
    if SameUser(stored, p) {
      NatToStringInjective(stored, p.id);
    }
  }

  lemma {:induction false} NatToStringInjective(a: nat, b: nat)
    requires NatToString(a) == NatToString(b)
    ensures a == b
    decreases a
  {
    var s := NatToString(a);
    SingleDigitText(a);
    SingleDigitText(b);
    if a < 10 {
      assert s[0] == DigitChar(a) && s[0] == DigitChar(b);
    } else {
      var pa, pb := NatToString(a / 10), NatToString(b / 10);
      assert s == pa + [DigitChar(a % 10)] && s == pb + [DigitChar(b % 10)];
      assert pa == s[..|s| - 1] == pb;
      assert DigitChar(a % 10) == s[|s| - 1] == DigitChar(b % 10);
      NatToStringInjective(a / 10, b / 10);
    }
  }

  /** A number is written with one digit exactly when it is below 10. */
  lemma SingleDigitText(n: nat)
    ensures |NatToString(n)| == 1 <==> n < 10
  {
    if n >= 10 {
      assert |NatToString(n / 10)| >= 1;
    }
  }

  // -------------------------------------------------------------------
  // The feedback route's one-entry-per-mentor check
  // -------------------------------------------------------------------

  /** The duplicate-feedback test, as written. */
  predicate AlreadyGivenAsWritten(fs: seq<Feedback>, p: Principal)
  {
    exists i :: 0 <= i < |fs| && StrictEquals(Str(IdText(fs[i].mentorId)), RequestUserId(p))
  }

  /** As written, a mentor who already gave feedback is not detected, and
      the second entry breaks the one-entry-per-mentor rule. */
  lemma RepeatFeedbackAcceptedAsWritten(fs: seq<Feedback>, p: Principal, comment: string, now: Tick)
    requires HasFeedbackFrom(fs, p.id)
    ensures !AlreadyGivenAsWritten(fs, p)
    ensures !OneFeedbackPerMentor(fs + [Feedback(p.id, comment, now)])
  {
    var i :| 0 <= i < |fs| && fs[i].mentorId == p.id;
    var after := fs + [Feedback(p.id, comment, now)];
    assert after[i].mentorId == after[|fs|].mentorId;
  }

  /** The corrected test. */
  predicate AlreadyGiven(fs: seq<Feedback>, p: Principal)
  {
    exists i :: 0 <= i < |fs| && SameUser(fs[i].mentorId, p)
  }

  /** The corrected test detects exactly the mentors with an entry. */
  lemma AlreadyGivenIffHasFeedback(fs: seq<Feedback>, p: Principal)
    ensures AlreadyGiven(fs, p) <==> HasFeedbackFrom(fs, p.id)
  {
    if AlreadyGiven(fs, p) {
      var i :| 0 <= i < |fs| && SameUser(fs[i].mentorId, p);
      SameUserIffSameId(fs[i].mentorId, p);
    }
    if HasFeedbackFrom(fs, p.id) {
      var i :| 0 <= i < |fs| && fs[i].mentorId == p.id;
      SameUserIffSameId(fs[i].mentorId, p);
    }
  }

  // -------------------------------------------------------------------
  // The mark-as-read lookup
  // -------------------------------------------------------------------

  /** A notification subdocument as stored: its `_id`, if it has one. */
  datatype Subdocument = Subdocument(docId: Option<Id>, notification: Notification)

  /** How the notifications are stored: without an `_id`, since the
      notification schema turns the automatic `_id` off. */
  function AsStored(ns: seq<Notification>): (r: seq<Subdocument>)
    ensures |r| == |ns|
    ensures forall i :: 0 <= i < |r| ==> r[i].notification == ns[i]
  {
    seq(|ns|, i requires 0 <= i < |ns| => Subdocument(None, ns[i]))
  }

  /** `notifications.id(x)`: the first subdocument whose `_id` is x. */
  function SubdocumentById(ds: seq<Subdocument>, nid: Id): (r: Option<nat>)
    ensures r.Some? ==> r.value < |ds| && ds[r.value].docId == Some(nid)
    ensures r.None? ==> forall i :: 0 <= i < |ds| ==> ds[i].docId != Some(nid)
  {
    if ds == [] then None
    else if ds[0].docId == Some(nid) then Some(0)
    else
      var r := SubdocumentById(ds[1..], nid);
      if r.Some? then Some(r.value + 1) else None
  }

  /** As written, the lookup finds nothing among the stored notifications,
      so marking a notification as read always answers "Notification not
      found". */
  lemma NotificationNeverFoundAsWritten(ns: seq<Notification>, nid: Id)
    ensures SubdocumentById(AsStored(ns), nid) == None
  {
    var ds := AsStored(ns);
    assert forall i :: 0 <= i < |ds| ==> ds[i].docId == None;
  }
}
