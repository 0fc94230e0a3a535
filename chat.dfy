/** The gated chat between a student and the mentor assigned to the
    student's idea: at most one conversation per idea, participant and admin
    access checks, sending to the other participant, soft deletion and the
    redacted message listing. Conversation and message ids are positions in
    creation order. */
module Chat {
  import opened Common
  import opened Text
  import opened IdeaModel

  /** A conversation about one idea between its creator and its mentor. */
  datatype Conversation = Conversation(ideaId: Id, studentId: Id, mentorId: Id, createdAt: Tick, updatedAt: Tick)

  /** The attachment slot of a message; both parts default to "". */
  datatype MessageFile = MessageFile(fileName: string, fileUrl: string)

  /** A stored message. `file` is None once the message has been deleted;
      `deletedAt` and `deletedBy` are None (null) until then. */
  datatype Message = Message(
    conversationId: Id,
    senderId: Id,
    receiverId: Id,
    text: string,
    file: Option<MessageFile>,
    isRead: bool,
    isDeleted: bool,
    deletedAt: Option<Tick>,
    deletedBy: Option<Id>,
    createdAt: Tick)

  /** The schema's uniqueness of `ideaId`. */
  ghost predicate OneConversationPerIdea(cs: seq<Conversation>)
  {
    forall a, b :: 0 <= a < b < |cs| ==> cs[a].ideaId != cs[b].ideaId
  }

  /** A message is either live, with no deletion record, or deleted, with
      its content cleared and its deletion time and author recorded. */
  predicate DeletionConsistent(m: Message)
  {
    && (m.isDeleted <==> m.deletedAt.Some?)
    && (m.isDeleted <==> m.deletedBy.Some?)
    && (m.isDeleted ==> m.text == [] && m.file.None?)
  }

  /** A message as created, with the schema's defaults: an empty file slot,
      unread and not deleted. */
  function NewMessage(conversationId: Id, senderId: Id, receiverId: Id, text: string, now: Tick): (m: Message)
    ensures DeletionConsistent(m) && !m.isDeleted && !m.isRead
    ensures m.file == Some(MessageFile([], []))
    ensures m.conversationId == conversationId && m.senderId == senderId && m.receiverId == receiverId
    ensures m.text == text
  {
    Message(conversationId, senderId, receiverId, text, Some(MessageFile([], [])), false, false, None, None, now)
  }

  /** A soft-deleted message: content cleared, deletion recorded, and its
      conversation, sender, receiver, read flag and creation time kept. */
  function Deleted(m: Message, user: Id, now: Tick): (d: Message)
    ensures DeletionConsistent(d) && d.isDeleted
    ensures d.deletedAt == Some(now) && d.deletedBy == Some(user)
    ensures d.conversationId == m.conversationId && d.senderId == m.senderId && d.receiverId == m.receiverId
    ensures d.isRead == m.isRead && d.createdAt == m.createdAt
  {
    Message(m.conversationId, m.senderId, m.receiverId, [], None, m.isRead, true, Some(now), Some(user), m.createdAt)
  }

  /** Whether the caller may see and write to a conversation: one of its two
      participants, or an admin. */
  predicate Participant(p: Principal, c: Conversation)
  {
    p.id == c.studentId || p.id == c.mentorId || p.role == Admin
  }

  /** Whether the caller may open the chat of an idea: its creator, its
      assigned mentor, or an admin. */
  predicate MayJoin(p: Principal, idea: Idea)
  {
    p.id == idea.createdBy || idea.assignedMentor == Some(p.id) || p.role == Admin
  }

  /** Who receives a message: the mentor when the student sends it, the
      student when anyone else (the mentor or an admin) does. */
  function Receiver(c: Conversation, sender: Id): (r: Id)
    ensures sender == c.studentId ==> r == c.mentorId
    ensures sender != c.studentId ==> r == c.studentId
  {
    if sender == c.studentId then c.mentorId else c.studentId
  }

  /** In a conversation between two different people, each participant's
      message goes to the other one. */
  lemma ReceiverIsOtherParticipant(c: Conversation, sender: Id)
    requires c.studentId != c.mentorId
    requires sender == c.studentId || sender == c.mentorId
    ensures Receiver(c, sender) != sender
    ensures {Receiver(c, sender), sender} == {c.studentId, c.mentorId}
  {
  }

  /** The first conversation about an idea (the `findOne` lookup). */
  function ConversationFor(cs: seq<Conversation>, ideaId: Id): (r: Option<Id>)
    ensures r.Some? ==> r.value < |cs| && cs[r.value].ideaId == ideaId &&
                        forall k :: 0 <= k < r.value ==> cs[k].ideaId != ideaId
    ensures r.None? ==> forall k :: 0 <= k < |cs| ==> cs[k].ideaId != ideaId
  {
    if cs == [] then None
    else if cs[0].ideaId == ideaId then Some(0)
    else
      var r := ConversationFor(cs[1..], ideaId);
      if r.Some? then Some(r.value + 1) else None
  }

  /** With one conversation per idea, the lookup finds the only one. */
  lemma ConversationForIsUnique(cs: seq<Conversation>, ideaId: Id, k: nat)
    requires OneConversationPerIdea(cs)
    requires k < |cs| && cs[k].ideaId == ideaId
    ensures ConversationFor(cs, ideaId) == Some(k)
  {
  }

  /** The lookup as a linear search. */
  method FindConversation(cs: seq<Conversation>, ideaId: Id) returns (r: Option<Id>)
    ensures r == ConversationFor(cs, ideaId)
  {
    for i := 0 to |cs|
      invariant forall k :: 0 <= k < i ==> cs[k].ideaId != ideaId
    {
      if cs[i].ideaId == ideaId {
        return Some(i);
      }
    }
    return None;
  }

  /** Whether a conversation is listed for the caller: students see the ones
      they are the student of, mentors the ones they mentor, admins all. */
  predicate Listed(p: Principal, c: Conversation)
  {
    match p.role
    case Student => c.studentId == p.id
    case Mentor => c.mentorId == p.id
    case Admin => true
  }

  /** The caller's conversations, in creation order. */
  function MyConversations(cs: seq<Conversation>, p: Principal): (r: seq<Id>)
    ensures forall k :: k in r ==> k < |cs|
    ensures forall k :: 0 <= k < |cs| ==> (k in r <==> Listed(p, cs[k]))
    ensures forall a, b :: 0 <= a < b < |r| ==> r[a] < r[b]
  {
    if cs == [] then []
    else
      var r := MyConversations(cs[..|cs| - 1], p);
      assert forall a :: 0 <= a < |r| ==> r[a] < |cs| - 1 by {
        forall a | 0 <= a < |r| ensures r[a] < |cs| - 1 {
          assert r[a] in r;
        }
      }
      if Listed(p, cs[|cs| - 1]) then r + [|cs| - 1] else r
  }

  /** An admin is listed every conversation. */
  lemma AdminSeesAll(cs: seq<Conversation>, p: Principal)
    requires p.role == Admin
    ensures MyConversations(cs, p) == seq(|cs|, k => k)
  {
  }

  /** The ids of the messages of a conversation, in creation order. */
  function Thread(ms: seq<Message>, cid: Id): (r: seq<Id>)
    ensures forall k :: k in r ==> k < |ms| && ms[k].conversationId == cid
    ensures forall k :: 0 <= k < |ms| && ms[k].conversationId == cid ==> k in r
    ensures forall a, b :: 0 <= a < b < |r| ==> r[a] < r[b]
  {
    if ms == [] then []
    else
      var r := Thread(ms[..|ms| - 1], cid);
      assert forall a :: 0 <= a < |r| ==> r[a] < |ms| - 1 by {
        forall a | 0 <= a < |r| ensures r[a] < |ms| - 1 {
          assert r[a] in r;
        }
      }
      if ms[|ms| - 1].conversationId == cid then r + [|ms| - 1] else r
  }

  /** A message as the listing shows it: a deleted message has no text and
      no file, whatever is stored. */
  datatype MessageView = MessageView(
    id: Id,
    text: string,
    senderId: Id,
    createdAt: Tick,
    isRead: bool,
    file: Option<MessageFile>,
    isDeleted: bool,
    deletedAt: Option<Tick>)

  function View(id: Id, m: Message): (v: MessageView)
    ensures v.id == id && v.senderId == m.senderId && v.isDeleted == m.isDeleted
    ensures v.isDeleted ==> v.text == [] && v.file.None?
    ensures !v.isDeleted ==> v.text == m.text && v.file == m.file
  {
    MessageView(id, if m.isDeleted then [] else m.text, m.senderId, m.createdAt, m.isRead,
                if m.isDeleted then None else m.file, m.isDeleted, m.deletedAt)
  }

  /** On a message kept consistent by the routes, the redaction changes
      nothing: deleted messages are already stored blank. */
  lemma RedactionKeepsConsistentContent(id: Id, m: Message)
    requires DeletionConsistent(m)
    ensures View(id, m).text == m.text && View(id, m).file == m.file
  {
  }

  /** The listing of a conversation: its messages in creation order, each
      redacted. */
  function Listing(ms: seq<Message>, cid: Id): (r: seq<MessageView>)
    ensures |r| == |Thread(ms, cid)|
    ensures forall i :: 0 <= i < |r| ==>
              r[i].id < |ms| && ms[r[i].id].conversationId == cid && r[i] == View(r[i].id, ms[r[i].id])
    ensures forall i, j :: 0 <= i < j < |r| ==> r[i].id < r[j].id
  {
    var t := Thread(ms, cid);
    assert forall i :: 0 <= i < |t| ==> t[i] < |ms| by {
      forall i | 0 <= i < |t| ensures t[i] < |ms| {
        assert t[i] in t;
      }
    }
    seq(|t|, i requires 0 <= i < |t| => View(t[i], ms[t[i]]))
  }

  /** Appending a message extends its own conversation's thread by its id
      and leaves every other thread as it was. */
  lemma ThreadAppend(ms: seq<Message>, m: Message, cid: Id)
    ensures Thread(ms + [m], cid) == Thread(ms, cid) + (if m.conversationId == cid then [|ms|] else [])
  {
  }

  /** Threads depend only on which conversation each message belongs to. */
  lemma {:induction false} ThreadFollowsRouting(ms: seq<Message>, ms': seq<Message>, cid: Id)
    requires |ms| == |ms'|
    requires forall k :: 0 <= k < |ms| ==> ms[k].conversationId == ms'[k].conversationId
    ensures Thread(ms, cid) == Thread(ms', cid)
  {
    if ms != [] {
      ThreadFollowsRouting(ms[..|ms| - 1], ms'[..|ms'| - 1], cid);
    }
  }

  /** A sent message appears last in its conversation's listing, and no
      other conversation's listing changes. */
  lemma SentMessageListedLast(ms: seq<Message>, m: Message, cid: Id)
    ensures m.conversationId == cid ==> Listing(ms + [m], cid) == Listing(ms, cid) + [View(|ms|, m)]
    ensures m.conversationId != cid ==> Listing(ms + [m], cid) == Listing(ms, cid)
  {
  }

  /** Soft deleting a message keeps every listing's entries and order, and
      shows the deleted message blank. */
  lemma DeletionListing(ms: seq<Message>, mid: Id, user: Id, now: Tick, cid: Id)
    requires mid < |ms|
    ensures |Listing(ms[mid := Deleted(ms[mid], user, now)], cid)| == |Listing(ms, cid)|
    ensures forall i :: 0 <= i < |Listing(ms, cid)| ==>
              var v, v' := Listing(ms, cid)[i], Listing(ms[mid := Deleted(ms[mid], user, now)], cid)[i];
              v'.id == v.id && (v.id != mid ==> v' == v) && (v.id == mid ==> v'.isDeleted && v'.text == [] && v'.file.None?)
  {
    var ms' := ms[mid := Deleted(ms[mid], user, now)];
    ThreadFollowsRouting(ms, ms', cid);
  }

  /** The message store and the conversations, as the chat routes keep
      them. */
  class ChatService {
    var conversations: seq<Conversation>
    var messages: seq<Message>

    ghost predicate Valid()
      reads this
    {
      && OneConversationPerIdea(conversations)
      && forall k :: 0 <= k < |messages| ==> DeletionConsistent(messages[k])
    }

    constructor ()
      ensures Valid() && conversations == [] && messages == []
    {
      conversations := [];
      messages := [];
    }

    /** Any user: open the chat of an idea, creating its conversation on
        first use. The idea store is read, never written. */
    method GetOrCreate(p: Principal, ideas: seq<Idea>, ideaId: Id, now: Tick) returns (r: Result<Id>)
      requires Valid()
      modifies this
      ensures Valid() && messages == old(messages)
      ensures ideaId >= |ideas| ==> r == Err(NotFound(IdeaNotFound))
      ensures ideaId < |ideas| && ideas[ideaId].assignedMentor.None? ==> r == Err(BadRequest(MentorNotAssigned))
      ensures ideaId < |ideas| && ideas[ideaId].assignedMentor.Some? ==>
                (r.Ok? <==> MayJoin(p, ideas[ideaId])) && (r.Err? ==> r == Err(Forbidden(ChatNotAllowed)))
      ensures r.Err? ==> conversations == old(conversations)
      ensures r.Ok? && ConversationFor(old(conversations), ideaId).Some? ==>
                r.value == ConversationFor(old(conversations), ideaId).value && conversations == old(conversations)
      ensures r.Ok? && ConversationFor(old(conversations), ideaId).None? ==>
                && r.value == |old(conversations)|
                && conversations == old(conversations) +
                     [Conversation(ideaId, ideas[ideaId].createdBy, ideas[ideaId].assignedMentor.value, now, now)]
      ensures r.Ok? ==> r.value < |conversations| && conversations[r.value].ideaId == ideaId
    {
      if ideaId >= |ideas| {
        return Err(NotFound(IdeaNotFound));
      }
      var idea := ideas[ideaId];
      if idea.assignedMentor.None? {
        return Err(BadRequest(MentorNotAssigned));
      }
      var isStudent := idea.createdBy == p.id;
      var isMentor := idea.assignedMentor.value == p.id;
      var isAdmin := p.role == Admin;
      if !isStudent && !isMentor && !isAdmin {
        return Err(Forbidden(ChatNotAllowed));
      }
      var existing := FindConversation(conversations, ideaId);
      if existing.Some? {
        return Ok(existing.value);
      }
      conversations := conversations + [Conversation(ideaId, idea.createdBy, idea.assignedMentor.value, now, now)];
      r := Ok(|conversations| - 1);
    }

    /** Participant or admin: the redacted messages of a conversation. */
    function ListMessages(p: Principal, cid: Id): (r: Result<seq<MessageView>>)
      reads this
      ensures cid >= |conversations| ==> r == Err(NotFound(ConversationNotFound))
      ensures cid < |conversations| ==>
                (r.Ok? <==> Participant(p, conversations[cid])) && (r.Err? ==> r == Err(Forbidden(NotAllowed)))
      ensures r.Ok? ==> r.value == Listing(messages, cid)
      ensures r.Ok? ==> forall v :: v in r.value ==>
                          v.id < |messages| && messages[v.id].conversationId == cid &&
                          (v.isDeleted ==> v.text == [] && v.file.None?)
      ensures r.Ok? ==> forall k :: 0 <= k < |messages| && messages[k].conversationId == cid ==>
                          exists i :: 0 <= i < |r.value| && r.value[i].id == k
    {
      if cid >= |conversations| then Err(NotFound(ConversationNotFound))
      else if !Participant(p, conversations[cid]) then Err(Forbidden(NotAllowed))
      else
        var listing := Listing(messages, cid);
        assert forall k :: 0 <= k < |messages| && messages[k].conversationId == cid ==>
                 exists i :: 0 <= i < |listing| && listing[i].id == k by {
          forall k | 0 <= k < |messages| && messages[k].conversationId == cid
            ensures exists i :: 0 <= i < |listing| && listing[i].id == k {
            var t := Thread(messages, cid);
            var i :| 0 <= i < |t| && t[i] == k;
            assert listing[i].id == k;
          }
        }
        Ok(listing)
    }

    /** Participant or admin: send a message to the other participant and
        mark the conversation as updated. */
    method Send(p: Principal, cid: Id, rawText: string, now: Tick) returns (r: Result<Id>)
      requires Valid()
      modifies this
      ensures Valid()
      ensures Trim(rawText) == [] ==> r == Err(BadRequest(MessageTextRequired))
      ensures Trim(rawText) != [] && cid >= |old(conversations)| ==> r == Err(NotFound(ConversationNotFound))
      ensures Trim(rawText) != [] && cid < |old(conversations)| ==>
                (r.Ok? <==> Participant(p, old(conversations)[cid])) && (r.Err? ==> r == Err(Forbidden(NotAllowed)))
      ensures r.Err? ==> conversations == old(conversations) && messages == old(messages)
      ensures r.Ok? ==>
                && cid < |old(conversations)|
                && r.value == |old(messages)|
                && messages == old(messages) +
                     [NewMessage(cid, p.id, Receiver(old(conversations)[cid], p.id), Trim(rawText), now)]
                && conversations == old(conversations)[cid := old(conversations)[cid].(updatedAt := now)]
    {
      var text := Trim(rawText);
      if text == [] {
        return Err(BadRequest(MessageTextRequired));
      }
      if cid >= |conversations| {
        return Err(NotFound(ConversationNotFound));
      }
      var convo := conversations[cid];
      var isStudent := convo.studentId == p.id;
      var isMentor := convo.mentorId == p.id;
      if !isStudent && !isMentor && p.role != Admin {
        return Err(Forbidden(NotAllowed));
      }
      var receiverId := if isStudent then convo.mentorId else convo.studentId;
      messages := messages + [NewMessage(cid, p.id, receiverId, text, now)];
      conversations := conversations[cid := convo.(updatedAt := now)];
      r := Ok(|messages| - 1);
    }

    /** Participant or admin: soft delete a message, which only its sender
        or an admin may do. */
    method SoftDelete(p: Principal, mid: Id, now: Tick) returns (r: Result<Id>)
      requires Valid()
      modifies this
      ensures Valid() && conversations == old(conversations)
      ensures mid >= |old(messages)| ==> r == Err(NotFound(MessageNotFound))
      ensures mid < |old(messages)| && old(messages)[mid].conversationId >= |conversations| ==>
                r == Err(NotFound(ConversationNotFound))
      ensures mid < |old(messages)| && old(messages)[mid].conversationId < |conversations| ==>
                var m, c := old(messages)[mid], conversations[old(messages)[mid].conversationId];
                && (!Participant(p, c) ==> r == Err(Forbidden(NotAllowed)))
                && (Participant(p, c) && p.role != Admin && m.senderId != p.id ==> r == Err(Forbidden(OnlySenderOrAdmin)))
                && (Participant(p, c) && (p.role == Admin || m.senderId == p.id) ==> r.Ok?)
      ensures r.Err? ==> messages == old(messages)
      ensures r.Ok? ==> r.value == mid && mid < |old(messages)| &&
                        messages == old(messages)[mid := Deleted(old(messages)[mid], p.id, now)]
    {
      if mid >= |messages| {
        return Err(NotFound(MessageNotFound));
      }
      var msg := messages[mid];
      if msg.conversationId >= |conversations| {
        return Err(NotFound(ConversationNotFound));
      }
      var convo := conversations[msg.conversationId];
      if !Participant(p, convo) {
        return Err(Forbidden(NotAllowed));
      }
      var canDelete := p.role == Admin || msg.senderId == p.id;
      if !canDelete {
        return Err(Forbidden(OnlySenderOrAdmin));
      }
      messages := messages[mid := Deleted(msg, p.id, now)];
      r := Ok(mid);
    }
  }

  /** Opening the same idea's chat twice gives the same conversation, and
      the second call changes nothing. */
  method OpenTwice(chat: ChatService, p: Principal, ideas: seq<Idea>, ideaId: Id, now: Tick, later: Tick)
    returns (first: Result<Id>, second: Result<Id>)
    requires chat.Valid()
    modifies chat
    ensures first == second
    ensures first.Ok? ==> |chat.conversations| <= |old(chat.conversations)| + 1
  {
    first := chat.GetOrCreate(p, ideas, ideaId, now);
    ghost var between := chat.conversations;
    second := chat.GetOrCreate(p, ideas, ideaId, later);
    if first.Ok? {
      ConversationForIsUnique(between, ideaId, first.value);
    }
  }
}
