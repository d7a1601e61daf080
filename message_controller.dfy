/**
 * backend/src/api/controllers/messageController.ts: posting a message,
 * the paged message listing, the REST status update, and the per-user
 * delete that turns into a hard delete once every participant has
 * deleted the message.
 */
module MessageController {
  import opened Wrappers
  import opened ErrorTypes
  import opened ObjectIds
  import opened Collections
  import opened MessageModel
  import opened ChatModel
  import opened Store
  import ChatController

  /** MessageResponse; `sender` is flattened into its id and name. */
  datatype MessageResponse = MessageResponse(
    id: MsgId,
    chat: ChatId,
    senderId: UserId,
    senderName: string,
    content: string,
    messageType: MessageType,
    mediaUrl: Option<string>,
    status: MessageStatus,
    readBy: seq<UserId>,
    createdAt: nat,
    updatedAt: nat)

  const NotAuthenticated: string := "User not authenticated"

  /** What `populatedMessage.sender._id` throws when the sender has no user record. */
  const NullSender: Failure := PlainError("TypeError", "Cannot read properties of null (reading '_id')")

  /** The response built from a message with its sender populated (`name || 'Unknown'`). */
  function ResponseOf(users: map<UserId, User>, id: MsgId, m: Message): (r: Result<MessageResponse, Failure>)
    ensures r.Ok? <==> m.sender in users
    ensures r.Err? ==> r.error == NullSender
    ensures r.Ok? ==> r.value.id == id && r.value.chat == m.chat && r.value.senderId == m.sender
    ensures r.Ok? ==> r.value.senderName == NameOrUnknown(users, m.sender) && r.value.senderName != ""
    ensures r.Ok? ==> r.value.content == m.content && r.value.messageType == m.messageType && r.value.mediaUrl == m.mediaUrl
    ensures r.Ok? ==> r.value.status == m.status && r.value.readBy == m.readBy
    ensures r.Ok? ==> r.value.createdAt == m.createdAt && r.value.updatedAt == m.updatedAt
  {
    if m.sender !in users then Err(NullSender)
    else Ok(MessageResponse(id, m.chat, m.sender, NameOrUnknown(users, m.sender), m.content, m.messageType,
                            m.mediaUrl, m.status, m.readBy, m.createdAt, m.updatedAt))
  }

  /** The responses for a list of messages; the first message without a sender record fails them all. */
  function ResponsesOf(users: map<UserId, User>, msgs: map<MsgId, Message>, ids: seq<MsgId>): (r: Result<seq<MessageResponse>, Failure>)
    requires forall i :: 0 <= i < |ids| ==> ids[i] in msgs
    ensures r.Ok? <==> forall i :: 0 <= i < |ids| ==> msgs[ids[i]].sender in users
    ensures r.Err? ==> r.error == NullSender
    ensures r.Ok? ==> |r.value| == |ids| && forall i :: 0 <= i < |ids| ==> ResponseOf(users, ids[i], msgs[ids[i]]) == Ok(r.value[i])
    ensures r.Ok? ==> forall i :: 0 <= i < |ids| ==> r.value[i].id == ids[i] && r.value[i].chat == msgs[ids[i]].chat
  {
    if ids == [] then Ok([])
    else
      match ResponseOf(users, ids[0], msgs[ids[0]])
      case Err(e) => Err(e)
      case Ok(x) =>
        match ResponsesOf(users, msgs, ids[1..])
        case Err(e) =>
          assert exists i :: 1 <= i < |ids| && msgs[ids[i]].sender !in users by {
            var j :| 0 <= j < |ids[1..]| && msgs[ids[1..][j]].sender !in users;
            assert ids[j + 1] == ids[1..][j];
          }
          Err(e)
        case Ok(xs) =>
          assert forall i :: 1 <= i < |ids| ==> ids[i] == ids[1..][i - 1];
          Ok([x] + xs)
  }

  /** The chat lookup of the message handlers: `{ _id, participants: caller, isActive: true }`, of any chat type. */
  predicate ActiveMember(t: Tables, chat: ChatId, caller: UserId)
  {
    chat in t.chats && t.chats[chat].isActive && caller in t.chats[chat].participants
  }

  const ContentOrMediaRequired: string := "Message content or media URL is required"
  const ChatNotFound: string := "Chat not found or user not a participant"

  predicate NoContent(content: string, mediaUrl: Option<string>)
  {
    content == "" && (mediaUrl.None? || mediaUrl.value == "")
  }

  /** The guards of createMessage, in order: the caller, the body, the chat id, the chat. */
  function CreateMessageCheck(t: Tables, caller: Option<UserId>, chatId: IdInput, content: string, mediaUrl: Option<string>)
    : (r: Result<ChatId, Failure>)
    ensures caller.None? ==> r == Err(App(UnauthorizedError(NotAuthenticated)))
    ensures caller.Some? && NoContent(content, mediaUrl) ==> r == Err(App(BadRequestError(ContentOrMediaRequired)))
    ensures caller.Some? && !NoContent(content, mediaUrl) && chatId.Uncastable? ==> r == Err(CastFailure("Chat", "_id", chatId.text))
    ensures caller.Some? && !NoContent(content, mediaUrl) && chatId.Castable? && !ActiveMember(t, chatId.id, caller.value) ==>
      r == Err(App(NotFoundError(ChatNotFound)))
    ensures r.Ok? <==> caller.Some? && !NoContent(content, mediaUrl) && chatId.Castable? && ActiveMember(t, chatId.id, caller.value)
    ensures r.Ok? ==> r.value == chatId.id
  {
    if caller.None? then Err(App(UnauthorizedError(NotAuthenticated)))
    else if NoContent(content, mediaUrl) then Err(App(BadRequestError(ContentOrMediaRequired)))
    else match CastId(chatId, "Chat", "_id")
      case Err(e) => Err(e)
      case Ok(id) =>
        if !ActiveMember(t, id, caller.value) then Err(App(NotFoundError(ChatNotFound)))
        else Ok(id)
  }

  /** The document createMessage builds: status sent, read by its sender, deleted for nobody. */
  function RestMessageFields(sender: UserId, chat: ChatId, content: string, messageType: Option<MessageType>, mediaUrl: Option<string>)
    : MessageFields
  {
    MessageFields(chat, sender, content, Some(MessageTypeName(messageType.GetOr(Text))), mediaUrl, Some(Sent), [sender], Some([]))
  }

  /** With content, the document validates: sent, `readBy = [sender]`, `deletedFor = []`, type defaulting to text. */
  lemma RestMessageShape(sender: UserId, chat: ChatId, content: string, messageType: Option<MessageType>, mediaUrl: Option<string>, id: MsgId, now: nat)
    requires content != ""
    ensures var r := Instantiate(RestMessageFields(sender, chat, content, messageType, mediaUrl), id, now);
      && r.Ok? && r.value.status == Sent && r.value.readBy == [sender] && r.value.deletedFor == []
      && r.value.messageType == (if messageType.None? then Text else messageType.value)
      && r.value.chat == chat && r.value.sender == sender && r.value.createdAt == id
      && WellFormed(r.value)
  {
    MessageTypesAreSix();
  }

  /**
   * The body guard lets a media-only message through, but the schema
   * requires `content`, so saving it fails validation.
   */
  lemma MediaOnlyMessageFailsValidation(sender: UserId, chat: ChatId, messageType: Option<MessageType>, mediaUrl: Option<string>, id: MsgId, now: nat)
    requires !NoContent("", mediaUrl)
    ensures Instantiate(RestMessageFields(sender, chat, "", messageType, mediaUrl), id, now)
         == Err(ValidationFailure("Message", [ContentRequired]))
  {
    MessageTypesAreSix();
    var f := RestMessageFields(sender, chat, "", messageType, mediaUrl);
    assert ParseMessageType(f.messageType.value).Some?;
    assert ValidationErrors(f) == [ContentRequired];
  }

  /** Saving the message under the next id and pointing the chat's `latestMessage` at it. */
  function PostMessage(t: Tables, m: Message, now: nat): (t': Tables)
    requires m.chat in t.chats
    ensures t'.messages == t.messages[t.nextId := m] && t'.nextId == t.nextId + 1 && t'.users == t.users
    ensures t'.chats == t.chats[m.chat := t.chats[m.chat].(latestMessage := Some(t.nextId), updatedAt := now)]
  {
    var c := t.chats[m.chat];
    Tables(t.users, t.chats[m.chat := c.(latestMessage := Some(t.nextId), updatedAt := now)], t.messages[t.nextId := m], t.nextId + 1)
  }

  lemma PostMessageKeepsValid(t: Tables, m: Message, now: nat)
    requires ValidTables(t) && m.chat in t.chats && m.createdAt == t.nextId && WellFormed(m)
    ensures ValidTables(PostMessage(t, m, now))
  {
    var t' := PostMessage(t, m, now);
    assert forall id :: id in t'.chats ==> ActivePair(t'.chats[id]) == ActivePair(t.chats[id]);
    assert forall id :: id in t'.chats ==> t'.chats[id].participants == t.chats[id].participants;
  }

  /** The chat list shows a posted message as the chat's last message. */
  lemma PostedMessageIsLastMessage(t: Tables, m: Message, now: nat)
    requires m.chat in t.chats
    ensures var t' := PostMessage(t, m, now);
      ChatController.LastMessageText(t', t'.chats[m.chat]) == NameOrUnknown(t.users, m.sender) + ": " + m.content
  {
  }

  /**
   * A posted message counts as unread for every other user it is not
   * read by or deleted for, and never for its sender, who is in `readBy`.
   */
  lemma {:induction false} PostedMessageUnreadCounts(t: Tables, m: Message, now: nat, v: UserId)
    requires ValidTables(t) && m.chat in t.chats
    requires m.status == Sent && m.readBy == [m.sender] && m.deletedFor == []
    ensures var t' := PostMessage(t, m, now);
      && (v == m.sender ==> ChatController.UnreadCount(t', m.chat, v) == ChatController.UnreadCount(t, m.chat, v))
      && (v != m.sender ==> ChatController.UnreadCount(t', m.chat, v) == ChatController.UnreadCount(t, m.chat, v) + 1)
  {
    var t' := PostMessage(t, m, now);
    UnreadSetInsert(t, t', t.nextId, m, m.chat, v);
    assert t.nextId !in ChatController.UnreadSet(t, m.chat, v);
    assert ChatController.UnreadFor(m, m.chat, v) <==> v != m.sender;
  }

  /** Storing `m` under `id` adds `id` to a user's unread set exactly when `m` is unread for them. */
  lemma UnreadSetInsert(t: Tables, t': Tables, id: MsgId, m: Message, chat: ChatId, v: UserId)
    requires t'.messages == t.messages[id := m]
    ensures ChatController.UnreadSet(t', chat, v)
         == ChatController.UnreadSet(t, chat, v) - {id} + (if ChatController.UnreadFor(m, chat, v) then {id} else {})
  {
  }

  /**
   * createMessage. The message is saved and the chat updated before the
   * sender is populated, so a missing sender record fails the response
   * after the write.
   */
  method CreateMessage(db: Database, caller: Option<UserId>, chatId: IdInput, content: string,
                       messageType: Option<MessageType>, mediaUrl: Option<string>, now: nat)
    returns (r: Result<MessageResponse, Failure>)
    requires db.Valid()
    modifies db
    ensures db.Valid()
    ensures var c := CreateMessageCheck(old(db.Snapshot()), caller, chatId, content, mediaUrl);
      && (c.Err? ==> r == Err(c.error) && db.Snapshot() == old(db.Snapshot()))
      && (c.Ok? ==>
            var made := Instantiate(RestMessageFields(caller.value, c.value, content, messageType, mediaUrl), old(db.nextId), now);
            && (made.Err? ==> r == Err(made.error) && db.Snapshot() == old(db.Snapshot()))
            && (made.Ok? ==>
                  && db.Snapshot() == PostMessage(old(db.Snapshot()), made.value, now)
                  && r == ResponseOf(db.users, old(db.nextId), made.value)))
  {
    var check := CreateMessageCheck(db.Snapshot(), caller, chatId, content, mediaUrl);
    if check.Err? {
      return Err(check.error);
    }
    var sender, chat := caller.value, check.value;
    var made := Instantiate(RestMessageFields(sender, chat, content, messageType, mediaUrl), db.nextId, now);
    if made.Err? {
      return Err(made.error);
    }
    var m := made.value;
    RestMessageShape(sender, chat, content, messageType, mediaUrl, db.nextId, now);
    PostMessageKeepsValid(db.Snapshot(), m, now);
    var id := db.MintId();
    db.messages := db.messages[id := m];
    var c := db.chats[chat];
    c := c.(latestMessage := Some(id), updatedAt := now);
    db.chats := db.chats[chat := c];
    r := ResponseOf(db.users, id, m);
  }

  /** The listing filter: the chat's messages not deleted for the caller. */
  predicate VisibleTo(m: Message, chat: ChatId, caller: UserId)
  {
    m.chat == chat && caller !in m.deletedFor
  }

  function VisibleFilter(chat: ChatId, caller: UserId): (nat, Message) -> bool
  {
    (id: nat, m: Message) => VisibleTo(m, chat, caller)
  }

  /** `find({ chat, deletedFor: { $ne: caller } }).sort({ createdAt: -1 })`. */
  function VisibleIds(t: Tables, chat: ChatId, caller: UserId): (r: seq<MsgId>)
    ensures forall i :: 0 <= i < |r| ==> r[i] in t.messages && VisibleTo(t.messages[r[i]], chat, caller)
    ensures forall i, j :: 0 <= i < j < |r| ==> r[i] > r[j]
    ensures forall id :: id in r <==> id in t.messages && id < t.nextId && VisibleTo(t.messages[id], chat, caller)
  {
    NewestFirst(t.messages, VisibleFilter(chat, caller), t.nextId)
  }

  /** A message just posted heads the listing of every user it is visible to. */
  lemma PostedMessageListedFirst(t: Tables, m: Message, now: nat, v: UserId)
    requires ValidTables(t) && m.chat in t.chats && v !in m.deletedFor
    ensures var ids := VisibleIds(PostMessage(t, m, now), m.chat, v);
      ids != [] && ids[0] == t.nextId
  {
    var t' := PostMessage(t, m, now);
    var ids := VisibleIds(t', m.chat, v);
    assert t'.messages[t.nextId] == m && VisibleTo(m, m.chat, v);
    assert t.nextId in ids;
    var k :| 0 <= k < |ids| && ids[k] == t.nextId;
    assert ids[0] < t'.nextId;
    assert ids[0] >= ids[k];
  }

  const DefaultPage: int := 1
  const DefaultLimit: int := 50

  /** What the server answers to a negative skip. */
  const NegativeSkip: Failure := Thrown("MongoServerError", "BSON field 'skip' value must be >= 0", None, [])

  function Abs(x: int): nat
  {
    if x < 0 then -x else x
  }

  /**
   * The ids on one page of the listing: at most `limit` (none when 0) of
   * the chat's messages not deleted for the caller, newest first, starting
   * at position `skip`.
   */
  function PageIds(t: Tables, chat: ChatId, caller: UserId, skip: nat, limit: nat): (r: seq<MsgId>)
    ensures limit != 0 ==> |r| <= limit
    ensures skip >= |VisibleIds(t, chat, caller)| ==> r == []
    ensures skip < |VisibleIds(t, chat, caller)| && (limit == 0 || skip + limit >= |VisibleIds(t, chat, caller)|) ==>
      |r| == |VisibleIds(t, chat, caller)| - skip
    ensures skip + limit < |VisibleIds(t, chat, caller)| && limit != 0 ==> |r| == limit
    ensures forall i :: 0 <= i < |r| ==>
      skip + i < |VisibleIds(t, chat, caller)| && r[i] == VisibleIds(t, chat, caller)[skip + i]
    ensures forall i :: 0 <= i < |r| ==> r[i] in t.messages && VisibleTo(t.messages[r[i]], chat, caller)
    ensures forall i, j :: 0 <= i < j < |r| ==> r[i] > r[j]
  {
    var all := VisibleIds(t, chat, caller);
    var ids := Window(all, skip, limit);
    assert forall i, j :: 0 <= i < j < |ids| ==> ids[i] > ids[j] by {
      forall i, j | 0 <= i < j < |ids| ensures ids[i] > ids[j] {
        assert ids[i] == all[skip + i] && ids[j] == all[skip + j];
      }
    }
    ids
  }

  /** One page of the listing, answered as responses, one per id on the page, in order. */
  function PageOf(t: Tables, chat: ChatId, caller: UserId, skip: nat, limit: nat): (r: Result<seq<MessageResponse>, Failure>)
    ensures r.Ok? ==> |r.value| == |PageIds(t, chat, caller, skip, limit)|
    ensures r.Ok? ==> forall i :: 0 <= i < |r.value| ==>
      r.value[i].id == PageIds(t, chat, caller, skip, limit)[i] && r.value[i].chat == chat
    ensures r.Err? <==> exists i :: 0 <= i < |PageIds(t, chat, caller, skip, limit)|
                                   && t.messages[PageIds(t, chat, caller, skip, limit)[i]].sender !in t.users
    ensures r.Err? ==> r.error == NullSender
  {
    ResponsesOf(t.users, t.messages, PageIds(t, chat, caller, skip, limit))
  }

  /**
   * getChatMessages: the `(page - 1) * limit` messages newest first are
   * skipped and at most `limit` returned (a limit of 0 returns all, a
   * negative limit counts as its absolute value).
   */
  function GetChatMessages(t: Tables, caller: Option<UserId>, chatId: IdInput, page: Option<int>, limit: Option<int>)
    : (r: Result<seq<MessageResponse>, Failure>)
    ensures caller.None? ==> r == Err(App(UnauthorizedError(NotAuthenticated)))
    ensures caller.Some? && chatId.Uncastable? ==> r == Err(CastFailure("Chat", "_id", chatId.text))
    ensures caller.Some? && chatId.Castable? && !ActiveMember(t, chatId.id, caller.value) ==>
      r == Err(App(NotFoundError(ChatNotFound)))
    ensures var p := page.GetOr(DefaultPage); var l := limit.GetOr(DefaultLimit);
      caller.Some? && chatId.Castable? && ActiveMember(t, chatId.id, caller.value) && (p - 1) * l < 0 ==> r == Err(NegativeSkip)
    ensures var p := page.GetOr(DefaultPage); var l := limit.GetOr(DefaultLimit);
      caller.Some? && chatId.Castable? && ActiveMember(t, chatId.id, caller.value) && (p - 1) * l >= 0 ==>
      r == PageOf(t, chatId.id, caller.value, (p - 1) * l, Abs(l))
  {
    if caller.None? then Err(App(UnauthorizedError(NotAuthenticated)))
    else match CastId(chatId, "Chat", "_id")
      case Err(e) => Err(e)
      case Ok(id) =>
        if !ActiveMember(t, id, caller.value) then Err(App(NotFoundError(ChatNotFound)))
        else
          var p := page.GetOr(DefaultPage);
          var l := limit.GetOr(DefaultLimit);
          var skip := (p - 1) * l;
          if skip < 0 then Err(NegativeSkip)
          else
            PageOf(t, id, caller.value, skip, Abs(l))
  }

  const Forbidden: string := "User not authorized to update this message"
  const ForbiddenDelete: string := "User not authorized to delete this message"

  /**
   * The guards shared by updateMessageStatus and deleteMessage: the caller,
   * the id, the message, then the caller's membership of the message's
   * active chat (a missing chat fails that last check too).
   */
  function MessageAccessCheck(t: Tables, caller: Option<UserId>, messageId: IdInput, forbidden: string)
    : (r: Result<MsgId, Failure>)
    ensures caller.None? ==> r == Err(App(UnauthorizedError(NotAuthenticated)))
    ensures caller.Some? && messageId.Uncastable? ==> r == Err(CastFailure("Message", "_id", messageId.text))
    ensures caller.Some? && messageId.Castable? && messageId.id !in t.messages ==> r == Err(App(NotFoundError("Message not found")))
    ensures (caller.Some? && messageId.Castable? && messageId.id in t.messages
             && !ActiveMember(t, t.messages[messageId.id].chat, caller.value)) ==> r == Err(App(ForbiddenError(forbidden)))
    ensures r.Ok? <==> (caller.Some? && messageId.Castable? && messageId.id in t.messages
                        && ActiveMember(t, t.messages[messageId.id].chat, caller.value))
    ensures r.Ok? ==> r.value == messageId.id
  {
    if caller.None? then Err(App(UnauthorizedError(NotAuthenticated)))
    else match CastId(messageId, "Message", "_id")
      case Err(e) => Err(e)
      case Ok(id) =>
        if id !in t.messages then Err(App(NotFoundError("Message not found")))
        else if !ActiveMember(t, t.messages[id].chat, caller.value) then Err(App(ForbiddenError(forbidden)))
        else Ok(id)
  }

  /**
   * A REST `read`: the caller is appended to `readBy` and the status set
   * to read only when the caller is not in `readBy` yet; otherwise the
   * document is not modified and `save()` writes nothing.
   */
  function MarkRead(m: Message, u: UserId, now: nat): (r: Message)
    ensures u in r.readBy
    ensures u in m.readBy ==> r == m
    ensures u !in m.readBy ==> r == m.(readBy := m.readBy + [u], status := Read, updatedAt := now)
    ensures WellFormed(m) ==> WellFormed(r)
  {
    if u in m.readBy then m
    else
      var r := m.(readBy := m.readBy + [u], status := Read, updatedAt := now);
      assert forall i :: 0 <= i < |m.readBy| ==> r.readBy[i] == m.readBy[i];
      r
  }

  /** A repeated read changes nothing, whenever it comes. */
  lemma MarkReadIdempotent(m: Message, u: UserId, now1: nat, now2: nat)
    ensures MarkRead(MarkRead(m, u, now1), u, now2) == MarkRead(m, u, now1)
  {
  }

  /** A REST `delivered`: the status becomes delivered whatever it was. */
  function MarkDelivered(m: Message, now: nat): (r: Message)
    ensures r.status == Delivered
    ensures r.readBy == m.readBy && r.deletedFor == m.deletedFor && r.content == m.content && r.chat == m.chat
    ensures m.status == Delivered ==> r == m
    ensures m.status != Delivered ==> r.updatedAt == now
  {
    if m.status == Delivered then m else m.(status := Delivered, updatedAt := now)
  }

  /** The status is not monotone: a REST `delivered` moves a read message back. */
  lemma DeliveredOverwritesRead(m: Message, now: nat)
    requires m.status == Read
    ensures Rank(MarkDelivered(m, now).status) < Rank(m.status)
    ensures MarkDelivered(m, now).readBy == m.readBy
  {
  }

  /** The sender of a REST-created message is already in `readBy`, so the sender's own read changes nothing. */
  lemma SenderReadIsNoOp(m: Message, now: nat)
    requires m.readBy == [m.sender]
    ensures MarkRead(m, m.sender, now) == m
  {
  }

  /**
   * updateMessageStatus. A status other than read or delivered is refused
   * after the access checks; the document is saved before the sender is
   * populated for the response.
   */
  method UpdateMessageStatus(db: Database, caller: Option<UserId>, messageId: IdInput, status: MessageStatus, now: nat)
    returns (r: Result<MessageResponse, Failure>)
    requires db.Valid()
    modifies db
    ensures db.Valid()
    ensures db.users == old(db.users) && db.chats == old(db.chats) && db.nextId == old(db.nextId)
    ensures var c := MessageAccessCheck(old(db.Snapshot()), caller, messageId, Forbidden);
      && (c.Err? ==> r == Err(c.error) && db.messages == old(db.messages))
      && (c.Ok? && status == Sent ==> r == Err(App(BadRequestError("Invalid status update"))) && db.messages == old(db.messages))
      && (c.Ok? && status != Sent ==>
            var m := old(db.messages)[c.value];
            var m' := if status == Read then MarkRead(m, caller.value, now) else MarkDelivered(m, now);
            db.messages == old(db.messages)[c.value := m'] && r == ResponseOf(db.users, c.value, m'))
  {
    var check := MessageAccessCheck(db.Snapshot(), caller, messageId, Forbidden);
    if check.Err? {
      return Err(check.error);
    }
    var id := check.value;
    var m := db.messages[id];
    if status == Read {
      m := MarkRead(m, caller.value, now);
    } else if status == Delivered {
      m := MarkDelivered(m, now);
    } else {
      return Err(App(BadRequestError("Invalid status update")));
    }
    db.messages := db.messages[id := m];
    r := ResponseOf(db.users, id, m);
  }

  /** `deletedFor` after the caller's delete: the caller is added once. */
  function WithDeleter(deletedFor: seq<UserId>, u: UserId): (r: seq<UserId>)
    ensures u in r && (u in deletedFor ==> r == deletedFor)
    ensures u !in deletedFor ==> r == deletedFor + [u]
    ensures NoDups(deletedFor) ==> NoDups(r)
  {
    if u in deletedFor then deletedFor
    else
      assert forall i :: 0 <= i < |deletedFor| ==> (deletedFor + [u])[i] == deletedFor[i];
      deletedFor + [u]
  }

  /** The newest message of the chat not deleted for `u`, if any. */
  function NewestVisible(t: Tables, chat: ChatId, u: UserId): (r: Option<MsgId>)
    ensures r.Some? ==> r.value in t.messages && VisibleTo(t.messages[r.value], chat, u)
    ensures r.Some? ==> forall id :: id in t.messages && id < t.nextId && VisibleTo(t.messages[id], chat, u) ==> id <= r.value
    ensures r.None? ==> forall id :: id in t.messages && id < t.nextId ==> !VisibleTo(t.messages[id], chat, u)
  {
    var ids := VisibleIds(t, chat, u);
    if ids == [] then None
    else
      assert forall id :: id in ids ==> id <= ids[0] by {
        forall id | id in ids ensures id <= ids[0] {
          var k :| 0 <= k < |ids| && ids[k] == id;
        }
      }
      Some(ids[0])
  }

  /**
   * deleteMessage's effect: the caller joins `deletedFor`; once
   * `deletedFor` is as long as the participant list the message is
   * removed, and if it was the chat's latest message the chat points at
   * the newest remaining message not deleted for the caller, or at none.
   */
  function DeleteForUser(t: Tables, mid: MsgId, u: UserId, now: nat): (t': Tables)
    requires mid in t.messages && t.messages[mid].chat in t.chats
    ensures t'.users == t.users && t'.nextId == t.nextId
  {
    var m := t.messages[mid];
    var c := t.chats[m.chat];
    var del := WithDeleter(m.deletedFor, u);
    if |del| == |c.participants| then
      var rest := t.(messages := t.messages - {mid});
      if c.latestMessage == Some(mid) then
        rest.(chats := t.chats[m.chat := c.(latestMessage := NewestVisible(rest, m.chat, u), updatedAt := now)])
      else rest
    else if u in m.deletedFor then t
    else t.(messages := t.messages[mid := m.(deletedFor := del, updatedAt := now)])
  }

  /**
   * What a delete does: the message is removed exactly when its
   * `deletedFor`, with the caller added once, is as long as the
   * participant list; otherwise it stays with the caller added; no other
   * message changes; and the chat changes only when the removed message
   * was its latest, to point at the newest message left that the caller
   * has not deleted.
   */
  lemma DeleteForUserEffect(t: Tables, mid: MsgId, u: UserId, now: nat)
    requires mid in t.messages && t.messages[mid].chat in t.chats
    ensures var t' := DeleteForUser(t, mid, u, now); var m := t.messages[mid]; var c := t.chats[m.chat];
      && (mid in t'.messages <==> |WithDeleter(m.deletedFor, u)| != |c.participants|)
      && (mid in t'.messages ==> t'.messages[mid].deletedFor == WithDeleter(m.deletedFor, u))
      && (mid in t'.messages && u in m.deletedFor ==> t'.messages[mid] == m)
      && (forall id :: id != mid ==> (id in t'.messages <==> id in t.messages))
      && (forall id :: id != mid && id in t.messages ==> t'.messages[id] == t.messages[id])
      && (mid !in t'.messages && c.latestMessage == Some(mid) ==>
            t'.chats == t.chats[m.chat := c.(latestMessage := NewestVisible(t', m.chat, u), updatedAt := now)])
      && (!(mid !in t'.messages && c.latestMessage == Some(mid)) ==> t'.chats == t.chats)
  {
  }

  lemma DeleteForUserKeepsValid(t: Tables, mid: MsgId, u: UserId, now: nat)
    requires ValidTables(t) && mid in t.messages && t.messages[mid].chat in t.chats
    ensures ValidTables(DeleteForUser(t, mid, u, now))
  {
    var t' := DeleteForUser(t, mid, u, now);
    assert forall id :: id in t'.chats ==> (id in t.chats && ActivePair(t'.chats[id]) == ActivePair(t.chats[id])
                                            && t'.chats[id].participants == t.chats[id].participants);
  }

  /** A repeated delete by the same user, at any time, changes nothing. */
  lemma DeleteForUserIdempotent(t: Tables, mid: MsgId, u: UserId, now1: nat, now2: nat)
    requires mid in t.messages && t.messages[mid].chat in t.chats
    requires var t' := DeleteForUser(t, mid, u, now1); mid in t'.messages
    ensures var t' := DeleteForUser(t, mid, u, now1); DeleteForUser(t', mid, u, now2) == t'
  {
  }

  /** After a delete the message no longer appears in the deleting user's listing. */
  lemma DeletedMessageHidden(t: Tables, mid: MsgId, u: UserId, now: nat)
    requires mid in t.messages && t.messages[mid].chat in t.chats
    ensures mid !in VisibleIds(DeleteForUser(t, mid, u, now), t.messages[mid].chat, u)
  {
  }

  /** In a two-party chat, a message goes away once both parties have deleted it. */
  lemma {:induction false} BothPartiesDeleteRemoves(t: Tables, mid: MsgId, a: UserId, b: UserId, now1: nat, now2: nat)
    requires mid in t.messages && t.messages[mid].chat in t.chats
    requires t.chats[t.messages[mid].chat].participants == [a, b] && a != b
    requires t.messages[mid].deletedFor == []
    ensures var t1 := DeleteForUser(t, mid, a, now1);
      mid in t1.messages && mid !in DeleteForUser(t1, mid, b, now2).messages
  {
    var t1 := DeleteForUser(t, mid, a, now1);
    assert WithDeleter([], a) == [a];
    assert mid in t1.messages;
    assert t1.messages[mid].deletedFor == [a];
    assert t1.chats == t.chats;
    assert WithDeleter([a], b) == [a, b];
  }

  /** deleteMessage: succeeds with the same message whether or not anything changed. */
  method DeleteMessage(db: Database, caller: Option<UserId>, messageId: IdInput, now: nat) returns (r: Result<string, Failure>)
    requires db.Valid()
    modifies db
    ensures db.Valid()
    ensures var c := MessageAccessCheck(old(db.Snapshot()), caller, messageId, ForbiddenDelete);
      && (c.Err? ==> r == Err(c.error) && db.Snapshot() == old(db.Snapshot()))
      && (c.Ok? ==> r == Ok("Message deleted successfully") && db.Snapshot() == DeleteForUser(old(db.Snapshot()), c.value, caller.value, now))
  {
    var check := MessageAccessCheck(db.Snapshot(), caller, messageId, ForbiddenDelete);
    if check.Err? {
      return Err(check.error);
    }
    var id, u := check.value, caller.value;
    DeleteForUserKeepsValid(db.Snapshot(), id, u, now);
    ghost var before := db.Snapshot();
    var m := db.messages[id];
    var chat := db.chats[m.chat];
    if u !in m.deletedFor {
      m := m.(deletedFor := m.deletedFor + [u], updatedAt := now);
      db.messages := db.messages[id := m];
    }
    if |m.deletedFor| == |chat.participants| {
      db.messages := db.messages - {id};
      assert db.messages == before.messages - {id};
      if chat.latestMessage == Some(id) {
        var latest := NewestVisible(db.Snapshot(), m.chat, u);
        db.chats := db.chats[m.chat := chat.(latestMessage := latest, updatedAt := now)];
      }
    }
    r := Ok("Message deleted successfully");
  }
}
