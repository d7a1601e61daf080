/**
 * backend/src/api/socket.ts: the Socket.IO handshake check and the
 * connection handlers. The room registry is a map from room name (a user
 * id for a personal room, a chat id for a chat room) to the sockets in it;
 * every `emit` is appended to an outbox together with the sockets it
 * reaches at that moment.
 */
module Socket {
  import opened Wrappers
  import opened ErrorTypes
  import opened ObjectIds
  import opened Collections
  import opened MessageModel
  import opened ChatModel
  import opened Store
  import opened AuthMiddleware
  import MessageController
  import ChatController

  type SocketId = nat
  type RoomId = ObjectId

  /** Who an emit is addressed to. */
  datatype Target =
    | Room(room: RoomId)                            // io.to(room)
    | RoomExcept(room: RoomId, except: SocketId)    // socket.to(room)
    | Everyone                                      // io.emit
    | EveryoneExcept(except: SocketId)              // socket.broadcast
    | Origin(socket: SocketId)                      // socket.emit

  datatype Event =
    | MessageEvent(message: MessageController.MessageResponse)
    | MessageStatusEvent(messageId: MsgId, status: MessageStatus, readBy: seq<UserId>)
    | TypingEvent(userId: UserId, isTyping: bool)
    | UserStatusEvent(userId: UserId, isOnline: bool)
    | ErrorEvent(text: string)

  /** One emit and the sockets it reached. */
  datatype Emit = Emit(target: Target, recipients: set<SocketId>, event: Event)

  /** The sockets in a room; a room that does not exist is empty. */
  function Members(rooms: map<RoomId, set<SocketId>>, room: RoomId): set<SocketId>
  {
    if room in rooms then rooms[room] else {}
  }

  /** The sockets an emit reaches, given the registry at the time of the emit. */
  function Recipients(target: Target, rooms: map<RoomId, set<SocketId>>, sockets: map<SocketId, UserId>): (r: set<SocketId>)
    ensures target.RoomExcept? ==> target.except !in r
    ensures target.EveryoneExcept? ==> target.except !in r
    ensures target.Room? ==> r == Members(rooms, target.room)
    ensures target.Everyone? ==> r == sockets.Keys
  {
    match target
    case Room(room) => Members(rooms, room)
    case RoomExcept(room, except) => Members(rooms, room) - {except}
    case Everyone => sockets.Keys
    case EveryoneExcept(except) => sockets.Keys - {except}
    case Origin(s) => if s in sockets then {s} else {}
  }

  /**
   * The registry invariant Socket.IO keeps: rooms are never empty and hold
   * only connected sockets, and every socket is in its user's personal room.
   */
  ghost predicate Registry(rooms: map<RoomId, set<SocketId>>, sockets: map<SocketId, UserId>)
  {
    NoEmptyRoom(rooms) && OnlyLiveMembers(rooms, sockets) && InPersonalRoom(rooms, sockets)
  }

  ghost predicate NoEmptyRoom(rooms: map<RoomId, set<SocketId>>)
  {
    forall room :: room in rooms ==> rooms[room] != {}
  }

  ghost predicate OnlyLiveMembers(rooms: map<RoomId, set<SocketId>>, sockets: map<SocketId, UserId>)
  {
    forall room, s :: s in Members(rooms, room) ==> s in sockets
  }

  ghost predicate InPersonalRoom(rooms: map<RoomId, set<SocketId>>, sockets: map<SocketId, UserId>)
  {
    forall s :: s in sockets ==> s in Members(rooms, sockets[s])
  }


  /** A user with a live socket has a personal room: `rooms.has(userId)` holds. */
  lemma LiveSocketMeansRoom(rooms: map<RoomId, set<SocketId>>, sockets: map<SocketId, UserId>, s: SocketId)
    requires Registry(rooms, sockets) && s in sockets
    ensures sockets[s] in rooms && s in rooms[sockets[s]]
  {
  }

  /** Leaving every room on disconnect; rooms left empty disappear. */
  function LeaveAll(rooms: map<RoomId, set<SocketId>>, sock: SocketId): (r: map<RoomId, set<SocketId>>)
    ensures forall room :: room in r <==> room in rooms && rooms[room] - {sock} != {}
    ensures forall room :: Members(r, room) == Members(rooms, room) - {sock}
  {
    map room | room in rooms && rooms[room] - {sock} != {} :: rooms[room] - {sock}
  }

  /**
   * Another live socket of the same user keeps the personal room, so the
   * user still counts as online for delivery after one of the sockets
   * disconnects.
   */
  lemma OtherSocketKeepsRoom(rooms: map<RoomId, set<SocketId>>, sockets: map<SocketId, UserId>, sock: SocketId, other: SocketId)
    requires Registry(rooms, sockets) && sock in sockets && other in sockets && other != sock
    requires sockets[other] == sockets[sock]
    ensures sockets[sock] in LeaveAll(rooms, sock)
  {
    assert other in Members(rooms, sockets[other]) - {sock};
  }

  lemma LeaveAllKeepsRegistry(rooms: map<RoomId, set<SocketId>>, sockets: map<SocketId, UserId>, sock: SocketId)
    requires Registry(rooms, sockets)
    ensures Registry(LeaveAll(rooms, sock), sockets - {sock})
  {
    var r := LeaveAll(rooms, sock);
    var ss := sockets - {sock};
    forall s | s in ss ensures s in Members(r, ss[s]) {
      assert s in Members(rooms, sockets[s]);
    }
  }

  /**
   * The handshake check: a missing token, then a missing secret, then the
   * verification. Expired and malformed tokens become UnauthorizedErrors;
   * any other error is passed on as it is.
   */
  function SocketAuthenticate(token: string, secret: string, verify: Verifier): (r: Result<UserId, Failure>)
    ensures token == "" ==> r == Err(App(UnauthorizedError("No token provided")))
    ensures token != "" && secret == "" ==> r == Err(PlainError("Error", "JWT_SECRET is not defined"))
    ensures r.Ok? <==> token != "" && secret != "" && verify(token, secret).Verified?
    ensures r.Ok? ==> r.value == verify(token, secret).claims.userId
    ensures token != "" && secret != "" && verify(token, secret).TokenExpired? ==> r == Err(App(UnauthorizedError("Token expired")))
    ensures token != "" && secret != "" && verify(token, secret).MalformedToken? ==> r == Err(App(UnauthorizedError("Invalid token")))
    ensures token != "" && secret != "" && verify(token, secret).VerifierThrew? ==>
      r == Err(PlainError("Error", verify(token, secret).message))
  {
    if token == "" then Err(App(UnauthorizedError("No token provided")))
    else if secret == "" then Err(PlainError("Error", "JWT_SECRET is not defined"))
    else
      match verify(token, secret)
      case Verified(claims) => Ok(claims.userId)
      case TokenExpired => Err(App(UnauthorizedError("Token expired")))
      case MalformedToken => Err(App(UnauthorizedError("Invalid token")))
      case VerifierThrew(message) => Err(PlainError("Error", message))
  }

  /** `updateUserStatus`'s write: a missing user is left alone. */
  function SetPresence(users: map<UserId, User>, u: UserId, online: bool, now: nat): (r: map<UserId, User>)
    ensures r.Keys == users.Keys
    ensures u in users ==> r[u] == users[u].(isOnline := online, lastSeen := now)
    ensures forall v :: v in users && v != u ==> r[v] == users[v]
  {
    if u in users then users[u := users[u].(isOnline := online, lastSeen := now)] else users
  }

  lemma SetPresenceKeepsEmailsUnique(users: map<UserId, User>, u: UserId, online: bool, now: nat)
    requires UniqueEmails(users)
    ensures UniqueEmails(SetPresence(users, u, online, now))
  {
    var r := SetPresence(users, u, online, now);
    assert forall v :: v in r ==> r[v].email == users[v].email;
  }

  /** `Chat.find({ participants: userId })`: every chat listing the user, active or not. */
  predicate ListsUser(c: Chat, u: UserId)
  {
    u in c.participants
  }

  function ListsUserFilter(u: UserId): (nat, Chat) -> bool
  {
    (id: nat, c: Chat) => ListsUser(c, u)
  }

  /** Participants whose user record exists, in order: what `populate('participants')` keeps. */
  function Populated(users: map<UserId, User>, ps: seq<UserId>): (r: seq<UserId>)
    ensures forall x :: x in r <==> x in ps && x in users
    ensures |r| <= |ps|
  {
    if ps == [] then []
    else
      assert forall x :: x in ps <==> x == ps[0] || x in ps[1..];
      if ps[0] in users then [ps[0]] + Populated(users, ps[1..]) else Populated(users, ps[1..])
  }

  /**
   * The online recipients of a new message: populated participants other
   * than the sender whose personal room exists, in participant order.
   */
  function OnlineRecipients(pps: seq<UserId>, sender: UserId, rooms: map<RoomId, set<SocketId>>): (r: seq<UserId>)
    ensures forall x :: x in r <==> x in pps && x in rooms && x != sender
    ensures sender !in r
  {
    if pps == [] then []
    else
      assert forall x :: x in pps <==> x == pps[0] || x in pps[1..];
      if pps[0] in rooms && pps[0] != sender then [pps[0]] + OnlineRecipients(pps[1..], sender, rooms)
      else OnlineRecipients(pps[1..], sender, rooms)
  }

  /**
   * The escalation write: status delivered and the online recipients added
   * to `readBy` as a set union.
   */
  function Escalate(m: Message, online: seq<UserId>, now: nat): (r: Message)
    ensures r.status == Delivered
    ensures forall x :: x in r.readBy <==> x in m.readBy || x in online
    ensures WellFormed(m) ==> WellFormed(r)
    ensures r.chat == m.chat && r.sender == m.sender && r.content == m.content && r.deletedFor == m.deletedFor
    ensures r.createdAt == m.createdAt && r.updatedAt == now
  {
    m.(status := Delivered, readBy := AddToSet(m.readBy, online), updatedAt := now)
  }

  /** The document the socket path builds: status sent, `readBy` empty, type defaulting to `'text'`. */
  function SocketMessageFields(sender: UserId, chat: ChatId, content: string, messageType: Option<string>, mediaUrl: Option<string>)
    : MessageFields
  {
    MessageFields(chat, sender, content, Some(messageType.GetOr("text")), mediaUrl, Some(Sent), [], None)
  }

  /**
   * The checks of newMessage before the write, as the message to save or
   * the text of the error emitted to the sending socket. The chat is not
   * required to be active.
   */
  function PrepareSocketMessage(t: Tables, u: UserId, chatId: IdInput, content: string, messageType: Option<string>,
                                mediaUrl: Option<string>, now: nat): (r: Result<Message, string>)
    ensures chatId.Uncastable? ==> r == Err(ErrorMessage(CastFailure("Chat", "_id", chatId.text)))
    ensures chatId.Castable? && chatId.id !in t.chats ==> r == Err("Chat not found")
    ensures chatId.Castable? && chatId.id in t.chats && u !in Populated(t.users, t.chats[chatId.id].participants) ==>
      r == Err("User not in chat")
    ensures r.Ok? <==> (chatId.Castable? && chatId.id in t.chats && u in t.users && u in t.chats[chatId.id].participants
                        && Instantiate(SocketMessageFields(u, chatId.id, content, messageType, mediaUrl), t.nextId, now).Ok?)
    ensures r.Ok? ==> (r.value.chat == chatId.id && r.value.sender == u && r.value.content == content
                       && r.value.status == Sent && r.value.readBy == [] && r.value.deletedFor == []
                       && r.value.createdAt == t.nextId && WellFormed(r.value))
  {
    match CastId(chatId, "Chat", "_id")
    case Err(e) => Err(ErrorMessage(e))
    case Ok(id) =>
      if id !in t.chats then Err("Chat not found")
      else if u !in Populated(t.users, t.chats[id].participants) then Err("User not in chat")
      else
        match Instantiate(SocketMessageFields(u, id, content, messageType, mediaUrl), t.nextId, now)
        case Err(e) => Err(ErrorMessage(e))
        case Ok(m) => Ok(m)
  }

  /** The `message` payload: like the REST response but with no `'Unknown'` fallback for the name. */
  function Payload(users: map<UserId, User>, id: MsgId, m: Message): (p: MessageController.MessageResponse)
    requires m.sender in users
    ensures p.id == id && p.chat == m.chat && p.senderId == m.sender && p.senderName == users[m.sender].name
    ensures p.content == m.content && p.status == m.status && p.readBy == m.readBy
  {
    MessageController.MessageResponse(id, m.chat, m.sender, users[m.sender].name, m.content, m.messageType,
                                      m.mediaUrl, m.status, m.readBy, m.createdAt, m.updatedAt)
  }

  /** One `message` emit per populated participant's personal room, sender included. */
  function FanOut(pps: seq<UserId>, payload: MessageController.MessageResponse,
                  rooms: map<RoomId, set<SocketId>>, sockets: map<SocketId, UserId>): (r: seq<Emit>)
    ensures |r| == |pps|
    ensures forall i :: 0 <= i < |pps| ==>
      r[i] == Emit(Room(pps[i]), Members(rooms, pps[i]), MessageEvent(payload))
  {
    if pps == [] then []
    else
      var last := pps[|pps| - 1];
      FanOut(pps[..|pps| - 1], payload, rooms, sockets) + [Emit(Room(last), Recipients(Room(last), rooms, sockets), MessageEvent(payload))]
  }

  /** Every connected socket of every participant receives the new message. */
  lemma FanOutReachesParticipants(pps: seq<UserId>, payload: MessageController.MessageResponse,
                                  rooms: map<RoomId, set<SocketId>>, sockets: map<SocketId, UserId>, s: SocketId)
    requires Registry(rooms, sockets) && s in sockets && sockets[s] in pps
    ensures exists i :: 0 <= i < |pps| && s in FanOut(pps, payload, rooms, sockets)[i].recipients
  {
    var i :| 0 <= i < |pps| && pps[i] == sockets[s];
    assert s in FanOut(pps, payload, rooms, sockets)[i].recipients;
  }

  /** The socket read guard: only `'read'` from a user not yet in `readBy` acts. */
  predicate ReadApplies(m: Message, u: UserId, status: string)
  {
    status == "read" && u !in m.readBy
  }

  /** The socket read write: status read and the reader added. */
  function SocketRead(m: Message, u: UserId, now: nat): (r: Message)
    requires u !in m.readBy
    ensures r.status == Read && r.readBy == m.readBy + [u]
    ensures WellFormed(m) ==> WellFormed(r)
    ensures r.chat == m.chat && r.deletedFor == m.deletedFor && r.createdAt == m.createdAt
  {
    AddOne(m.readBy, u);
    m.(status := Read, readBy := AddToSet(m.readBy, [u]), updatedAt := now)
  }

  /** A read, once applied, makes every further read by the same user a no-op. */
  lemma SocketReadOnce(m: Message, u: UserId, now: nat)
    requires u !in m.readBy
    ensures !ReadApplies(SocketRead(m, u, now), u, "read")
  {
  }

  /**
   * The checks of the socket status update: the id, the message, then the
   * caller's membership of the message's chat (active or not).
   */
  function StatusUpdateCheck(t: Tables, u: UserId, messageId: IdInput): (r: Result<MsgId, string>)
    ensures messageId.Uncastable? ==> r == Err(ErrorMessage(CastFailure("Message", "_id", messageId.text)))
    ensures messageId.Castable? && messageId.id !in t.messages ==> r == Err("Message not found")
    ensures r.Ok? <==> (messageId.Castable? && messageId.id in t.messages
                        && t.messages[messageId.id].chat in t.chats && u in t.chats[t.messages[messageId.id].chat].participants)
    ensures messageId.Castable? && messageId.id in t.messages && !r.Ok? ==> r == Err("User not in chat")
    ensures r.Ok? ==> r.value == messageId.id
  {
    match CastId(messageId, "Message", "_id")
    case Err(e) => Err(ErrorMessage(e))
    case Ok(id) =>
      if id !in t.messages then Err("Message not found")
      else
        var chat := t.messages[id].chat;
        if chat !in t.chats || u !in t.chats[chat].participants then Err("User not in chat")
        else Ok(id)
  }

  function RoomSet(ids: seq<RoomId>): (r: set<RoomId>)
    ensures forall room :: room in r <==> room in ids
  {
    set i | 0 <= i < |ids| :: ids[i]
  }

  /** `socket.join(room)` for each room of `ids`: joining is idempotent, so only the set of rooms matters. */
  function JoinAll(rooms: map<RoomId, set<SocketId>>, sock: SocketId, ids: set<RoomId>): (r: map<RoomId, set<SocketId>>)
    ensures r.Keys == rooms.Keys + ids
    ensures forall room :: Members(r, room) == Members(rooms, room) + (if room in ids then {sock} else {})
  {
    map room | room in rooms.Keys + ids :: Members(rooms, room) + (if room in ids then {sock} else {})
  }

  /** Joining no room changes nothing. */
  lemma JoinNone(rooms: map<RoomId, set<SocketId>>, sock: SocketId)
    ensures JoinAll(rooms, sock, {}) == rooms
  {
    var r := JoinAll(rooms, sock, {});
    forall k | k in r ensures r[k] == rooms[k] {
      assert r[k] == Members(r, k);
    }
  }

  /** Joining one more room. */
  lemma JoinAllStep(rooms: map<RoomId, set<SocketId>>, sock: SocketId, ids: set<RoomId>, room: RoomId)
    ensures var r := JoinAll(rooms, sock, ids);
      JoinAll(rooms, sock, ids + {room}) == r[room := Members(r, room) + {sock}]
  {
    var r := JoinAll(rooms, sock, ids);
    var x := JoinAll(rooms, sock, ids + {room});
    var y := r[room := Members(r, room) + {sock}];
    forall k ensures Members(x, k) == Members(y, k) {
      var extra: set<SocketId> := if k in ids then {sock} else {};
      assert Members(r, k) == Members(rooms, k) + extra;
      if k == room {
        assert Members(x, k) == Members(rooms, k) + {sock};
        assert Members(y, k) == Members(r, k) + {sock};
      } else {
        assert Members(x, k) == Members(rooms, k) + extra;
        assert Members(y, k) == Members(r, k);
      }
    }
    SameRooms(x, y);
  }

  /** Room tables with the same rooms and the same members are equal. */
  lemma SameRooms(x: map<RoomId, set<SocketId>>, y: map<RoomId, set<SocketId>>)
    requires x.Keys == y.Keys && forall k :: Members(x, k) == Members(y, k)
    ensures x == y
  {
    forall k | k in x ensures x[k] == y[k] {
      assert Members(x, k) == Members(y, k);
    }
  }

  /** A new socket that joins its user's personal room keeps the registry invariant. */
  lemma PersonalRoomKeepsRegistry(rooms: map<RoomId, set<SocketId>>, sockets: map<SocketId, UserId>, sock: SocketId, u: UserId)
    requires Registry(rooms, sockets) && sock !in sockets
    ensures Registry(JoinAll(rooms, sock, {u}), sockets[sock := u])
  {
    var r := JoinAll(rooms, sock, {u});
    var ss := sockets[sock := u];
    JoinAllNoEmptyRoom(rooms, sock, {u});
    assert OnlyLiveMembers(r, ss);
    assert InPersonalRoom(r, ss) by {
      forall s | s in ss ensures s in Members(r, ss[s]) {
        if s != sock {
          assert s in Members(rooms, sockets[s]);
        }
      }
    }
  }

  /** Joining a connected socket to rooms keeps the registry invariant. */
  lemma JoinAllKeepsRegistry(rooms: map<RoomId, set<SocketId>>, sockets: map<SocketId, UserId>, sock: SocketId, ids: set<RoomId>)
    requires Registry(rooms, sockets) && sock in sockets
    ensures Registry(JoinAll(rooms, sock, ids), sockets)
  {
    JoinAllNoEmptyRoom(rooms, sock, ids);
    JoinAllOnlyLiveMembers(rooms, sockets, sock, ids);
    JoinAllInPersonalRoom(rooms, sockets, sock, ids);
  }

  lemma JoinAllOnlyLiveMembers(rooms: map<RoomId, set<SocketId>>, sockets: map<SocketId, UserId>, sock: SocketId, ids: set<RoomId>)
    requires OnlyLiveMembers(rooms, sockets) && sock in sockets
    ensures OnlyLiveMembers(JoinAll(rooms, sock, ids), sockets)
  {
  }

  lemma JoinAllInPersonalRoom(rooms: map<RoomId, set<SocketId>>, sockets: map<SocketId, UserId>, sock: SocketId, ids: set<RoomId>)
    requires InPersonalRoom(rooms, sockets)
    ensures InPersonalRoom(JoinAll(rooms, sock, ids), sockets)
  {
    var r := JoinAll(rooms, sock, ids);
    forall s | s in sockets ensures s in Members(r, sockets[s]) {
      assert s in Members(rooms, sockets[s]);
    }
  }

  lemma JoinAllNoEmptyRoom(rooms: map<RoomId, set<SocketId>>, sock: SocketId, ids: set<RoomId>)
    requires NoEmptyRoom(rooms)
    ensures NoEmptyRoom(JoinAll(rooms, sock, ids))
  {
    var r := JoinAll(rooms, sock, ids);
    forall room | room in r ensures r[room] != {} {
      assert r[room] == Members(r, room);
      if room !in ids {
        assert Members(rooms, room) == rooms[room];
      }
    }
  }




  /** The chat rooms a connecting user joins: every chat listing the user, in id order. */
  function ChatRoomsOf(chats: map<ChatId, Chat>, u: UserId, bound: nat): (r: seq<RoomId>)
    ensures forall room :: room in r <==> room < bound && room in chats && u in chats[room].participants
  {
    MatchingExact(chats, ListsUserFilter(u), bound);
    Matching(chats, ListsUserFilter(u), bound)
  }

  /** What newMessage leaves behind: the tables after the write and the emits, in order. */
  datatype Outcome = Outcome(tables: Tables, emits: seq<Emit>)

  /**
   * newMessage as a function of the tables and the registry. The chat and
   * the users are never written; on an error nothing is stored and only
   * the sending socket hears of it.
   */
  function NewMessageOutcome(t: Tables, rooms: map<RoomId, set<SocketId>>, sockets: map<SocketId, UserId>, sock: SocketId,
                             chatId: IdInput, content: string, messageType: Option<string>, mediaUrl: Option<string>,
                             now: nat): (o: Outcome)
    requires sock in sockets
    ensures o.tables.users == t.users && o.tables.chats == t.chats
    ensures PrepareSocketMessage(t, sockets[sock], chatId, content, messageType, mediaUrl, now).Err? ==>
      o == Outcome(t, [Emit(Origin(sock), {sock},
                            ErrorEvent(PrepareSocketMessage(t, sockets[sock], chatId, content, messageType, mediaUrl, now).error))])
    ensures PrepareSocketMessage(t, sockets[sock], chatId, content, messageType, mediaUrl, now).Ok? ==>
      && o.tables.nextId == t.nextId + 1
      && o.tables.messages.Keys == t.messages.Keys + {t.nextId}
      && (forall id :: id in t.messages && id != t.nextId ==> o.tables.messages[id] == t.messages[id])
  {
    match PrepareSocketMessage(t, sockets[sock], chatId, content, messageType, mediaUrl, now)
    case Err(e) => Outcome(t, [Emit(Origin(sock), Recipients(Origin(sock), rooms, sockets), ErrorEvent(e))])
    case Ok(m) => Deliver(t, rooms, sockets, m, now)
  }

  /**
   * The part of newMessage after the checks: save the message under the
   * next id, send it to every populated participant, then escalate it when
   * some other participant is online.
   */
  function Deliver(t: Tables, rooms: map<RoomId, set<SocketId>>, sockets: map<SocketId, UserId>, m: Message, now: nat): (o: Outcome)
    requires m.sender in t.users && m.chat in t.chats
    ensures o.tables.users == t.users && o.tables.chats == t.chats && o.tables.nextId == t.nextId + 1
    ensures o.tables.messages.Keys == t.messages.Keys + {t.nextId}
    ensures forall id :: id in t.messages && id != t.nextId ==> o.tables.messages[id] == t.messages[id]
  {
    var id := t.nextId;
    var pps := Populated(t.users, t.chats[m.chat].participants);
    var online := OnlineRecipients(pps, m.sender, rooms);
    var fan := FanOut(pps, Payload(t.users, id, m), rooms, sockets);
    if online == [] then
      Outcome(t.(messages := t.messages[id := m], nextId := id + 1), fan)
    else
      Outcome(t.(messages := t.messages[id := Escalate(m, online, now)], nextId := id + 1),
              fan + [Emit(Room(m.chat), Recipients(Room(m.chat), rooms, sockets), MessageStatusEvent(id, Delivered, online))])
  }

  /** A participant of the message's chat, other than its sender, with a live socket: a recipient escalation counts. */
  predicate OnlineRecipient(t: Tables, rooms: map<RoomId, set<SocketId>>, m: Message, p: UserId)
    requires m.chat in t.chats
  {
    p in t.chats[m.chat].participants && p in t.users && p in rooms && p != m.sender
  }

  /**
   * The stored message after delivery: it is delivered exactly when some
   * other participant is online, and its `readBy` gains exactly the online
   * recipients; every other stored message is untouched.
   */
  lemma DeliverStores(t: Tables, rooms: map<RoomId, set<SocketId>>, sockets: map<SocketId, UserId>, m: Message, now: nat)
    requires m.sender in t.users && m.chat in t.chats
    ensures var o := Deliver(t, rooms, sockets, m, now);
      && o.tables.messages.Keys == t.messages.Keys + {t.nextId}
      && (forall id :: id in t.messages && id != t.nextId ==> o.tables.messages[id] == t.messages[id])
      && var s := o.tables.messages[t.nextId];
      && s.chat == m.chat && s.sender == m.sender && s.content == m.content && s.deletedFor == m.deletedFor
      && s.status == (if exists p :: OnlineRecipient(t, rooms, m, p) then Delivered else m.status)
      && (forall p :: p in s.readBy <==> p in m.readBy || OnlineRecipient(t, rooms, m, p))
  {
    var pps := Populated(t.users, t.chats[m.chat].participants);
    var online := OnlineRecipients(pps, m.sender, rooms);
    assert forall p :: p in online <==> OnlineRecipient(t, rooms, m, p);
    if online != [] {
      assert OnlineRecipient(t, rooms, m, online[0]);
    }
  }

  /**
   * The emits of delivery: one `message` emit per populated participant, in
   * order; then, exactly when some other participant is online, one
   * `messageStatus` emit to the chat room naming the message as delivered
   * and read by exactly the online recipients.
   */
  lemma DeliverEmits(t: Tables, rooms: map<RoomId, set<SocketId>>, sockets: map<SocketId, UserId>, m: Message, now: nat)
    requires m.sender in t.users && m.chat in t.chats
    ensures var o := Deliver(t, rooms, sockets, m, now);
      var pps := Populated(t.users, t.chats[m.chat].participants);
      var escalated := exists p :: OnlineRecipient(t, rooms, m, p);
      && |o.emits| == |pps| + (if escalated then 1 else 0)
      && (forall i :: 0 <= i < |pps| ==>
            o.emits[i] == Emit(Room(pps[i]), Members(rooms, pps[i]), MessageEvent(Payload(t.users, t.nextId, m))))
      && (escalated ==>
            && o.emits[|pps|].target == Room(m.chat)
            && o.emits[|pps|].recipients == Members(rooms, m.chat)
            && o.emits[|pps|].event.MessageStatusEvent?
            && o.emits[|pps|].event.messageId == t.nextId
            && o.emits[|pps|].event.status == Delivered
            && (forall p :: p in o.emits[|pps|].event.readBy <==> OnlineRecipient(t, rooms, m, p)))
  {
    var pps := Populated(t.users, t.chats[m.chat].participants);
    var online := OnlineRecipients(pps, m.sender, rooms);
    assert forall p :: p in online <==> OnlineRecipient(t, rooms, m, p);
    if online != [] {
      assert OnlineRecipient(t, rooms, m, online[0]);
    } else {
      assert forall p :: !OnlineRecipient(t, rooms, m, p);
    }
  }

  /** Every live socket of every participant with a user record receives the `message` event. */
  lemma DeliverReachesParticipants(t: Tables, rooms: map<RoomId, set<SocketId>>, sockets: map<SocketId, UserId>, m: Message,
                                   now: nat, s: SocketId)
    requires m.sender in t.users && m.chat in t.chats
    requires Registry(rooms, sockets) && s in sockets && sockets[s] in t.chats[m.chat].participants && sockets[s] in t.users
    ensures var o := Deliver(t, rooms, sockets, m, now);
      exists i :: 0 <= i < |o.emits| && o.emits[i].event == MessageEvent(Payload(t.users, t.nextId, m)) && s in o.emits[i].recipients
  {
    var pps := Populated(t.users, t.chats[m.chat].participants);
    var fan := FanOut(pps, Payload(t.users, t.nextId, m), rooms, sockets);
    FanOutReachesParticipants(pps, Payload(t.users, t.nextId, m), rooms, sockets, s);
    var i :| 0 <= i < |pps| && s in fan[i].recipients;
    var o := Deliver(t, rooms, sockets, m, now);
    assert o.emits[i] == fan[i];
  }

  /**
   * Unlike the REST path, a message sent over the socket is not in its
   * sender's `readBy`, so the chat list counts it as unread for the sender
   * until the sender marks it read.
   */
  lemma SocketMessageUnreadForSender(t: Tables, rooms: map<RoomId, set<SocketId>>, sockets: map<SocketId, UserId>, sock: SocketId,
                                     chatId: IdInput, content: string, messageType: Option<string>, mediaUrl: Option<string>, now: nat)
    requires sock in sockets
    requires PrepareSocketMessage(t, sockets[sock], chatId, content, messageType, mediaUrl, now).Ok?
    ensures var o := NewMessageOutcome(t, rooms, sockets, sock, chatId, content, messageType, mediaUrl, now);
      && t.nextId in o.tables.messages
      && ChatController.UnreadFor(o.tables.messages[t.nextId], chatId.id, sockets[sock])
  {
    var m := PrepareSocketMessage(t, sockets[sock], chatId, content, messageType, mediaUrl, now).value;
    DeliverStores(t, rooms, sockets, m, now);
  }

  /**
   * An online recipient's later `'read'` is ignored: escalation already
   * put the recipient in `readBy`, which is what the read handler tests.
   * Nor does the chat list count the message as unread for that recipient.
   */
  lemma OnlineRecipientCannotRead(t: Tables, rooms: map<RoomId, set<SocketId>>, sockets: map<SocketId, UserId>, m: Message,
                                  now: nat, p: UserId)
    requires m.sender in t.users && m.chat in t.chats && OnlineRecipient(t, rooms, m, p)
    ensures var s := Deliver(t, rooms, sockets, m, now).tables.messages[t.nextId];
      !ReadApplies(s, p, "read") && !ChatController.UnreadFor(s, m.chat, p)
  {
    DeliverStores(t, rooms, sockets, m, now);
  }

  lemma NewMessageKeepsValid(t: Tables, rooms: map<RoomId, set<SocketId>>, sockets: map<SocketId, UserId>, sock: SocketId,
                             chatId: IdInput, content: string, messageType: Option<string>, mediaUrl: Option<string>, now: nat)
    requires ValidTables(t) && sock in sockets
    ensures ValidTables(NewMessageOutcome(t, rooms, sockets, sock, chatId, content, messageType, mediaUrl, now).tables)
  {
    match PrepareSocketMessage(t, sockets[sock], chatId, content, messageType, mediaUrl, now)
    case Err(_) =>
    case Ok(m) => DeliverKeepsValid(t, rooms, sockets, m, now);
  }

  /** Saving a well-formed message under the next id, escalated or not, keeps the tables valid. */
  lemma DeliverKeepsValid(t: Tables, rooms: map<RoomId, set<SocketId>>, sockets: map<SocketId, UserId>, m: Message, now: nat)
    requires ValidTables(t) && m.sender in t.users && m.chat in t.chats
    requires m.createdAt == t.nextId && WellFormed(m)
    ensures ValidTables(Deliver(t, rooms, sockets, m, now).tables)
  {
    var t' := Deliver(t, rooms, sockets, m, now).tables;
    var stored := t'.messages[t.nextId];
    assert stored == m || stored == Escalate(m, OnlineRecipients(Populated(t.users, t.chats[m.chat].participants), m.sender, rooms), now);
    assert stored.createdAt == t.nextId && WellFormed(stored);
  }

  class SocketServer {
    var rooms: map<RoomId, set<SocketId>>
    var sockets: map<SocketId, UserId>
    var outbox: seq<Emit>

    ghost predicate Valid()
      reads this
    {
      Registry(rooms, sockets)
    }

    constructor ()
      ensures Valid()
      ensures rooms == map[] && sockets == map[] && outbox == []
    {
      rooms, sockets, outbox := map[], map[], [];
    }

    /** Sends an event; the outbox records whom it reached. */
    method Send(target: Target, event: Event)
      modifies this`outbox
      ensures outbox == old(outbox) + [Emit(target, Recipients(target, rooms, sockets), event)]
    {
      outbox := outbox + [Emit(target, Recipients(target, rooms, sockets), event)];
    }

    /** `socket.join(room)`. */
    method Join(sock: SocketId, room: RoomId)
      modifies this`rooms
      ensures rooms == old(rooms)[room := Members(old(rooms), room) + {sock}]
    {
      rooms := rooms[room := Members(rooms, room) + {sock}];
    }

    /** updateUserStatus: the presence write, then `userStatus` to every socket. */
    method UpdateUserStatus(db: Database, u: UserId, online: bool, now: nat)
      requires db.Valid()
      modifies db`users, this`outbox
      ensures db.Valid()
      ensures db.users == SetPresence(old(db.users), u, online, now)
      ensures outbox == old(outbox) + [Emit(Everyone, sockets.Keys, UserStatusEvent(u, online))]
    {
      SetPresenceKeepsEmailsUnique(db.users, u, online, now);
      db.users := SetPresence(db.users, u, online, now);
      Send(Everyone, UserStatusEvent(u, online));
    }

    /** joinUserChats: the socket joins the room of every chat that lists the user. */
    method JoinUserChats(db: Database, sock: SocketId, u: UserId)
      modifies this`rooms
      ensures rooms == JoinAll(old(rooms), sock, RoomSet(ChatRoomsOf(db.chats, u, db.nextId)))
    {
      var ids := ChatRoomsOf(db.chats, u, db.nextId);
      JoinNone(rooms, sock);
      assert RoomSet(ids[..0]) == {};
      var i := 0;
      while i < |ids|
        invariant 0 <= i <= |ids|
        invariant rooms == JoinAll(old(rooms), sock, RoomSet(ids[..i]))
      {
        assert RoomSet(ids[..i + 1]) == RoomSet(ids[..i]) + {ids[i]} by {
          assert ids[..i + 1] == ids[..i] + [ids[i]];
        }
        JoinAllStep(old(rooms), sock, RoomSet(ids[..i]), ids[i]);
        Join(sock, ids[i]);
        i := i + 1;
      }
      assert ids[..i] == ids;
    }

    /**
     * A connection: the handshake check, then the personal room, the
     * online status (announced to every socket, this one included) and
     * the chat rooms.
     */
    method Connect(db: Database, sock: SocketId, token: string, secret: string, verify: Verifier, now: nat)
      returns (r: Result<UserId, Failure>)
      requires db.Valid() && Valid() && sock !in sockets
      modifies this, db`users
      ensures db.Valid() && Valid()
      ensures r == SocketAuthenticate(token, secret, verify)
      ensures r.Err? ==> rooms == old(rooms) && sockets == old(sockets) && outbox == old(outbox) && db.users == old(db.users)
      ensures r.Ok? ==>
        var u := r.value;
        && sockets == old(sockets)[sock := u]
        && rooms == JoinAll(JoinAll(old(rooms), sock, {u}), sock, RoomSet(ChatRoomsOf(db.chats, u, db.nextId)))
        && db.users == SetPresence(old(db.users), u, true, now)
        && outbox == old(outbox) + [Emit(Everyone, sockets.Keys, UserStatusEvent(u, true))]
    {
      r := SocketAuthenticate(token, secret, verify);
      if r.Err? {
        return;
      }
      var u := r.value;
      ghost var rooms0, sockets0 := rooms, sockets;
      sockets := sockets[sock := u];
      Join(sock, u);
      JoinNone(rooms0, sock);
      JoinAllStep(rooms0, sock, {}, u);
      assert {} + {u} == {u};
      ghost var personal := rooms;
      assert personal == JoinAll(rooms0, sock, {u});
      PersonalRoomKeepsRegistry(rooms0, sockets0, sock, u);
      UpdateUserStatus(db, u, true, now);
      ghost var sent := outbox;
      assert sent == old(outbox) + [Emit(Everyone, sockets.Keys, UserStatusEvent(u, true))];
      assert rooms == personal && sockets == sockets0[sock := u];
      JoinAllKeepsRegistry(personal, sockets, sock, RoomSet(ChatRoomsOf(db.chats, u, db.nextId)));
      JoinUserChats(db, sock, u);
      assert sockets == sockets0[sock := u] && outbox == sent;
    }

    /** newMessage: the write and the emits of `NewMessageOutcome`; the registry is untouched. */
    method NewMessage(db: Database, sock: SocketId, chatId: IdInput, content: string, messageType: Option<string>,
                      mediaUrl: Option<string>, now: nat)
      requires db.Valid() && sock in sockets
      modifies db`messages, db`nextId, this`outbox
      ensures db.Valid()
      ensures var o := NewMessageOutcome(old(db.Snapshot()), rooms, sockets, sock, chatId, content, messageType, mediaUrl, now);
        db.Snapshot() == o.tables && outbox == old(outbox) + o.emits
    {
      ghost var before := db.Snapshot();
      NewMessageKeepsValid(before, rooms, sockets, sock, chatId, content, messageType, mediaUrl, now);
      var u := sockets[sock];
      var prepared := PrepareSocketMessage(db.Snapshot(), u, chatId, content, messageType, mediaUrl, now);
      if prepared.Err? {
        Send(Origin(sock), ErrorEvent(prepared.error));
        return;
      }
      SaveAndDeliver(db, prepared.value, now);
    }

    /** The write and the emits of `Deliver`; the registry is untouched. */
    method SaveAndDeliver(db: Database, m: Message, now: nat)
      requires m.sender in db.users && m.chat in db.chats
      modifies db`messages, db`nextId, this`outbox
      ensures var o := Deliver(old(db.Snapshot()), rooms, sockets, m, now);
        db.Snapshot() == o.tables && outbox == old(outbox) + o.emits
    {
      ghost var t := db.Snapshot();
      var id := db.MintId();
      db.messages := db.messages[id := m];
      var pps := Populated(db.users, db.chats[m.chat].participants);
      Broadcast(pps, Payload(db.users, id, m));
      var online := OnlineRecipients(pps, m.sender, rooms);
      if online != [] {
        db.messages := db.messages[id := Escalate(m, online, now)];
        Send(Room(m.chat), MessageStatusEvent(id, Delivered, online));
        assert db.messages == t.messages[id := Escalate(m, online, now)];
      } else {
        assert db.messages == t.messages[id := m];
      }
      assert db.Snapshot() == Tables(t.users, t.chats, db.messages, id + 1);
    }

    /** `io.to(participant).emit('message', …)` for each populated participant in turn. */
    method Broadcast(pps: seq<UserId>, payload: MessageController.MessageResponse)
      modifies this`outbox
      ensures outbox == old(outbox) + FanOut(pps, payload, rooms, sockets)
    {
      var i := 0;
      while i < |pps|
        invariant 0 <= i <= |pps|
        invariant outbox == old(outbox) + FanOut(pps[..i], payload, rooms, sockets)
      {
        assert pps[..i + 1][..i] == pps[..i];
        Send(Room(pps[i]), MessageEvent(payload));
        i := i + 1;
      }
      assert pps[..i] == pps;
    }

    /** typing: relayed to the chat room except the typing socket; no membership check, nothing stored. */
    method Typing(sock: SocketId, chatId: IdInput, isTyping: bool)
      requires sock in sockets
      modifies this`outbox
      ensures chatId.Castable? ==>
        outbox == old(outbox) + [Emit(RoomExcept(chatId.id, sock), Members(rooms, chatId.id) - {sock}, TypingEvent(sockets[sock], isTyping))]
      ensures chatId.Uncastable? ==> outbox == old(outbox)
    {
      if chatId.Castable? {
        Send(RoomExcept(chatId.id, sock), TypingEvent(sockets[sock], isTyping));
      }
    }

    /**
     * updateMessageStatus: only a `'read'` from a member not yet in
     * `readBy` acts; it marks the message read and sends the old `readBy`
     * plus the reader to the chat room.
     */
    method UpdateMessageStatus(db: Database, sock: SocketId, messageId: IdInput, status: string, now: nat)
      requires db.Valid() && sock in sockets
      modifies db`messages, this`outbox
      ensures db.Valid()
      ensures var c := StatusUpdateCheck(old(db.Snapshot()), sockets[sock], messageId);
        && (c.Err? ==> db.messages == old(db.messages) && outbox == old(outbox) + [Emit(Origin(sock), {sock}, ErrorEvent(c.error))])
        && (c.Ok? && !ReadApplies(old(db.messages)[c.value], sockets[sock], status) ==>
              db.messages == old(db.messages) && outbox == old(outbox))
        && (c.Ok? && ReadApplies(old(db.messages)[c.value], sockets[sock], status) ==>
              var m := old(db.messages)[c.value];
              && db.messages == old(db.messages)[c.value := SocketRead(m, sockets[sock], now)]
              && outbox == old(outbox) + [Emit(Room(m.chat), Members(rooms, m.chat), MessageStatusEvent(c.value, Read, m.readBy + [sockets[sock]]))])
    {
      var u := sockets[sock];
      var check := StatusUpdateCheck(db.Snapshot(), u, messageId);
      if check.Err? {
        Send(Origin(sock), ErrorEvent(check.error));
        return;
      }
      var id := check.value;
      var m := db.messages[id];
      if ReadApplies(m, u, status) {
        db.messages := db.messages[id := SocketRead(m, u, now)];
        Send(Room(m.chat), MessageStatusEvent(id, Read, m.readBy + [u]));
      }
    }

    /**
     * disconnect: the socket has left its rooms; the user is stored as
     * offline and announced offline twice, whether or not other sockets of
     * the user are still connected.
     */
    method Disconnect(db: Database, sock: SocketId, now: nat)
      requires db.Valid() && Valid() && sock in sockets
      modifies this, db`users
      ensures db.Valid() && Valid()
      ensures sockets == old(sockets) - {sock} && rooms == LeaveAll(old(rooms), sock)
      ensures db.users == SetPresence(old(db.users), old(sockets)[sock], false, now)
      ensures outbox == old(outbox) + [
        Emit(Everyone, sockets.Keys, UserStatusEvent(old(sockets)[sock], false)),
        Emit(EveryoneExcept(sock), sockets.Keys - {sock}, UserStatusEvent(old(sockets)[sock], false))]
    {
      var u := sockets[sock];
      LeaveAllKeepsRegistry(rooms, sockets, sock);
      rooms := LeaveAll(rooms, sock);
      sockets := sockets - {sock};
      UpdateUserStatus(db, u, false, now);
      Send(EveryoneExcept(sock), UserStatusEvent(u, false));
    }
  }
}
