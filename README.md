# WhatsApp-clone backend: message lifecycle model

This project is a Dafny model of the backend of a WhatsApp-style chat
application (Express + tsoa controllers, Mongoose models, a Socket.IO
server). It models the message lifecycle: messages go from `sent` to
`delivered` to `read`, carry a `readBy` list and a `deletedFor` list, and
belong to private chats. Two ingress paths change them:

- the REST controllers for messages, chats, users and authentication;
- the Socket.IO handlers, which also handle escalation to delivered,
  read receipts, presence and the typing relay.

The MongoDB collections are in-memory tables (`Store.Tables`, and the
`Store.Database` class the handlers mutate):

- users, chats and messages keyed by ObjectId;
- one monotone id counter `nextId`, so a larger id is a newer record, and
  a message's `createdAt` is its id;
- clock values are a `now` parameter.

The Socket.IO server is the class `Socket.SocketServer`:

- a room registry maps room names to socket ids;
- a socket table maps each socket to its user;
- an outbox records every emit, with the sockets it reached.

JWT signing and verification, password comparison and the `$regex` match
are function-typed parameters.

Modules, one per source file: `ErrorTypes`, `ErrorHandler`, `MessageModel`,
`ChatModel`, `AuthMiddleware`, `AuthController`, `UserController`,
`ChatController`, `MessageController`, `Socket`. Supporting modules are:

- `Wrappers`: Option and Result;
- `ObjectIds`: ids and casting;
- `Collections`: query helpers such as ordered filtering, windows and sets;
- `Store`: the tables.

The model follows the code, including these behaviours:

- REST `delivered` overwrites `read`.
- Socket messages start with an empty `readBy`, not `[sender]`.
- The socket path checks neither `isActive` nor the chat type, and never
  updates `latestMessage`.
- A REST message with a media URL but no content passes the body check
  and then fails schema validation (`content` is required).
- Every disconnect stores the user as offline and announces it twice:
  once through `updateUserStatus` to everyone and once by broadcast.
  This happens even when the user still has other live sockets.

## Model

| member | source | states |
|---|---|---|
| ErrorTypes.NewAppError | backend/src/util/errorTypes.ts:7-12 | an AppError keeps its message and status code; `isOperational` defaults to true |
| ErrorTypes.NotFoundError | backend/src/util/errorTypes.ts:15-19 | status 404 with the given message |
| ErrorTypes.BadRequestError | backend/src/util/errorTypes.ts:21-25 | status 400 with the given message |
| ErrorTypes.UnauthorizedError | backend/src/util/errorTypes.ts:27-31 | status 401 with the given message |
| ErrorTypes.ForbiddenError | backend/src/util/errorTypes.ts:33-37 | status 403 with the given message |
| ErrorTypes.SubclassStatusesDistinct | backend/src/util/errorTypes.ts:15-37 | the four subclasses carry pairwise distinct statuses |
| ErrorHandler.HandleError | backend/src/api/middlewares/errorHandlerMiddleware.ts:6-57 | first match wins. AppError: its own status and message. Validation error: 400 "Validation Error" with the field messages; the `errors` list appears exactly for validation errors. Cast error: 400 "Invalid path: value". Duplicate key 11000: 409 "Duplicate value for <first key field>. This <field> is already in use.". Anything else: 500, exactly for unclassified errors, with the message hidden in production |
| ErrorHandler.SubclassesReachClient | backend/src/api/middlewares/errorHandlerMiddleware.ts:12-18 | each AppError subclass answers with its own status and message, in production too |
| ErrorHandler.ProductionHidesInternalErrors | backend/src/api/middlewares/errorHandlerMiddleware.ts:50-56 | in production an unclassified error answers 500 "Something went wrong" |
| MessageModel.ParseMessageType | backend/src/api/models/messageModel.ts:55-59 | the enum check accepts exactly the six type names |
| MessageModel.MessageTypesAreSix | backend/src/api/models/messageModel.ts:3-10 | exactly six distinct message types; every name parses back to its type |
| MessageModel.NameParsesBack | backend/src/api/models/messageModel.ts:55-59 | the enum check accepts each type's own name and gives back that type |
| MessageModel.ParseStatus | backend/src/api/models/messageModel.ts:63-67 | the enum check accepts exactly the three status names |
| MessageModel.StatusesAreThree | backend/src/api/models/messageModel.ts:12-16 | exactly three distinct statuses; every name parses back |
| MessageModel.ValidationErrors | backend/src/api/models/messageModel.ts:51-59 | no validation message exactly when `content` is present and any given type is in the enum |
| MessageModel.Instantiate | backend/src/api/models/messageModel.ts:39-84 | save succeeds iff content is present and the type is valid. Defaults: type text, status sent, `deletedFor` empty. Timestamps are set. A failure is a ValidationError listing the failing paths |
| ChatModel.NewChat | backend/src/api/models/chatModel.ts:22-59 | `chatType` defaults to private and `isActive` to true; there is no latest message; the timestamps are set |
| ChatModel.PrivatePairIndexIgnoresIsActive | backend/src/api/models/chatModel.ts:65-74 | the unique index's partial filter does not depend on `isActive` |
| Store.NameOrUnknown | backend/src/api/controllers/chatController.ts:64-66 | a populated name, or `'Unknown'` when the user is missing or the name is empty; never empty |
| AuthMiddleware.ExtractToken | backend/src/api/middlewares/authMiddleware.ts:66-72 | a token exactly for a header starting with `"Bearer "`; the prefix followed by the token gives back the header |
| AuthMiddleware.ExtractTokenInverse | backend/src/api/middlewares/authMiddleware.ts:66-72 | extraction undoes prefixing `"Bearer "` |
| AuthMiddleware.UserOf | backend/src/api/middlewares/authMiddleware.ts:40-44 | the attached user carries the decoded id and email; the role defaults to `'user'` |
| AuthMiddleware.Authenticate | backend/src/api/middlewares/authMiddleware.ts:18-64 | a scheme other than jwt gives Forbidden before the token is read. No token: Unauthorized "No token provided". No secret: a plain Error. An expired token gives Unauthorized "Token expired", a malformed one "Invalid token", any other verifier error "Authentication failed: " plus its message. The user is attached iff the token verifies. Success iff the scopes admit the role. An out-of-scope role gives Unauthorized "Authentication failed: …", never Forbidden |
| AuthMiddleware.ExpressAuthentication | backend/src/api/middlewares/authMiddleware.ts:18-64 | returns what `Authenticate` says; `request.user` is assigned whenever the token verifies, even when the scope check then throws |
| AuthMiddleware.OutOfScopeIsUnauthorized | backend/src/api/middlewares/authMiddleware.ts:46-62 | a verified role outside non-empty scopes gives 401 with the user already attached |
| AuthController.UserWithEmail | backend/src/api/controllers/authController.ts:63 | `findOne({ email })` finds a user with that email, or none exists |
| AuthController.RegisterError | backend/src/api/controllers/authController.ts:58-66 | an empty field gives the required-fields BadRequest. Otherwise a refusal happens iff the email is taken, with "Email already in use" |
| AuthController.NewUser | backend/src/api/controllers/authController.ts:69-75 | the saved user carries the given name, email and password |
| AuthController.AddUserKeepsEmailsUnique | backend/src/api/controllers/authController.ts:63-75 | adding a user whose email is free keeps emails unique |
| AuthController.Register | backend/src/api/controllers/authController.ts:53-94 | on refusal nothing changes. Otherwise exactly one user is added under a new id. The token is signed over id and email with the secret, or with "secret88" when the secret is empty |
| AuthController.LoginCheck | backend/src/api/controllers/authController.ts:104-120 | an empty field gives BadRequest. An unknown email and a wrong password give the same Unauthorized "Invalid credentials". Success iff the user exists and the password matches |
| AuthController.Login | backend/src/api/controllers/authController.ts:103-145 | on success the user is stored online with `lastSeen` now, then the token is signed. An empty secret fails after that write |
| AuthController.Logout | backend/src/api/controllers/authController.ts:154-180 | no caller: Unauthorized. Missing user: NotFound. Otherwise the user is stored offline with `lastSeen` now |
| UserController.ProfileOf | backend/src/api/controllers/userController.ts:47-55 | the projection copies id, name, email, picture, about, lastSeen and isOnline; the type has no password field |
| UserController.GetCurrentUser | backend/src/api/controllers/userController.ts:32-56 | Unauthorized without a caller and NotFound for a missing user; otherwise the caller's profile |
| UserController.ApplyProfileUpdate | backend/src/api/controllers/userController.ts:75-79 | only the supplied fields among name, about and picture change |
| UserController.ProfileUpdateIdempotent | backend/src/api/controllers/userController.ts:75-79 | applying the same update twice equals applying it once |
| UserController.ProfileUpdateKeepsEmailsUnique | backend/src/api/controllers/userController.ts:75-79 | a profile update keeps emails unique |
| UserController.UpdateProfile | backend/src/api/controllers/userController.ts:65-94 | Unauthorized or NotFound change nothing. Otherwise only the caller's record changes, by the update, and the new profile is returned |
| UserController.GetUserById | backend/src/api/controllers/userController.ts:104-122 | a malformed id gives a CastError and an unknown one NotFound; otherwise the profile |
| UserController.SearchIds | backend/src/api/controllers/userController.ts:141-151 | at most 20 ids, never the caller, only name or email matches, in natural order. Fewer than 20 only when that is every match |
| UserController.SearchUsers | backend/src/api/controllers/userController.ts:131-162 | Unauthorized without a caller; otherwise the profiles of `SearchIds` |
| ChatController.OtherParticipant | backend/src/api/controllers/chatController.ts:51-53 | the first populated participant that is not the caller, or none when there is no such participant |
| ChatController.OtherOfPair | backend/src/api/controllers/chatController.ts:51-53 | in a two-party chat each party sees the other, when that user exists |
| ChatController.UnreadCount | backend/src/api/controllers/chatController.ts:55-60 | counts exactly the chat's messages not read, not read by the caller and not deleted for the caller |
| ChatController.LastMessageText | backend/src/api/controllers/chatController.ts:65-69 | empty iff there is no stored latest message; otherwise "sender name or Unknown: content" |
| ChatController.MapChatToResponse | backend/src/api/controllers/chatController.ts:47-81 | name of the other participant or Unknown, last-message text, unread count, and the picture or the default avatar |
| ChatController.MostRecentFirstPairwise | backend/src/api/controllers/chatController.ts:109 | the adjacent `updatedAt` order holds between any two positions |
| ChatController.InsertByRecencySorted | backend/src/api/controllers/chatController.ts:109 | inserting into a list sorted most recent first keeps it sorted |
| ChatController.SortByRecency | backend/src/api/controllers/chatController.ts:109 | `sort({ updatedAt: -1 })` returns a permutation of its input, most recently updated first |
| ChatController.UserChatIds | backend/src/api/controllers/chatController.ts:99-110 | exactly the active private chats listing the caller, each once, most recently updated first |
| ChatController.GetUserChats | backend/src/api/controllers/chatController.ts:91-115 | Unauthorized without a valid caller; otherwise the list items of `UserChatIds` |
| ChatController.GetChatById | backend/src/api/controllers/chatController.ts:126-153 | success iff the chat is an active private chat of the caller. Otherwise Unauthorized, a CastError, or NotFound "Chat not found" |
| ChatController.FindPrivateChat | backend/src/api/controllers/chatController.ts:184-198 | finds an active private two-party chat of both users, or none exists |
| ChatController.FindPrivateChatSymmetric | backend/src/api/controllers/chatController.ts:184-198 | the lookup does not depend on the order of the two users |
| ChatController.AddPrivateChat | backend/src/api/controllers/chatController.ts:200-204 | creates an active private chat `[caller, participant]` under a new id and changes nothing else |
| ChatController.AddPrivateChatKeepsValid | backend/src/api/controllers/chatController.ts:184-204 | creating only after a failed lookup keeps at most one active chat per pair |
| ChatController.SecondCreateFindsSameChat | backend/src/api/controllers/chatController.ts:184-198 | after a creation, the same request in either user order finds the new chat |
| ChatController.CreatePrivateChatCheck | backend/src/api/controllers/chatController.ts:169-182 | the guards in order: Unauthorized, BadRequest "Invalid participant ID", NotFound "Participant not found" |
| ChatController.CreatePrivateChat | backend/src/api/controllers/chatController.ts:165-219 | errors change nothing. An existing pair chat is returned unchanged; otherwise exactly one chat is added |
| ChatController.Deactivate | backend/src/api/controllers/chatController.ts:250-252 | only the chat's `isActive` (false) and `updatedAt` change |
| ChatController.DeactivateKeepsValid | backend/src/api/controllers/chatController.ts:250-252 | a soft delete keeps the tables valid |
| ChatController.DeactivatedChatIsGone | backend/src/api/controllers/chatController.ts:239-248 | a deactivated chat fails every later lookup and leaves every chat list |
| ChatController.DeleteThenCreateMakesNewChat | backend/src/api/controllers/chatController.ts:184-204 | once the pair's only active chat is deleted, the lookup finds nothing, so a new chat is created |
| ChatController.DeleteChatCheck | backend/src/api/controllers/chatController.ts:234-248 | success iff the chat is an active private chat of the caller |
| ChatController.DeleteChat | backend/src/api/controllers/chatController.ts:226-253 | errors change nothing; otherwise only the soft delete, then "Chat deleted successfully" |
| MessageController.ResponseOf | backend/src/api/controllers/messageController.ts:122-145 | the response copies the message, with the sender's name or Unknown. A sender with no user record throws a TypeError |
| MessageController.ResponsesOf | backend/src/api/controllers/messageController.ts:193-207 | one response per message in order, or the TypeError when some sender is missing |
| MessageController.CreateMessageCheck | backend/src/api/controllers/messageController.ts:75-99 | the guards in order: Unauthorized; BadRequest when content and media are both empty, before any lookup; a CastError; NotFound unless the chat is active and lists the caller |
| MessageController.RestMessageShape | backend/src/api/controllers/messageController.ts:79-111 | with content, the new message is sent, `readBy = [sender]`, `deletedFor` empty, and the type defaults to text |
| MessageController.MediaOnlyMessageFailsValidation | backend/src/api/controllers/messageController.ts:86-113 | a media-only message passes the body guard but fails schema validation |
| MessageController.PostMessage | backend/src/api/controllers/messageController.ts:113-119 | the message is stored under a new id and the chat's `latestMessage` points at it |
| MessageController.PostMessageKeepsValid | backend/src/api/controllers/messageController.ts:113-119 | posting keeps the tables valid |
| MessageController.PostedMessageIsLastMessage | backend/src/api/controllers/messageController.ts:116-119 | the chat list shows the posted message as the chat's last message |
| MessageController.PostedMessageUnreadCounts | backend/src/api/controllers/messageController.ts:102-119 | a REST post adds one unread message for every other user and none for the sender |
| MessageController.CreateMessage | backend/src/api/controllers/messageController.ts:69-146 | guard errors change nothing. Otherwise the message is posted, and the response is built after the write |
| MessageController.VisibleIds | backend/src/api/controllers/messageController.ts:184-189 | exactly the chat's messages not deleted for the caller, newest first |
| MessageController.PostedMessageListedFirst | backend/src/api/controllers/messageController.ts:184-189 | a posted message heads the listing of every user it is visible to |
| MessageController.PageIds | backend/src/api/controllers/messageController.ts:181-191 | the ids of the listing from position `skip` on, in order: exactly `limit` of them when that many remain, otherwise (and always when the limit is 0) all that remain, none past the end; only the chat's messages not deleted for the caller, newest first |
| MessageController.PageOf | backend/src/api/controllers/messageController.ts:184-207 | one response per id of the page, in order; the TypeError exactly when one of those messages has no sender record |
| Collections.PagesTile | backend/src/api/controllers/messageController.ts:181-191 | with a fixed positive limit, pages 1..n together are the first n * limit messages of the listing: none skipped, none repeated |
| MessageController.GetChatMessages | backend/src/api/controllers/messageController.ts:157-208 | the guards in order. Page 1 and limit 50 by default. Skips `(page-1)*limit`; a negative skip is a server error |
| MessageController.MessageAccessCheck | backend/src/api/controllers/messageController.ts:224-247 | Unauthorized, a CastError, NotFound "Message not found", then Forbidden unless the message's chat is active and lists the caller |
| MessageController.MarkRead | backend/src/api/controllers/messageController.ts:250-254 | the caller ends up in `readBy`. A caller already there changes nothing. Otherwise the caller is appended and the status becomes read |
| MessageController.MarkReadIdempotent | backend/src/api/controllers/messageController.ts:250-254 | a repeated read changes nothing |
| MessageController.MarkDelivered | backend/src/api/controllers/messageController.ts:255-256 | the status becomes delivered whatever it was; `readBy` and `deletedFor` stay |
| MessageController.DeliveredOverwritesRead | backend/src/api/controllers/messageController.ts:255-256 | REST `delivered` moves a read message back down the sent < delivered < read order |
| MessageController.SenderReadIsNoOp | backend/src/api/controllers/messageController.ts:109 | the sender of a REST message is in `readBy`, so the sender's own read changes nothing |
| MessageController.UpdateMessageStatus | backend/src/api/controllers/messageController.ts:219-278 | access errors change nothing. A status other than read or delivered is BadRequest "Invalid status update". Otherwise `MarkRead` or `MarkDelivered` is saved |
| MessageController.WithDeleter | backend/src/api/controllers/messageController.ts:319-322 | the caller is added to `deletedFor` once, so there are no duplicates |
| MessageController.NewestVisible | backend/src/api/controllers/messageController.ts:330-333 | the newest message of the chat not deleted for the caller, or none exists |
| MessageController.DeleteForUserEffect | backend/src/api/controllers/messageController.ts:318-339 | hard delete iff `deletedFor` (with the caller) is as long as the participant list; otherwise the caller is added. No other message changes. The chat is repointed only when the removed message was its latest |
| MessageController.DeleteForUserKeepsValid | backend/src/api/controllers/messageController.ts:318-339 | a delete keeps the tables valid |
| MessageController.DeleteForUserIdempotent | backend/src/api/controllers/messageController.ts:319-322 | a repeated delete by the same user changes nothing |
| MessageController.DeletedMessageHidden | backend/src/api/controllers/messageController.ts:184-189 | after a delete the message leaves the deleting user's listing |
| MessageController.BothPartiesDeleteRemoves | backend/src/api/controllers/messageController.ts:318-326 | in a two-party chat a message is removed once both parties have deleted it |
| MessageController.DeleteMessage | backend/src/api/controllers/messageController.ts:289-343 | access errors change nothing. Otherwise the delete's effect is applied, and success is returned either way |
| Socket.SocketAuthenticate | backend/src/api/socket.ts:38-67 | no token: Unauthorized before anything else. No secret: a plain Error. Success iff the token verifies. Expired or malformed tokens give 401; other errors pass through |
| Socket.LiveSocketMeansRoom | backend/src/api/socket.ts:76 | a connected user's personal room exists, so `rooms.has(userId)` holds |
| Socket.LeaveAll | backend/src/api/socket.ts:243-250 | on disconnect the socket leaves every room; rooms left empty disappear |
| Socket.LeaveAllKeepsRegistry | backend/src/api/socket.ts:243-250 | leaving all rooms keeps the registry invariant |
| Socket.OtherSocketKeepsRoom | backend/src/api/socket.ts:243-250 | another live socket of the user keeps the personal room, although the store says offline |
| Socket.SetPresence | backend/src/api/socket.ts:255-264 | only the user's `isOnline` and `lastSeen` change; a missing user changes nothing |
| Socket.SetPresenceKeepsEmailsUnique | backend/src/api/socket.ts:255-264 | presence writes keep emails unique |
| Socket.Populated | backend/src/api/socket.ts:95 | `populate('participants')` keeps exactly the participants that have user records |
| Socket.OnlineRecipients | backend/src/api/socket.ts:154-158 | exactly the populated participants other than the sender whose personal room exists |
| Socket.Escalate | backend/src/api/socket.ts:159-165 | status delivered; `readBy` is the set union with the online recipients; no duplicates |
| Socket.PrepareSocketMessage | backend/src/api/socket.ts:94-116 | in order: the cast error's message, "Chat not found", "User not in chat", then a validation message. Success gives a sent message with empty `readBy` and `deletedFor` |
| Socket.Payload | backend/src/api/socket.ts:119-143 | the `message` payload carries the raw sender name, with no Unknown fallback |
| Socket.FanOut | backend/src/api/socket.ts:146-151 | one `message` emit per populated participant's personal room, sender included, in participant order |
| Socket.FanOutReachesParticipants | backend/src/api/socket.ts:146-151 | every live socket of every populated participant receives the message |
| Socket.SocketRead | backend/src/api/socket.ts:216-220 | status read and the reader appended; no duplicates |
| Socket.SocketReadOnce | backend/src/api/socket.ts:216 | once applied, a read by the same user never applies again |
| Socket.StatusUpdateCheck | backend/src/api/socket.ts:195-214 | the cast error's message, "Message not found", or "User not in chat" when the chat is missing or does not list the caller |
| Socket.JoinAll | backend/src/api/socket.ts:275-277 | after the joins, each listed room holds the socket in addition to its old members; no other room changes |
| Socket.PersonalRoomKeepsRegistry | backend/src/api/socket.ts:74-75 | a new socket joining its user's personal room keeps the registry invariant |
| Socket.JoinAllKeepsRegistry | backend/src/api/socket.ts:275-277 | joining a connected socket to rooms keeps the registry invariant |
| Socket.ChatRoomsOf | backend/src/api/socket.ts:274 | every chat listing the user, with no `isActive` or chat-type filter |
| Socket.DeliverStores | backend/src/api/socket.ts:106-171 | the new message is delivered iff some other participant is online. Its `readBy` gains exactly the online recipients. Other messages are untouched |
| Socket.DeliverEmits | backend/src/api/socket.ts:146-171 | one `message` emit per populated participant's room, in order; then, exactly when another participant is online, one `messageStatus` emit to the chat room: delivered, `readBy` exactly the online recipients |
| Socket.DeliverReachesParticipants | backend/src/api/socket.ts:146-151 | every live socket of every participant with a user record receives the `message` event |
| Socket.OnlineRecipientCannotRead | backend/src/api/socket.ts:154-216 | an online recipient's later read is a no-op, and the message is not unread for that recipient |
| Socket.SocketMessageUnreadForSender | backend/src/api/socket.ts:106-116 | a socket message counts as unread for its own sender in the chat list |
| Socket.DeliverKeepsValid | backend/src/api/socket.ts:116-171 | saving a well-formed message under the next id, escalated or not, keeps the tables valid |
| Socket.NewMessageKeepsValid | backend/src/api/socket.ts:106-171 | newMessage keeps the tables valid |
| Socket.NewMessageOutcome | backend/src/api/socket.ts:93-171 | on error, only an `error` emit to the sender and no write. On success, a new message under a new id. Chats and users are never written |
| Socket.SocketServer.UpdateUserStatus | backend/src/api/socket.ts:255-269 | the presence write, then `userStatus` to every connected socket |
| Socket.SocketServer.JoinUserChats | backend/src/api/socket.ts:272-281 | the socket joins the room of every chat listing the user |
| Socket.SocketServer.Connect | backend/src/api/socket.ts:38-82 | a refused handshake changes nothing. Otherwise: personal room, online with `userStatus` to all, then every chat room of the user |
| Socket.SocketServer.NewMessage | backend/src/api/socket.ts:85-180 | the tables and emits of `NewMessageOutcome`; the registry is unchanged |
| Socket.SocketServer.SaveAndDeliver | backend/src/api/socket.ts:116-171 | save, fan-out, then escalation and `messageStatus` to the chat room when some recipient is online |
| Socket.SocketServer.Broadcast | backend/src/api/socket.ts:146-151 | appends the fan-out emits in participant order |
| Socket.SocketServer.Typing | backend/src/api/socket.ts:183-188 | `typing` to the chat room minus the sending socket, with no membership check and no stored state |
| Socket.SocketServer.UpdateMessageStatus | backend/src/api/socket.ts:191-240 | errors go to the sender only. A read acts only for a member not yet in `readBy`: status read, the reader added, old `readBy` plus the reader broadcast. Anything else does nothing |
| Socket.SocketServer.Disconnect | backend/src/api/socket.ts:243-250 | the socket leaves its rooms, the user is stored offline, and `userStatus` offline is emitted to all, then broadcast again |

## Left out

- Concurrency: each handler is one atomic step. This leaves out the
  interleaving of awaited calls, of the un-awaited `updateUserStatus` and
  `joinUserChats` at connection time, and of the separate `save` and
  `findByIdAndUpdate` writes.
- Transport: Socket.IO transport and acknowledgements are not modelled.
  An emit is recorded as its target, the sockets it reached and the
  payload.
- Socket-id rooms: a socket's own socket-id room is not modelled.
  `typing` addressed to a name that is not an ObjectId reaches no socket,
  and the model records no emit for it.
- Foreign calls: JWT signing and verification, bcrypt comparison and
  MongoDB `$regex` matching are oracles.
  - Tokens are signed with an `_id` claim (authController.ts:79), but both
    verifiers read `userId`. The verifier oracle returns the user id
    directly, so this mismatch is not modelled.
  - userModel.ts (hashing hook, `role`, `comparePassword`) is not part of
    this model.
- Clocks: `new Date()` is a `now` parameter. The `time` field of the chat
  list (`toLocaleTimeString`) is left out.
- Mongoose mechanics: populate and lean are replaced by map lookups.
  - A missing populated user drops out of the list.
  - Mongoose's message texts for validation and cast errors are
    abbreviated.
  - ObjectId hex case is ignored: ids are compared as values.
- Unique index: the private-pair unique index is declared, but it is not
  enforced. MongoDB does not accept `$size` in a partial filter expression.
  The model keeps at most one active chat per pair as an invariant of
  createPrivateChat instead.
- MongoDB `limit`: the single-batch cap of a negative `limit` is left out;
  a negative limit counts as its absolute value.
- Malformed caller ids: in the message controller, a malformed caller id
  stands for an absent caller. In the code it would raise a CastError from
  the query.
- Unreachable branches: socket.ts's 'Invalid chat' (a message always has a
  chat) and 'Message not found after saving' cannot occur in the model.
- GetChatMessages: `page` and `limit` are declared as doubles by the generated route, but the model takes integers, so a non-integral page or limit is not modelled.
- SearchUsers: the search text goes into `$regex` unescaped. A text that is not a valid regular expression makes MongoDB throw, which answers 500. The matcher oracle is total, so this failure is not modelled.
- MessageController.UpdateMessageStatus: the message is loaded with `populate('chat')`, so the response's `chat` is the string form of the whole chat document. The model answers the chat's id instead.
- Group chats: only the enum value exists, and no handler uses it.
- Startup, routing glue, logging, rate limiting and the frontend are not
  part of the core.
