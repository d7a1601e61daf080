/**
 * backend/src/api/models/chatModel.ts: the ChatType enum, the Chat record
 * with its defaults, and the unique index declared for private pairs.
 */
module ChatModel {
  import opened Wrappers
  import opened ObjectIds

  datatype ChatType = Private | Group

  function ChatTypeName(t: ChatType): string
  {
    match t
    case Private => "private"
    case Group => "group"
  }

  /**
   * A stored chat: a reference list of participants, an optional pointer
   * to the latest message, and the soft-delete flag.
   */
  datatype Chat = Chat(
    chatType: ChatType,
    participants: seq<UserId>,
    latestMessage: Option<MsgId>,
    isActive: bool,
    createdAt: nat,
    updatedAt: nat)

  /** The fields handed to `Chat.create({...})`; the optional ones have schema defaults. */
  datatype ChatFields = ChatFields(chatType: Option<ChatType>, participants: seq<UserId>, isActive: Option<bool>)

  /** `chatType` defaults to private, `isActive` to true; a new chat has no latest message. */
  function NewChat(f: ChatFields, now: nat): (c: Chat)
    ensures c.chatType == (if f.chatType.None? then Private else f.chatType.value)
    ensures c.isActive == (f.isActive.None? || f.isActive.value)
    ensures c.participants == f.participants && c.latestMessage.None?
    ensures c.createdAt == now && c.updatedAt == now
  {
    Chat(f.chatType.GetOr(Private), f.participants, None, f.isActive.GetOr(true), now, now)
  }

  /**
   * The partial filter of the unique index over `{ chatType, participants }`:
   * private chats with exactly two participants. It does not mention
   * `isActive`, so an inactive chat stays under the index.
   */
  predicate InPrivatePairIndex(c: Chat)
  {
    c.chatType == Private && |c.participants| == 2
  }

  lemma PrivatePairIndexIgnoresIsActive(c: Chat, active: bool)
    ensures InPrivatePairIndex(c) <==> InPrivatePairIndex(c.(isActive := active))
  {
  }

  /** An active chat under the private-pair index. */
  predicate ActivePair(c: Chat)
  {
    InPrivatePairIndex(c) && c.isActive
  }

  /**
   * At most one active private chat per (unordered) pair of participants:
   * the invariant the find-or-create of createPrivateChat maintains.
   */
  ghost predicate UniqueActivePairs(chats: map<ChatId, Chat>)
  {
    forall i, j :: i in chats && j in chats && i != j && ActivePair(chats[i]) && ActivePair(chats[j]) ==>
      multiset(chats[i].participants) != multiset(chats[j].participants)
  }
}
