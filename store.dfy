/**
 * The MongoDB collections as in-memory tables. `nextId` is the ObjectId
 * counter: every insert takes the next value, so every stored id is below
 * it and a larger id is a newer record.
 */
module Store {
  import opened Wrappers
  import opened ObjectIds
  import opened Collections
  import opened MessageModel
  import opened ChatModel

  /**
   * The user record as the controllers use it (userModel.ts is not part of
   * this model). `password` is whatever the model's hook stores; the
   * controllers only compare it through `comparePassword`.
   */
  datatype User = User(
    name: string,
    email: string,
    password: string,
    profilePicture: Option<string>,
    about: Option<string>,
    lastSeen: nat,
    isOnline: bool)

  const UnknownName: string := "Unknown"

  /** `user?.name || 'Unknown'` for a populated user reference: a missing user or an empty name reads as Unknown. */
  function NameOrUnknown(users: map<UserId, User>, id: UserId): (s: string)
    ensures s != ""
    ensures id in users && users[id].name != "" ==> s == users[id].name
    ensures !(id in users && users[id].name != "") ==> s == UnknownName
  {
    if id in users && users[id].name != "" then users[id].name else UnknownName
  }

  datatype Tables = Tables(
    users: map<UserId, User>,
    chats: map<ChatId, Chat>,
    messages: map<MsgId, Message>,
    nextId: nat)

  ghost predicate UniqueEmails(users: map<UserId, User>)
  {
    forall i, j :: i in users && j in users && users[i].email == users[j].email ==> i == j
  }

  /** The invariants every handler preserves. */
  ghost predicate ValidTables(t: Tables)
  {
    && (forall id :: id in t.users ==> id < t.nextId)
    && (forall id :: id in t.chats ==> id < t.nextId)
    && (forall id :: id in t.messages ==> id < t.nextId && t.messages[id].createdAt == id && WellFormed(t.messages[id]))
    && UniqueEmails(t.users)
    && UniqueActivePairs(t.chats)
  }

  class Database {
    var users: map<UserId, User>
    var chats: map<ChatId, Chat>
    var messages: map<MsgId, Message>
    var nextId: nat

    function Snapshot(): Tables
      reads this
    {
      Tables(users, chats, messages, nextId)
    }

    ghost predicate Valid()
      reads this
    {
      ValidTables(Snapshot())
    }

    constructor ()
      ensures Valid()
      ensures users == map[] && chats == map[] && messages == map[] && nextId == 0
    {
      users, chats, messages, nextId := map[], map[], map[], 0;
    }

    /** Mints a fresh ObjectId: larger than every id stored so far. */
    method MintId() returns (id: ObjectId)
      modifies this`nextId
      ensures id == old(nextId) && nextId == id + 1
    {
      id := nextId;
      nextId := nextId + 1;
    }
  }
}
