/**
 * backend/src/api/controllers/chatController.ts: the chat list and chat
 * lookup queries with their list-item projection, the find-or-create of a
 * private chat, and the soft delete of a chat.
 */
module ChatController {
  import opened Wrappers
  import opened ErrorTypes
  import opened ObjectIds
  import opened Collections
  import opened MessageModel
  import opened ChatModel
  import opened Store

  /** ChatListResponse without its `time` field (clock formatting is not modelled). */
  datatype ChatListItem = ChatListItem(id: ChatId, name: string, lastMessage: string, unreadCount: nat, avatar: string)

  const DefaultAvatar: string := "https://api.a0.dev/assets/image?text=person%20professional%20portrait&aspect=1:1&seed=1"

  const NotAuthenticated: string := "User not authenticated"

  /**
   * `participants.find(p => p._id.toString() !== userId)` after populate:
   * participants without a user record drop out of the populated list, so
   * this is the first participant that exists and is not the caller.
   */
  function OtherParticipant(users: map<UserId, User>, ps: seq<UserId>, caller: UserId): (r: Option<UserId>)
    ensures r.Some? ==> r.value in users && r.value != caller
    ensures r.Some? ==> exists k :: 0 <= k < |ps| && ps[k] == r.value
                                    && (forall j :: 0 <= j < k ==> ps[j] !in users || ps[j] == caller)
    ensures r.None? ==> forall k :: 0 <= k < |ps| ==> ps[k] !in users || ps[k] == caller
  {
    if ps == [] then None
    else if ps[0] in users && ps[0] != caller then Some(ps[0])
    else
      var r := OtherParticipant(users, ps[1..], caller);
      if r.Some? then
        assert exists k :: 0 <= k < |ps| && ps[k] == r.value && forall j :: 0 <= j < k ==> ps[j] !in users || ps[j] == caller by {
          var k :| 0 <= k < |ps[1..]| && ps[1..][k] == r.value && forall j :: 0 <= j < k ==> ps[1..][j] !in users || ps[1..][j] == caller;
          assert ps[k + 1] == r.value;
          forall j | 0 <= j < k + 1 ensures ps[j] !in users || ps[j] == caller {
            if j > 0 {
              assert ps[j] == ps[1..][j - 1];
            }
          }
        }
        r
      else
        assert forall k :: 0 <= k < |ps| ==> ps[k] !in users || ps[k] == caller by {
          forall k | 0 <= k < |ps| ensures ps[k] !in users || ps[k] == caller {
            if k > 0 {
              assert ps[k] == ps[1..][k - 1];
            }
          }
        }
        r
  }

  /** In a two-party chat the caller sees the other party, when that user exists. */
  lemma OtherOfPair(users: map<UserId, User>, a: UserId, b: UserId)
    requires a != b
    ensures b in users ==> OtherParticipant(users, [a, b], a) == Some(b)
    ensures a in users ==> OtherParticipant(users, [a, b], b) == Some(a)
    ensures b !in users ==> OtherParticipant(users, [a, b], a) == None
  {
    assert [a, b][1..] == [b];
    assert [b][1..] == [];
  }

  /** A message counted as unread for `caller` in `chat`: not read, not read by the caller, not deleted for the caller. */
  predicate UnreadFor(m: Message, chat: ChatId, caller: UserId)
  {
    m.chat == chat && m.status != Read && caller !in m.readBy && caller !in m.deletedFor
  }

  function UnreadFilter(chat: ChatId, caller: UserId): (nat, Message) -> bool
  {
    (id: nat, m: Message) => UnreadFor(m, chat, caller)
  }

  /** The ids of the stored messages unread for `caller` in `chat`. */
  function UnreadSet(t: Tables, chat: ChatId, caller: UserId): set<MsgId>
  {
    set id | id in t.messages && UnreadFor(t.messages[id], chat, caller)
  }

  /** `Message.countDocuments(...)`: the number of stored messages unread for the caller in the chat. */
  function UnreadCount(t: Tables, chat: ChatId, caller: UserId): (n: nat)
    requires forall id :: id in t.messages ==> id < t.nextId
    ensures n == |UnreadSet(t, chat, caller)|
  {
    var ids := Matching(t.messages, UnreadFilter(chat, caller), t.nextId);
    MatchingCountAll(t.messages, UnreadFilter(chat, caller), t.nextId);
    assert MatchingSet(t.messages, UnreadFilter(chat, caller)) == UnreadSet(t, chat, caller) by {
      forall id ensures (id in t.messages && UnreadFilter(chat, caller)(id, t.messages[id]))
                     <==> (id in t.messages && UnreadFor(t.messages[id], chat, caller)) {
      }
    }
    |ids|
  }

  /** `lastMessage`: empty without a (stored) latest message, else "<sender name or Unknown>: <content>". */
  function LastMessageText(t: Tables, c: Chat): (s: string)
    ensures (c.latestMessage.None? || c.latestMessage.value !in t.messages) <==> s == ""
    ensures c.latestMessage.Some? && c.latestMessage.value in t.messages ==>
      var m := t.messages[c.latestMessage.value];
      s == NameOrUnknown(t.users, m.sender) + ": " + m.content
  {
    if c.latestMessage.None? || c.latestMessage.value !in t.messages then ""
    else
      var m := t.messages[c.latestMessage.value];
      NameOrUnknown(t.users, m.sender) + ": " + m.content
  }

  /** mapChatToResponse. */
  function MapChatToResponse(t: Tables, chat: ChatId, caller: UserId): (r: ChatListItem)
    requires chat in t.chats
    requires forall id :: id in t.messages ==> id < t.nextId
    ensures r.id == chat
    ensures var o := OtherParticipant(t.users, t.chats[chat].participants, caller);
      && r.name == (if o.Some? then NameOrUnknown(t.users, o.value) else UnknownName)
      && r.avatar == (if o.Some? && t.users[o.value].profilePicture.Some? && t.users[o.value].profilePicture.value != ""
                      then t.users[o.value].profilePicture.value else DefaultAvatar)
    ensures r.lastMessage == LastMessageText(t, t.chats[chat])
    ensures r.unreadCount == |UnreadSet(t, chat, caller)|
  {
    var c := t.chats[chat];
    var o := OtherParticipant(t.users, c.participants, caller);
    var name := if o.Some? then NameOrUnknown(t.users, o.value) else UnknownName;
    var avatar := if o.Some? && t.users[o.value].profilePicture.Some? && t.users[o.value].profilePicture.value != ""
                  then t.users[o.value].profilePicture.value else DefaultAvatar;
    ChatListItem(chat, name, LastMessageText(t, c), UnreadCount(t, chat, caller), avatar)
  }

  /** The filter of getUserChats: active private chats listing the caller. */
  predicate ListedFor(c: Chat, caller: UserId)
  {
    c.chatType == Private && c.isActive && caller in c.participants
  }

  function ListedFilter(caller: UserId): (nat, Chat) -> bool
  {
    (id: nat, c: Chat) => ListedFor(c, caller)
  }

  /** `sort({ updatedAt: -1 })`: each chat updated no earlier than the next one. */
  predicate MostRecentFirst(chats: map<ChatId, Chat>, s: seq<ChatId>)
  {
    forall i :: 0 <= i < |s| - 1 && s[i] in chats && s[i + 1] in chats ==> chats[s[i]].updatedAt >= chats[s[i + 1]].updatedAt
  }

  /** The order is total along the list: an earlier chat is never older than a later one. */
  lemma {:induction false} MostRecentFirstPairwise(chats: map<ChatId, Chat>, s: seq<ChatId>, i: nat, j: nat)
    requires MostRecentFirst(chats, s) && forall k :: 0 <= k < |s| ==> s[k] in chats
    requires i <= j < |s|
    ensures chats[s[i]].updatedAt >= chats[s[j]].updatedAt
    decreases j - i
  {
    if i < j {
      MostRecentFirstPairwise(chats, s, i + 1, j);
    }
  }

  /** A chat no older than the head of a sorted list may go in front of it. */
  lemma SortedCons(chats: map<ChatId, Chat>, id: ChatId, s: seq<ChatId>)
    requires id in chats && |s| > 0 && s[0] in chats
    requires chats[id].updatedAt >= chats[s[0]].updatedAt && MostRecentFirst(chats, s)
    ensures MostRecentFirst(chats, [id] + s)
  {
    var r := [id] + s;
    forall i | 1 <= i < |r| - 1
      ensures r[i] == s[i - 1] && r[i + 1] == s[i]
    {
    }
  }

  /** One step of the insertion sort: `id` goes before the first chat updated no later than it. */
  function InsertByRecency(chats: map<ChatId, Chat>, id: ChatId, s: seq<ChatId>): (r: seq<ChatId>)
    requires id in chats && forall i :: 0 <= i < |s| ==> s[i] in chats
    ensures multiset(r) == multiset(s) + multiset{id}
    ensures forall i :: 0 <= i < |r| ==> r[i] in chats
  {
    if s == [] then [id]
    else if chats[id].updatedAt >= chats[s[0]].updatedAt then [id] + s
    else
      assert s == [s[0]] + s[1..];
      [s[0]] + InsertByRecency(chats, id, s[1..])
  }

  /** Inserting into a list sorted most recent first keeps it sorted; the head is the new chat or the old head. */
  lemma {:induction false} InsertByRecencySorted(chats: map<ChatId, Chat>, id: ChatId, s: seq<ChatId>)
    requires id in chats && forall i :: 0 <= i < |s| ==> s[i] in chats
    requires MostRecentFirst(chats, s)
    ensures var r := InsertByRecency(chats, id, s);
      r != [] && (r[0] == id || r[0] == s[0]) && MostRecentFirst(chats, r)
  {
    if s != [] && chats[id].updatedAt < chats[s[0]].updatedAt {
      var rest := InsertByRecency(chats, id, s[1..]);
      var tail := s[1..];
      assert MostRecentFirst(chats, tail) by {
        forall j | 1 <= j < |s| - 1
          ensures tail[j - 1] == s[j] && tail[j] == s[j + 1]
        {
        }
      }
      InsertByRecencySorted(chats, id, s[1..]);
      assert chats[s[0]].updatedAt >= chats[rest[0]].updatedAt by {
        if rest[0] != id {
          assert rest[0] == s[1];
        }
      }
      SortedCons(chats, s[0], rest);
    } else if s != [] {
      SortedCons(chats, id, s);
    }
  }

  /** An insertion sort by descending `updatedAt`: a permutation of its input, most recent first. */
  function SortByRecency(chats: map<ChatId, Chat>, s: seq<ChatId>): (r: seq<ChatId>)
    requires forall i :: 0 <= i < |s| ==> s[i] in chats
    ensures multiset(r) == multiset(s)
    ensures forall i :: 0 <= i < |r| ==> r[i] in chats
    ensures MostRecentFirst(chats, r)
  {
    if s == [] then []
    else
      assert s == [s[0]] + s[1..];
      var sorted := SortByRecency(chats, s[1..]);
      InsertByRecencySorted(chats, s[0], sorted);
      InsertByRecency(chats, s[0], sorted)
  }

  /** The ids of the chats getUserChats lists for `caller`. */
  function ListedSet(t: Tables, caller: UserId): set<ChatId>
  {
    set id | id in t.chats && ListedFor(t.chats[id], caller)
  }

  /**
   * The chats getUserChats lists: exactly the active private chats that
   * list the caller, each once, most recently updated first.
   */
  function UserChatIds(t: Tables, caller: UserId): (r: seq<ChatId>)
    requires forall id :: id in t.chats ==> id < t.nextId
    ensures forall id :: id in r <==> id in t.chats && ListedFor(t.chats[id], caller)
    ensures |r| == |ListedSet(t, caller)|
    ensures forall i :: 0 <= i < |r| ==> r[i] in t.chats
    ensures MostRecentFirst(t.chats, r)
  {
    var ids := Matching(t.chats, ListedFilter(caller), t.nextId);
    MatchingExact(t.chats, ListedFilter(caller), t.nextId);
    MatchingCountAll(t.chats, ListedFilter(caller), t.nextId);
    assert MatchingSet(t.chats, ListedFilter(caller)) == ListedSet(t, caller) by {
      forall id ensures (id in t.chats && ListedFilter(caller)(id, t.chats[id]))
                     <==> (id in t.chats && ListedFor(t.chats[id], caller)) {
      }
    }
    var r := SortByRecency(t.chats, ids);
    SameMembers(r, ids);
    r
  }

  function Responses(t: Tables, ids: seq<ChatId>, caller: UserId): (r: seq<ChatListItem>)
    requires forall i :: 0 <= i < |ids| ==> ids[i] in t.chats
    requires forall id :: id in t.messages ==> id < t.nextId
    ensures |r| == |ids| && forall i :: 0 <= i < |ids| ==> r[i] == MapChatToResponse(t, ids[i], caller)
  {
    seq(|ids|, i requires 0 <= i < |ids| => MapChatToResponse(t, ids[i], caller))
  }

  /** getUserChats. The caller id is `None` when it is missing or not a valid ObjectId. */
  function GetUserChats(t: Tables, caller: Option<UserId>): (r: Result<seq<ChatListItem>, Failure>)
    requires forall id :: id in t.chats ==> id < t.nextId
    requires forall id :: id in t.messages ==> id < t.nextId
    ensures caller.None? ==> r == Err(App(UnauthorizedError(NotAuthenticated)))
    ensures caller.Some? ==> r.Ok? && r.value == Responses(t, UserChatIds(t, caller.value), caller.value)
  {
    if caller.None? then Err(App(UnauthorizedError(NotAuthenticated)))
    else Ok(Responses(t, UserChatIds(t, caller.value), caller.value))
  }

  /** The lookup of getChatById and deleteChat: `{ _id, participants: caller, chatType: private, isActive: true }`. */
  predicate ActivePrivateMember(t: Tables, chat: ChatId, caller: UserId)
  {
    chat in t.chats && ListedFor(t.chats[chat], caller)
  }

  function GetChatById(t: Tables, caller: Option<UserId>, chatId: IdInput): (r: Result<ChatListItem, Failure>)
    requires forall id :: id in t.messages ==> id < t.nextId
    ensures caller.None? ==> r == Err(App(UnauthorizedError(NotAuthenticated)))
    ensures caller.Some? && chatId.Uncastable? ==> r == Err(CastFailure("Chat", "_id", chatId.text))
    ensures caller.Some? && chatId.Castable? && !ActivePrivateMember(t, chatId.id, caller.value) ==>
      r == Err(App(NotFoundError("Chat not found")))
    ensures r.Ok? <==> caller.Some? && chatId.Castable? && ActivePrivateMember(t, chatId.id, caller.value)
    ensures r.Ok? ==> r.value == MapChatToResponse(t, chatId.id, caller.value)
  {
    if caller.None? then Err(App(UnauthorizedError(NotAuthenticated)))
    else match CastId(chatId, "Chat", "_id")
      case Err(e) => Err(e)
      case Ok(id) =>
        if !ActivePrivateMember(t, id, caller.value) then Err(App(NotFoundError("Chat not found")))
        else Ok(MapChatToResponse(t, id, caller.value))
  }

  /**
   * The filter of the existing-chat lookup: an active private chat with
   * exactly two participants among which are both users. With `u == p`
   * it matches any active two-party chat of `u`.
   */
  predicate PairChatOf(c: Chat, u: UserId, p: UserId)
  {
    c.chatType == Private && |c.participants| == 2 && u in c.participants && p in c.participants && c.isActive
  }

  function PairFilter(u: UserId, p: UserId): (nat, Chat) -> bool
  {
    (id: nat, c: Chat) => PairChatOf(c, u, p)
  }

  /** `Chat.findOne(...)` in natural order: the oldest matching chat. */
  function FindPrivateChat(t: Tables, u: UserId, p: UserId): (r: Option<ChatId>)
    ensures r.Some? ==> r.value in t.chats && PairChatOf(t.chats[r.value], u, p)
    ensures r.None? ==> forall id :: id in t.chats && id < t.nextId ==> !PairChatOf(t.chats[id], u, p)
  {
    FirstMatching(t.chats, PairFilter(u, p), t.nextId)
  }

  /** The lookup does not depend on the order of the two users. */
  lemma FindPrivateChatSymmetric(t: Tables, u: UserId, p: UserId)
    ensures FindPrivateChat(t, u, p) == FindPrivateChat(t, p, u)
  {
    MatchingAgree(t.chats, PairFilter(u, p), t.chats, PairFilter(p, u), t.nextId);
  }

  /** `Chat.create({ chatType: private, participants: [caller, participant], isActive: true })`. */
  function AddPrivateChat(t: Tables, u: UserId, p: UserId, now: nat): (t': Tables)
    ensures t'.chats == t.chats[t.nextId := NewChat(ChatFields(Some(Private), [u, p], Some(true)), now)]
    ensures t'.nextId == t.nextId + 1 && t'.users == t.users && t'.messages == t.messages
  {
    t.(chats := t.chats[t.nextId := NewChat(ChatFields(Some(Private), [u, p], Some(true)), now)], nextId := t.nextId + 1)
  }

  /** An active pair chat with the same participants as `[u, p]`, as a multiset, is found by the lookup. */
  lemma SameMembersPair(c: Chat, u: UserId, p: UserId)
    ensures ActivePair(c) && multiset(c.participants) == multiset([u, p]) ==> PairChatOf(c, u, p)
  {
    var ps := c.participants;
    assert u in multiset([u, p]) && p in multiset([u, p]);
    assert multiset(ps) == multiset([u, p]) ==> u in multiset(ps) && p in multiset(ps);
  }

  /** Creating only when the lookup found nothing keeps one active chat per pair. */
  lemma AddPrivateChatKeepsValid(t: Tables, u: UserId, p: UserId, now: nat)
    requires ValidTables(t) && FindPrivateChat(t, u, p).None?
    ensures ValidTables(AddPrivateChat(t, u, p, now))
  {
    var t' := AddPrivateChat(t, u, p, now);
    var n := t.nextId;
    forall i, j | i in t'.chats && j in t'.chats && i != j && ActivePair(t'.chats[i]) && ActivePair(t'.chats[j])
      ensures multiset(t'.chats[i].participants) != multiset(t'.chats[j].participants)
    {
      if i == n || j == n {
        var other := if i == n then j else i;
        assert other in t.chats && other < n;
        SameMembersPair(t.chats[other], u, p);
        assert !PairChatOf(t.chats[other], u, p);
      }
    }
  }

  /**
   * After a creation, the same request (with the users in either order)
   * finds the chat just created instead of creating another.
   */
  lemma {:induction false} SecondCreateFindsSameChat(t: Tables, u: UserId, p: UserId, now: nat)
    requires ValidTables(t) && FindPrivateChat(t, u, p).None?
    ensures FindPrivateChat(AddPrivateChat(t, u, p, now), u, p) == Some(t.nextId)
    ensures FindPrivateChat(AddPrivateChat(t, u, p, now), p, u) == Some(t.nextId)
  {
    var t' := AddPrivateChat(t, u, p, now);
    assert PairChatOf(t'.chats[t.nextId], u, p);
    assert forall id :: id in t'.chats && id < t.nextId ==> !PairChatOf(t'.chats[id], u, p);
    FindPrivateChatSymmetric(t', u, p);
  }

  /** The shared outcome of createPrivateChat's guards: the participant id, or the error. */
  function CreatePrivateChatCheck(t: Tables, caller: Option<UserId>, participantId: IdInput): (r: Result<UserId, Failure>)
    ensures caller.None? ==> r == Err(App(UnauthorizedError(NotAuthenticated)))
    ensures caller.Some? && participantId.Uncastable? ==> r == Err(App(BadRequestError("Invalid participant ID")))
    ensures caller.Some? && participantId.Castable? && participantId.id !in t.users ==>
      r == Err(App(NotFoundError("Participant not found")))
    ensures r.Ok? <==> caller.Some? && participantId.Castable? && participantId.id in t.users
    ensures r.Ok? ==> r.value == participantId.id
  {
    if caller.None? then Err(App(UnauthorizedError(NotAuthenticated)))
    else if participantId.Uncastable? then Err(App(BadRequestError("Invalid participant ID")))
    else if participantId.id !in t.users then Err(App(NotFoundError("Participant not found")))
    else Ok(participantId.id)
  }

  /**
   * createPrivateChat: an existing active chat of the pair is returned
   * unchanged; otherwise a new one `[caller, participant]` is created.
   */
  method CreatePrivateChat(db: Database, caller: Option<UserId>, participantId: IdInput, now: nat)
    returns (r: Result<ChatListItem, Failure>)
    requires db.Valid()
    modifies db
    ensures db.Valid()
    ensures var c := CreatePrivateChatCheck(old(db.Snapshot()), caller, participantId);
      && (c.Err? ==> r == Err(c.error) && db.Snapshot() == old(db.Snapshot()))
      && (c.Ok? ==>
            var found := FindPrivateChat(old(db.Snapshot()), caller.value, c.value);
            && (found.Some? ==> db.Snapshot() == old(db.Snapshot()) && r == Ok(MapChatToResponse(db.Snapshot(), found.value, caller.value)))
            && (found.None? ==>
                  db.Snapshot() == AddPrivateChat(old(db.Snapshot()), caller.value, c.value, now)
                  && r == Ok(MapChatToResponse(db.Snapshot(), old(db.nextId), caller.value))))
  {
    var check := CreatePrivateChatCheck(db.Snapshot(), caller, participantId);
    if check.Err? {
      return Err(check.error);
    }
    var u, p := caller.value, check.value;
    var found := FindPrivateChat(db.Snapshot(), u, p);
    if found.Some? {
      return Ok(MapChatToResponse(db.Snapshot(), found.value, u));
    }
    AddPrivateChatKeepsValid(db.Snapshot(), u, p, now);
    var chat := NewChat(ChatFields(Some(Private), [u, p], Some(true)), now);
    var id := db.MintId();
    db.chats := db.chats[id := chat];
    r := Ok(MapChatToResponse(db.Snapshot(), id, u));
  }

  /** `chat.isActive = false; chat.save()`: the chat is kept, inactive, with a new `updatedAt`. */
  function Deactivate(t: Tables, chat: ChatId, now: nat): (t': Tables)
    requires chat in t.chats
    ensures t'.chats == t.chats[chat := t.chats[chat].(isActive := false, updatedAt := now)]
    ensures t'.users == t.users && t'.messages == t.messages && t'.nextId == t.nextId
  {
    t.(chats := t.chats[chat := t.chats[chat].(isActive := false, updatedAt := now)])
  }

  lemma DeactivateKeepsValid(t: Tables, chat: ChatId, now: nat)
    requires ValidTables(t) && chat in t.chats
    ensures ValidTables(Deactivate(t, chat, now))
  {
  }

  /**
   * A deleted chat leaves every listing and lookup: a second delete or a
   * getChatById fails with NotFound, and no user's chat list shows it.
   */
  lemma DeactivatedChatIsGone(t: Tables, chat: ChatId, now: nat, u: UserId)
    requires chat in t.chats && forall id :: id in t.chats ==> id < t.nextId
    ensures !ActivePrivateMember(Deactivate(t, chat, now), chat, u)
    ensures chat !in UserChatIds(Deactivate(t, chat, now), u)
  {
  }

  /** After the pair's only active chat is deleted, createPrivateChat creates a fresh chat. */
  lemma {:induction false} DeleteThenCreateMakesNewChat(t: Tables, chat: ChatId, u: UserId, p: UserId, now: nat)
    requires ValidTables(t) && chat in t.chats && FindPrivateChat(t, u, p) == Some(chat)
    requires forall id :: id in t.chats && id != chat ==> !PairChatOf(t.chats[id], u, p)
    ensures FindPrivateChat(Deactivate(t, chat, now), u, p).None?
  {
    var t' := Deactivate(t, chat, now);
    assert forall id :: id in t'.chats ==> !PairChatOf(t'.chats[id], u, p);
  }

  function DeleteChatCheck(t: Tables, caller: Option<UserId>, chatId: IdInput): (r: Result<ChatId, Failure>)
    ensures caller.None? ==> r == Err(App(UnauthorizedError(NotAuthenticated)))
    ensures caller.Some? && chatId.Uncastable? ==> r == Err(CastFailure("Chat", "_id", chatId.text))
    ensures caller.Some? && chatId.Castable? && !ActivePrivateMember(t, chatId.id, caller.value) ==>
      r == Err(App(NotFoundError("Chat not found")))
    ensures r.Ok? <==> caller.Some? && chatId.Castable? && ActivePrivateMember(t, chatId.id, caller.value)
    ensures r.Ok? ==> r.value == chatId.id
  {
    if caller.None? then Err(App(UnauthorizedError(NotAuthenticated)))
    else match CastId(chatId, "Chat", "_id")
      case Err(e) => Err(e)
      case Ok(id) =>
        if !ActivePrivateMember(t, id, caller.value) then Err(App(NotFoundError("Chat not found")))
        else Ok(id)
  }

  /** deleteChat: a soft delete of an active private chat of the caller. */
  method DeleteChat(db: Database, caller: Option<UserId>, chatId: IdInput, now: nat) returns (r: Result<string, Failure>)
    requires db.Valid()
    modifies db
    ensures db.Valid()
    ensures var c := DeleteChatCheck(old(db.Snapshot()), caller, chatId);
      && (c.Err? ==> r == Err(c.error) && db.Snapshot() == old(db.Snapshot()))
      && (c.Ok? ==> r == Ok("Chat deleted successfully") && db.Snapshot() == Deactivate(old(db.Snapshot()), c.value, now))
  {
    var check := DeleteChatCheck(db.Snapshot(), caller, chatId);
    if check.Err? {
      return Err(check.error);
    }
    DeactivateKeepsValid(db.Snapshot(), check.value, now);
    var chat := db.chats[check.value];
    chat := chat.(isActive := false, updatedAt := now);
    db.chats := db.chats[check.value := chat];
    r := Ok("Chat deleted successfully");
  }
}
