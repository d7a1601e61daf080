/**
 * backend/src/api/models/messageModel.ts: the MessageType and
 * MessageStatus enums and the Message record with the schema's required
 * fields, enum checks and defaults.
 */
module MessageModel {
  import opened Wrappers
  import opened ErrorTypes
  import opened ObjectIds
  import opened Collections

  datatype MessageType = Text | Image | Voice | Video | Document | Location

  function MessageTypeName(t: MessageType): string
  {
    match t
    case Text => "text"
    case Image => "image"
    case Voice => "voice"
    case Video => "video"
    case Document => "document"
    case Location => "location"
  }

  /** The schema's enum check on `messageType`. */
  function ParseMessageType(s: string): (r: Option<MessageType>)
    ensures r.Some? ==> MessageTypeName(r.value) == s
    ensures r.None? ==> forall t: MessageType :: MessageTypeName(t) != s
  {
    if s == "text" then Some(Text)
    else if s == "image" then Some(Image)
    else if s == "voice" then Some(Voice)
    else if s == "video" then Some(Video)
    else if s == "document" then Some(Document)
    else if s == "location" then Some(Location)
    else None
  }

  /** Exactly six message types, each with its own name, and the names parse back. */
  lemma MessageTypesAreSix()
    ensures |set t: MessageType :: MessageTypeName(t)| == 6
    ensures forall t: MessageType :: ParseMessageType(MessageTypeName(t)) == Some(t)
  {
    var names := set t: MessageType :: MessageTypeName(t);
    assert names == {"text", "image", "voice", "video", "document", "location"} by {
      forall s | s in names ensures s in {"text", "image", "voice", "video", "document", "location"} {
        var t :| MessageTypeName(t) == s;
      }
      assert MessageTypeName(Text) in names && MessageTypeName(Image) in names && MessageTypeName(Voice) in names;
      assert MessageTypeName(Video) in names && MessageTypeName(Document) in names && MessageTypeName(Location) in names;
    }
    NamesAreSix();
    forall t: MessageType ensures ParseMessageType(MessageTypeName(t)) == Some(t) {
      NameParsesBack(t);
    }
  }

  lemma NameParsesBack(t: MessageType)
    ensures ParseMessageType(MessageTypeName(t)) == Some(t)
  {
    match t
    case Text =>
    case Image =>
    case Voice => assert "voice"[0] != "image"[0];
    case Video => assert "video"[2] != "voice"[2] && "video"[0] != "image"[0];
    case Document =>
    case Location => assert "location"[0] != "document"[0];
  }

  lemma NamesAreSix()
    ensures |{"text", "image", "voice", "video", "document", "location"}| == 6
  {
    var s: set<string> := {"text"};
    assert "image"[0] != "text"[0];
    s := s + {"image"};
    assert "voice"[0] !in {"text"[0], "image"[0]};
    s := s + {"voice"};
    assert "video"[2] !in {"text"[2], "image"[2], "voice"[2]};
    s := s + {"video"};
    assert "document"[0] !in {"text"[0], "image"[0], "voice"[0], "video"[0]};
    s := s + {"document"};
    assert "location"[0] !in {"text"[0], "image"[0], "voice"[0], "video"[0], "document"[0]};
    s := s + {"location"};
  }

  datatype MessageStatus = Sent | Delivered | Read

  function StatusName(s: MessageStatus): string
  {
    match s
    case Sent => "sent"
    case Delivered => "delivered"
    case Read => "read"
  }

  function ParseStatus(s: string): (r: Option<MessageStatus>)
    ensures r.Some? ==> StatusName(r.value) == s
    ensures r.None? ==> forall st: MessageStatus :: StatusName(st) != s
  {
    if s == "sent" then Some(Sent)
    else if s == "delivered" then Some(Delivered)
    else if s == "read" then Some(Read)
    else None
  }

  /** Exactly three statuses, each with its own name, and the names parse back. */
  lemma StatusesAreThree()
    ensures |set st: MessageStatus :: StatusName(st)| == 3
    ensures forall st: MessageStatus :: ParseStatus(StatusName(st)) == Some(st)
  {
    var names := set st: MessageStatus :: StatusName(st);
    assert names == {"sent", "delivered", "read"} by {
      forall s | s in names ensures s in {"sent", "delivered", "read"} {
        var st :| StatusName(st) == s;
      }
      assert StatusName(Sent) in names && StatusName(Delivered) in names && StatusName(Read) in names;
    }
  }

  /** The intended order sent < delivered < read, used to state (non-)monotonicity. */
  function Rank(s: MessageStatus): nat
  {
    match s
    case Sent => 0
    case Delivered => 1
    case Read => 2
  }

  /**
   * A stored message. `createdAt` is the creation counter (equal to the
   * message's id); `updatedAt` is the time of the last write.
   */
  datatype Message = Message(
    chat: ChatId,
    sender: UserId,
    content: string,
    messageType: MessageType,
    mediaUrl: Option<string>,
    status: MessageStatus,
    readBy: seq<UserId>,
    deletedFor: seq<UserId>,
    createdAt: nat,
    updatedAt: nat)

  /** A message whose id lists hold no duplicates, as `$addToSet` and the guarded pushes keep them. */
  predicate WellFormed(m: Message)
  {
    NoDups(m.readBy) && NoDups(m.deletedFor)
  }

  /**
   * The fields handed to `new Message({...})`. `messageType`, `status` and
   * `deletedFor` are optional: the schema supplies their defaults.
   */
  datatype MessageFields = MessageFields(
    chat: ChatId,
    sender: UserId,
    content: string,
    messageType: Option<string>,
    mediaUrl: Option<string>,
    status: Option<MessageStatus>,
    readBy: seq<UserId>,
    deletedFor: Option<seq<UserId>>)

  const ContentRequired: string := "Path `content` is required."

  function EnumMessage(value: string): string
  {
    "`" + value + "` is not a valid enum value for path `messageType`."
  }

  /** The schema validators' messages, in path order; empty when the document is valid. */
  function ValidationErrors(f: MessageFields): (errs: seq<string>)
    ensures errs == [] <==> f.content != "" && (f.messageType.None? || ParseMessageType(f.messageType.value).Some?)
  {
    (if f.content == "" then [ContentRequired] else [])
    + (if f.messageType.Some? && ParseMessageType(f.messageType.value).None? then [EnumMessage(f.messageType.value)] else [])
  }

  /**
   * Building and validating a message document as `save()` does: a missing
   * or empty `content` or an unknown `messageType` fails validation;
   * otherwise `messageType` defaults to text, `status` to sent and
   * `deletedFor` to the empty list.
   */
  function Instantiate(f: MessageFields, id: MsgId, now: nat): (r: Result<Message, Failure>)
    ensures r.Ok? <==> f.content != "" && (f.messageType.None? || ParseMessageType(f.messageType.value).Some?)
    ensures r.Err? ==> r.error == ValidationFailure("Message", ValidationErrors(f)) && ValidationErrors(f) != []
    ensures r.Ok? ==>
      && r.value.chat == f.chat && r.value.sender == f.sender
      && r.value.content == f.content && r.value.mediaUrl == f.mediaUrl
      && r.value.readBy == f.readBy
      && r.value.createdAt == id && r.value.updatedAt == now
    ensures r.Ok? ==> r.value.messageType == (if f.messageType.None? then Text else ParseMessageType(f.messageType.value).value)
    ensures r.Ok? ==> r.value.status == (if f.status.None? then Sent else f.status.value)
    ensures r.Ok? ==> r.value.deletedFor == (if f.deletedFor.None? then [] else f.deletedFor.value)
  {
    var errs := ValidationErrors(f);
    if errs != [] then Err(ValidationFailure("Message", errs))
    else
      Ok(Message(
        f.chat, f.sender, f.content,
        if f.messageType.None? then Text else ParseMessageType(f.messageType.value).value,
        f.mediaUrl,
        f.status.GetOr(Sent),
        f.readBy,
        f.deletedFor.GetOr([]),
        id, now))
  }
}
