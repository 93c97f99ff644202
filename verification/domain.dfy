/**
 The records and enumerations of the application: the stored documents
 (users, chats, messages, friend requests), the call metadata a call leaves
 behind in the message history, and the reply shape of the HTTP handlers.
 Enumerations carry their wire spelling, with a parser that inverts it.
 */
module Domain {
  import opened Base

  type Id = string

  /** Milliseconds since the epoch (`Date.now()`, `date.getTime()`). */
  type Millis = int

  datatype CallKind = AudioCall | VideoCall

  datatype CallStatus = Missed | Rejected | Completed | Cancelled

  /** What a finished call stores on its history message. */
  datatype CallMetadata = CallMetadata(kind: CallKind, duration: nat, status: CallStatus, isOutgoing: bool)

  datatype MessageType = Text | Image | Video | Audio | Document | File | Location | Call

  datatype MessageStatus = Sent | Delivered | Read

  datatype RequestStatus = RequestPending | RequestAccepted | RequestRejected

  datatype Presence = Online | Offline | ShowsTyping

  function CallKindName(k: CallKind): string
  {
    match k
    case AudioCall => "audio"
    case VideoCall => "video"
  }

  function MessageTypeName(t: MessageType): string
  {
    match t
    case Text => "text"
    case Image => "image"
    case Video => "video"
    case Audio => "audio"
    case Document => "document"
    case File => "file"
    case Location => "location"
    case Call => "call"
  }

  /** The message `type` enumeration: any other string fails schema validation. */
  function ParseMessageType(s: string): (r: Option<MessageType>)
    ensures r.Some? ==> MessageTypeName(r.value) == s
  {
    if s == "text" then Some(Text)
    else if s == "image" then Some(Image)
    else if s == "video" then Some(Video)
    else if s == "audio" then Some(Audio)
    else if s == "document" then Some(Document)
    else if s == "file" then Some(File)
    else if s == "location" then Some(Location)
    else if s == "call" then Some(Call)
    else None
  }

  lemma MessageTypeRoundTrip(t: MessageType)
    ensures ParseMessageType(MessageTypeName(t)) == Some(t)
  {
  }

  function RequestStatusName(s: RequestStatus): string
  {
    match s
    case RequestPending => "pending"
    case RequestAccepted => "accepted"
    case RequestRejected => "rejected"
  }

  /** The friend-request `status` enumeration. */
  function ParseRequestStatus(s: string): (r: Option<RequestStatus>)
    ensures r.Some? ==> RequestStatusName(r.value) == s
  {
    if s == "pending" then Some(RequestPending)
    else if s == "accepted" then Some(RequestAccepted)
    else if s == "rejected" then Some(RequestRejected)
    else None
  }

  lemma RequestStatusRoundTrip(s: RequestStatus)
    ensures ParseRequestStatus(RequestStatusName(s)) == Some(s)
  {
  }

  // ---------------------------------------------------------------------------
  // Stored documents
  // ---------------------------------------------------------------------------

  datatype User = User(
    id: Id, name: string, email: string, password: string, phone: Option<string>,
    avatar: string, bio: string, status: Presence, lastSeen: Millis)

  datatype LastMessage = LastMessage(text: string, senderId: Id, timestamp: Millis, read: bool)

  datatype Mute = Mute(userId: Id, until: Millis)

  datatype TypingEntry = TypingEntry(userId: Id, timestamp: Millis)

  datatype Chat = Chat(
    id: Id,
    participants: seq<Id>,
    lastMessage: Option<LastMessage>,
    unreadCounts: map<Id, int>,
    pinnedBy: seq<Id>,
    mutedBy: seq<Mute>,
    archivedBy: seq<Id>,
    clearedAt: map<Id, Millis>,
    typingUsers: seq<TypingEntry>,
    updatedAt: Millis)

  datatype Reaction = Reaction(userId: Id, emoji: string, createdAt: Millis)

  datatype ReadReceipt = ReadReceipt(userId: Id, readAt: Millis)

  datatype Message = Message(
    id: Id,
    chatId: Id,
    senderId: Id,
    text: string,
    kind: MessageType,
    status: MessageStatus,
    deliveredTo: seq<Id>,
    readBy: seq<ReadReceipt>,
    reactions: seq<Reaction>,
    starredBy: seq<Id>,
    deletedFor: seq<Id>,
    deletedForEveryone: bool,
    edited: bool,
    editedAt: Option<Millis>,
    call: Option<CallMetadata>,
    createdAt: Millis)

  datatype FriendRequest = FriendRequest(id: Id, senderId: Id, receiverId: Id, status: RequestStatus)

  /** The document store, each collection in its natural (insertion) order. */
  datatype Store = Store(users: seq<User>, chats: seq<Chat>, messages: seq<Message>, requests: seq<FriendRequest>)

  /** A handler's answer: a JSON body, or an error status with its message. */
  datatype Reply<T> = Ok(body: T) | Fail(code: nat, error: string)

  /** The store after a handler ran, and its answer. */
  datatype Handled<T> = Handled(st: Store, reply: Reply<T>)

  /** A failed request that leaves the store as it was. */
  function Refuse<T>(st: Store, code: nat, error: string): (h: Handled<T>)
    ensures h.st == st && h.reply == Fail(code, error)
  {
    Handled(st, Fail(code, error))
  }

  /**
   The error text of a request that ends in an exception the handler does not
   catch (a schema validation failure, a property read on `undefined`): the
   framework answers 500 without a JSON error message.
   */
  const Uncaught: string := ""

  /** A chat document as created from a list of participants (schema defaults elsewhere). */
  function NewChat(id: Id, participants: seq<Id>, unread: map<Id, int>, now: Millis): (c: Chat)
    ensures c.id == id && c.participants == participants && c.unreadCounts == unread
    ensures c.lastMessage.None? && c.pinnedBy == [] && c.mutedBy == [] && c.archivedBy == []
    ensures c.typingUsers == [] && c.clearedAt == map[]
  {
    Chat(id, participants, None, unread, [], [], [], map[], [], now)
  }

  /** `User.findOne` by address: the first user with exactly this address. */
  function UserByEmail(st: Store, email: string): (r: Option<User>)
    ensures r.Some? ==> r.value in st.users && r.value.email == email
    ensures r.None? <==> forall u :: u in st.users ==> u.email != email
  {
    Find(st.users, (u: User) => u.email == email)
  }

  /** `Model.findById`: position of the document with that id, if any. */
  function ChatIndex(st: Store, id: Id): (r: Option<nat>)
    ensures r.Some? ==> r.value < |st.chats| && st.chats[r.value].id == id
    ensures r.Some? ==> forall j :: 0 <= j < r.value ==> st.chats[j].id != id
    ensures r.None? ==> forall j :: 0 <= j < |st.chats| ==> st.chats[j].id != id
  {
    FirstIndex(st.chats, (c: Chat) => c.id == id)
  }

  function MessageIndex(st: Store, id: Id): (r: Option<nat>)
    ensures r.Some? ==> r.value < |st.messages| && st.messages[r.value].id == id
    ensures r.Some? ==> forall j :: 0 <= j < r.value ==> st.messages[j].id != id
    ensures r.None? ==> forall j :: 0 <= j < |st.messages| ==> st.messages[j].id != id
  {
    FirstIndex(st.messages, (m: Message) => m.id == id)
  }

  /** The first chat whose participants include both users. */
  function ChatBetween(st: Store, a: Id, b: Id): (r: Option<nat>)
    ensures r.Some? ==>
      r.value < |st.chats| && a in st.chats[r.value].participants && b in st.chats[r.value].participants
    ensures r.Some? ==> forall j :: 0 <= j < r.value ==>
      !(a in st.chats[j].participants && b in st.chats[j].participants)
    ensures r.None? ==> forall j :: 0 <= j < |st.chats| ==>
      !(a in st.chats[j].participants && b in st.chats[j].participants)
  {
    FirstIndex(st.chats, (c: Chat) => a in c.participants && b in c.participants)
  }

  /** Ids already used in a collection, for callers that must mint a fresh one. */
  function ChatIds(st: Store): set<Id>
  {
    set c | c in st.chats :: c.id
  }

  function MessageIds(st: Store): set<Id>
  {
    set m | m in st.messages :: m.id
  }

  function RequestIds(st: Store): set<Id>
  {
    set r | r in st.requests :: r.id
  }
}
