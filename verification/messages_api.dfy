/**
 The message endpoint: listing a chat's messages as one user sees them,
 posting a message (which also updates the chat's preview and the other
 participant's unread count), the per-message actions star, unstar, delete
 and edit, and removal of a message document.
 */
module MessagesApi {
  import opened Base
  import opened Domain
  import Sorting

  /** How long after sending the sender may still delete a message for everyone. */
  const DeleteWindowMs: int := 3600000

  // ---------------------------------------------------------------------------
  // GET: a chat's messages as one user sees them
  // ---------------------------------------------------------------------------

  /** One listed message (attachments, locations and populated references are not modelled). */
  datatype MessageView = MessageView(
    id: Id,
    chatId: Id,
    senderId: Id,
    text: string,
    timestamp: Millis,
    status: MessageStatus,
    kind: MessageType,
    reactions: seq<Reaction>,
    starred: bool,
    edited: bool,
    editedAt: Option<Millis>,
    deletedForEveryone: bool,
    call: Option<CallMetadata>)

  function View(m: Message, userId: Option<Id>): (v: MessageView)
    ensures v.id == m.id && v.chatId == m.chatId && v.timestamp == m.createdAt
    ensures v.starred <==> userId.Some? && userId.value in m.starredBy
  {
    MessageView(m.id, m.chatId, m.senderId, m.text, m.createdAt, m.status, m.kind, m.reactions,
                userId.Some? && userId.value in m.starredBy,
                m.edited, m.editedAt, m.deletedForEveryone, m.call)
  }

  /** When the user last cleared the chat, if the chat exists and they ever did. */
  function ClearedAt(st: Store, chatId: Id, userId: Option<Id>): (r: Option<Millis>)
    ensures r.Some? ==> exists c :: c in st.chats && c.id == chatId && userId.Some?
                                    && userId.value in c.clearedAt && c.clearedAt[userId.value] == r.value
    ensures r.Some? ==> ChatIndex(st, chatId).Some? && userId.Some?
                        && userId.value in st.chats[ChatIndex(st, chatId).value].clearedAt
                        && st.chats[ChatIndex(st, chatId).value].clearedAt[userId.value] == r.value
    ensures r.None? <==> ChatIndex(st, chatId).None? || userId.None?
                         || userId.value !in st.chats[ChatIndex(st, chatId).value].clearedAt
  {
    match ChatIndex(st, chatId)
    case None => None
    case Some(i) =>
      if userId.Some? && userId.value in st.chats[i].clearedAt
      then Some(st.chats[i].clearedAt[userId.value])
      else None
  }

  /** The store's order for this query: creation time, oldest first. */
  predicate Older(a: Message, b: Message)
  {
    a.createdAt <= b.createdAt
  }

  function Get(st: Store, chatId: Option<Id>, userId: Option<Id>): Reply<seq<MessageView>>
  {
    if !Present(chatId) then Fail(400, "ChatId required")
    else
      var cleared := ClearedAt(st, chatId.value, userId);
      var shown := Filter(st.messages, (m: Message) =>
        && m.chatId == chatId.value
        && (Present(userId) ==> userId.value !in m.deletedFor)
        && (cleared.Some? ==> m.createdAt > cleared.value));
      Ok(Map(Sorting.SortBy(shown, Older), (m: Message) => View(m, userId)))
  }

  /**
   The list holds exactly the chat's messages the user has not deleted for
   themselves and that were created after the user last cleared the chat,
   oldest first; `starred` tells whether this user starred the message.
   */
  lemma GetShows(st: Store, chatId: Id, user: Id)
    requires chatId != "" && user != ""
    ensures Get(st, Some(chatId), Some(user)).Ok?
    ensures var r := Get(st, Some(chatId), Some(user)).body;
      var cleared := ClearedAt(st, chatId, Some(user));
      && (forall v :: v in r <==>
            exists m :: && m in st.messages && m.chatId == chatId && user !in m.deletedFor
                        && (cleared.Some? ==> m.createdAt > cleared.value)
                        && v == View(m, Some(user)))
      && (forall i, j :: 0 <= i < j < |r| ==> r[i].timestamp <= r[j].timestamp)
      && (forall v :: v in r ==> v.chatId == chatId && (v.starred <==> exists m :: m in st.messages && m.id == v.id && v == View(m, Some(user)) && user in m.starredBy))
  {
    GetMembers(st, chatId, user);
    GetOrdered(st, chatId, user);
  }

  /** The listed views are exactly those of the kept messages. */
  lemma GetMembers(st: Store, chatId: Id, user: Id)
    requires chatId != "" && user != ""
    ensures Get(st, Some(chatId), Some(user)).Ok?
    ensures var r := Get(st, Some(chatId), Some(user)).body;
      var cleared := ClearedAt(st, chatId, Some(user));
      forall v :: v in r <==>
        exists m :: && m in st.messages && m.chatId == chatId && user !in m.deletedFor
                    && (cleared.Some? ==> m.createdAt > cleared.value)
                    && v == View(m, Some(user))
  {
    var cleared := ClearedAt(st, chatId, Some(user));
    var keep := (m: Message) =>
      && m.chatId == chatId
      && (Present(Some(user)) ==> user !in m.deletedFor)
      && (cleared.Some? ==> m.createdAt > cleared.value);
    var shown := Filter(st.messages, keep);
    var sorted := Sorting.SortBy(shown, Older);
    var f := (m: Message) => View(m, Some(user));
    var r := Map(sorted, f);
    assert Get(st, Some(chatId), Some(user)) == Ok(r);
    forall v
      ensures v in r <==> exists m :: m in shown && v == f(m)
    {
      MapMembers(sorted, f, v);
      forall m ensures m in sorted <==> m in shown {
        Sorting.SortByMembers(shown, Older, m);
      }
    }
  }

  /** The listed views are oldest first, of the chat, and starred for this user only. */
  lemma GetOrdered(st: Store, chatId: Id, user: Id)
    requires chatId != "" && user != ""
    ensures var r := Get(st, Some(chatId), Some(user)).body;
      && (forall i, j :: 0 <= i < j < |r| ==> r[i].timestamp <= r[j].timestamp)
      && (forall v :: v in r ==> v.chatId == chatId && (v.starred <==> exists m :: m in st.messages && m.id == v.id && v == View(m, Some(user)) && user in m.starredBy))
  {
    var cleared := ClearedAt(st, chatId, Some(user));
    var keep := (m: Message) =>
      && m.chatId == chatId
      && (Present(Some(user)) ==> user !in m.deletedFor)
      && (cleared.Some? ==> m.createdAt > cleared.value);
    var shown := Filter(st.messages, keep);
    var sorted := Sorting.SortBy(shown, Older);
    var f := (m: Message) => View(m, Some(user));
    var r := Map(sorted, f);
    assert Get(st, Some(chatId), Some(user)) == Ok(r);
    assert Sorting.TotalPreorder(Older);
    Sorting.SortBySorted(shown, Older);
    forall i, j | 0 <= i < j < |r|
      ensures r[i].timestamp <= r[j].timestamp
    {
      assert Older(sorted[i], sorted[j]);
    }
    forall v | v in r
      ensures v.chatId == chatId
      ensures v.starred <==> exists m :: m in st.messages && m.id == v.id && v == View(m, Some(user)) && user in m.starredBy
    {
      MapMembers(sorted, f, v);
      var m :| m in sorted && v == f(m);
      Sorting.SortByMembers(shown, Older, m);
      assert m in st.messages && m.id == v.id;
    }
  }

  /** A missing chat id is refused. */
  lemma GetNeedsChat(st: Store, userId: Option<Id>)
    ensures Get(st, None, userId) == Fail(400, "ChatId required")
    ensures Get(st, Some(""), userId) == Fail(400, "ChatId required")
  {
  }

  // ---------------------------------------------------------------------------
  // The chat preview of a message
  // ---------------------------------------------------------------------------

  /** The fixed preview of a media message type. */
  function MediaLabel(kind: string): Option<string>
  {
    if kind == "image" then Some("\U{1F4F7} Photo")
    else if kind == "video" then Some("\U{1F3A5} Video")
    else if kind == "audio" then Some("\U{1F3B5} Audio")
    else if kind == "document" then Some("\U{1F4C4} Document")
    else if kind == "file" then Some("\U{1F4CE} File")
    else None
  }

  /** `getLastMessageText`: the media label for a media type, otherwise the text itself. */
  function LastMessageText(kind: string, text: string): string
  {
    match MediaLabel(kind)
    case Some(name) => name
    case None => text
  }

  /** Which media type a preview names, read back from its label. */
  function LabelKind(preview: string): (r: Option<MessageType>)
    ensures r.Some? ==> r.value in {Image, Video, Audio, Document, File}
  {
    if preview == "\U{1F4F7} Photo" then Some(Image)
    else if preview == "\U{1F3A5} Video" then Some(Video)
    else if preview == "\U{1F3B5} Audio" then Some(Audio)
    else if preview == "\U{1F4C4} Document" then Some(Document)
    else if preview == "\U{1F4CE} File" then Some(File)
    else None
  }

  /**
   The preview of a media message names its type, whatever its text; the
   preview of a text, location or call message is its text unchanged.
   */
  lemma PreviewCases(t: MessageType, text: string)
    ensures t in {Image, Video, Audio, Document, File} ==>
      LabelKind(LastMessageText(MessageTypeName(t), text)) == Some(t)
    ensures t in {Text, Location, Call} ==> LastMessageText(MessageTypeName(t), text) == text
  {
  }

  /** The preview of a message whose type is missing (or unknown) is its text. */
  lemma PreviewWithoutType(text: string)
    ensures LastMessageText("", text) == text
  {
  }

  /**
   A preview does not always tell the type back: a text message whose text
   is a media label previews exactly like a media message.
   */
  lemma PreviewAmbiguous(text: string)
    ensures LastMessageText("text", "\U{1F4F7} Photo") == LastMessageText("image", text)
  {
  }

  // ---------------------------------------------------------------------------
  // POST: send a message
  // ---------------------------------------------------------------------------

  datatype PostRequest = PostRequest(
    chatId: Option<Id>, senderId: Option<Id>, text: Option<string>, kind: Option<string>,
    call: Option<CallMetadata>)

  /** The posted type, "text" when missing or empty, validated against the type enumeration. */
  function PostedKind(kind: Option<string>): (r: Option<MessageType>)
    ensures !Present(kind) ==> r == Some(Text)
    ensures Present(kind) ==> r == ParseMessageType(kind.value)
  {
    if Present(kind) then ParseMessageType(kind.value) else Some(Text)
  }

  /** The unread-count key of the first participant other than the sender (`undefined` when none). */
  function ReceiverKey(c: Chat, sender: Id): (k: Id)
    ensures (exists p :: p in c.participants && p != sender) ==> k in c.participants && k != sender
    ensures (forall p :: p in c.participants ==> p == sender) ==> k == "undefined"
  {
    match Find(c.participants, (p: Id) => p != sender)
    case Some(p) => p
    case None => "undefined"
  }

  /** The new message document: defaults for the missing fields, status "sent". */
  function Created(req: PostRequest, kind: MessageType, freshId: Id, now: Millis): (m: Message)
    requires req.chatId.Some? && req.senderId.Some?
  {
    Message(freshId, req.chatId.value, req.senderId.value,
            if req.text.Some? then req.text.value else "",
            kind, Sent, [], [], [], [], [], false, false, None, req.call, now)
  }

  /**
   Validation happens when the document is created: a missing chat or sender
   id or an unknown type ends in an uncaught error with nothing stored. The
   message is stored before its chat is looked up, so an unknown chat leaves
   the message in place and still ends in an uncaught error.
   */
  function Post(st: Store, req: PostRequest, freshId: Id, now: Millis): Handled<Message>
    requires freshId !in MessageIds(st)
  {
    if !Present(req.chatId) || !Present(req.senderId) then Refuse(st, 500, Uncaught)
    else
      match PostedKind(req.kind)
      case None => Refuse(st, 500, Uncaught)
      case Some(kind) =>
        var m := Created(req, kind, freshId, now);
        var st1 := st.(messages := st.messages + [m]);
        match ChatIndex(st, m.chatId)
        case None => Handled(st1, Fail(500, Uncaught))
        case Some(i) =>
          var c := st.chats[i];
          var key := ReceiverKey(c, m.senderId);
          var rawKind := if req.kind.Some? then req.kind.value else "";
          var preview := LastMessage(LastMessageText(rawKind, m.text), m.senderId, now, false);
          var unread := if key in c.unreadCounts then c.unreadCounts[key] else 0;
          var c1 := c.(lastMessage := Some(preview), unreadCounts := c.unreadCounts[key := unread + 1], updatedAt := now);
          Handled(st1.(chats := st.chats[i := c1]), Ok(m))
  }

  /**
   A message posted without a type is a text message; every new message starts
   as "sent", unstarred, undeleted and unedited, created now.
   */
  lemma PostDefaults(st: Store, chatId: Id, sender: Id, text: Option<string>, call: Option<CallMetadata>,
                     freshId: Id, now: Millis)
    requires chatId != "" && sender != "" && freshId !in MessageIds(st)
    requires ChatIndex(st, chatId).Some?
    ensures var h := Post(st, PostRequest(Some(chatId), Some(sender), text, None, call), freshId, now);
      && h.reply.Ok? && h.st.messages == st.messages + [h.reply.body]
      && h.reply.body.id == freshId && h.reply.body.kind == Text && h.reply.body.status == Sent
      && h.reply.body.chatId == chatId && h.reply.body.senderId == sender
      && h.reply.body.text == (if text.Some? then text.value else "")
      && h.reply.body.starredBy == [] && h.reply.body.deletedFor == [] && !h.reply.body.deletedForEveryone
      && !h.reply.body.edited && h.reply.body.createdAt == now
  {
  }

  /**
   A successful post sets the chat's preview to the message's label or text,
   unread, and raises the first other participant's unread count by exactly
   one; no other count and no other chat changes.
   */
  lemma PostBumpsReceiver(st: Store, req: PostRequest, freshId: Id, now: Millis)
    requires freshId !in MessageIds(st)
    requires Present(req.chatId) && Present(req.senderId) && PostedKind(req.kind).Some?
    requires ChatIndex(st, req.chatId.value).Some?
    ensures var i := ChatIndex(st, req.chatId.value).value;
      var c := st.chats[i];
      var h := Post(st, req, freshId, now);
      var c1 := h.st.chats[i];
      var key := ReceiverKey(c, req.senderId.value);
      var rawKind := if req.kind.Some? then req.kind.value else "";
      && h.reply.Ok? && |h.st.chats| == |st.chats|
      && (forall k :: 0 <= k < |st.chats| && k != i ==> h.st.chats[k] == st.chats[k])
      && c1.lastMessage == Some(LastMessage(LastMessageText(rawKind, h.reply.body.text), req.senderId.value, now, false))
      && key in c1.unreadCounts
      && c1.unreadCounts[key] == (if key in c.unreadCounts then c.unreadCounts[key] else 0) + 1
      && (forall u :: u in c.unreadCounts && u != key ==> u in c1.unreadCounts && c1.unreadCounts[u] == c.unreadCounts[u])
      && (forall u :: u in c1.unreadCounts ==> u in c.unreadCounts || u == key)
      && c1.participants == c.participants && c1.pinnedBy == c.pinnedBy && c1.mutedBy == c.mutedBy
  {
  }

  /** The sender's own count never moves when the chat has another participant. */
  lemma PostLeavesSenderCount(st: Store, req: PostRequest, freshId: Id, now: Millis)
    requires freshId !in MessageIds(st)
    requires Present(req.chatId) && Present(req.senderId) && PostedKind(req.kind).Some?
    requires ChatIndex(st, req.chatId.value).Some?
    requires exists p :: p in st.chats[ChatIndex(st, req.chatId.value).value].participants && p != req.senderId.value
    requires req.senderId.value in st.chats[ChatIndex(st, req.chatId.value).value].unreadCounts
    ensures var i := ChatIndex(st, req.chatId.value).value;
      var h := Post(st, req, freshId, now);
      h.st.chats[i].unreadCounts[req.senderId.value] == st.chats[i].unreadCounts[req.senderId.value]
  {
    var i := ChatIndex(st, req.chatId.value).value;
    var c := st.chats[i];
    var p :| p in c.participants && p != req.senderId.value;
    var key := ReceiverKey(c, req.senderId.value);
    assert key in c.participants;
  }

  /** A post that fails validation stores nothing; one for an unknown chat still stores the message. */
  lemma PostFailures(st: Store, req: PostRequest, freshId: Id, now: Millis)
    requires freshId !in MessageIds(st)
    ensures !Present(req.chatId) || !Present(req.senderId) || (Present(req.kind) && ParseMessageType(req.kind.value).None?) ==>
      Post(st, req, freshId, now) == Handled(st, Fail(500, Uncaught))
    ensures Present(req.chatId) && Present(req.senderId) && PostedKind(req.kind).Some? && ChatIndex(st, req.chatId.value).None? ==>
      var h := Post(st, req, freshId, now);
      && h.reply == Fail(500, Uncaught)
      && |h.st.messages| == |st.messages| + 1 && h.st.messages[|st.messages|].id == freshId
      && h.st.chats == st.chats
  {
  }

  /**
   The sender sees a freshly posted message in the chat's listing, unless
   they cleared the chat at that very moment or later.
   */
  lemma PostThenGet(st: Store, req: PostRequest, freshId: Id, now: Millis)
    requires freshId !in MessageIds(st)
    requires Present(req.chatId) && Present(req.senderId) && PostedKind(req.kind).Some?
    requires ChatIndex(st, req.chatId.value).Some?
    requires var c := ClearedAt(st, req.chatId.value, req.senderId); c.None? || c.value < now
    ensures var h := Post(st, req, freshId, now);
      var r := Get(h.st, req.chatId, req.senderId);
      r.Ok? && View(h.reply.body, req.senderId) in r.body
  {
    var chatId := req.chatId.value;
    var user := req.senderId.value;
    var h := Post(st, req, freshId, now);
    var m := h.reply.body;
    var i := ChatIndex(st, chatId).value;
    ChatIndexKept(st, h.st, chatId, i);
    assert ClearedAt(h.st, chatId, req.senderId) == ClearedAt(st, chatId, req.senderId);
    GetShows(h.st, chatId, user);
    assert m in h.st.messages;
  }

  /** The chat update of a post keeps the chat's id and clear times, so lookups by id are unchanged. */
  lemma ChatIndexKept(st: Store, st1: Store, chatId: Id, i: nat)
    requires ChatIndex(st, chatId) == Some(i)
    requires |st1.chats| == |st.chats|
    requires forall k :: 0 <= k < |st.chats| && k != i ==> st1.chats[k] == st.chats[k]
    requires st1.chats[i].id == chatId
    ensures ChatIndex(st1, chatId) == Some(i)
  {
    FirstIndexAgree(st.chats, st1.chats, (c: Chat) => c.id == chatId);
  }

  // ---------------------------------------------------------------------------
  // PUT: star, unstar, delete, edit
  // ---------------------------------------------------------------------------

  datatype MessageAction = Star | Unstar | DeleteMessage | EditText

  function MessageActionName(a: MessageAction): string
  {
    match a
    case Star => "star"
    case Unstar => "unstar"
    case DeleteMessage => "delete"
    case EditText => "edit"
  }

  function ParseMessageAction(s: string): (r: Option<MessageAction>)
    ensures r.Some? ==> MessageActionName(r.value) == s
  {
    if s == "star" then Some(Star)
    else if s == "unstar" then Some(Unstar)
    else if s == "delete" then Some(DeleteMessage)
    else if s == "edit" then Some(EditText)
    else None
  }

  lemma MessageActionRoundTrip(a: MessageAction)
    ensures ParseMessageAction(MessageActionName(a)) == Some(a)
  {
  }

  /** The request's `data` object: the delete scope and the edited text. */
  datatype ActionData = ActionData(forEveryone: bool, text: string)

  datatype ActionRequest = ActionRequest(messageId: Option<Id>, userId: Id, action: string, data: Option<ActionData>)

  function Lookup(st: Store, messageId: Option<Id>): (r: Option<nat>)
    ensures r.Some? ==> r.value < |st.messages| && messageId.Some? && st.messages[r.value].id == messageId.value
    ensures r.Some? ==> forall j :: 0 <= j < r.value ==> st.messages[j].id != messageId.value
    ensures r.None? <==> messageId.None? || forall m :: m in st.messages ==> m.id != messageId.value
  {
    if messageId.Some? then MessageIndex(st, messageId.value) else None
  }

  /** Replace the message at `i` and answer with it. */
  function Save(st: Store, i: nat, m: Message): (h: Handled<Message>)
    requires i < |st.messages|
    ensures h.reply == Ok(m) && h.st.messages == st.messages[i := m]
    ensures h.st.chats == st.chats && h.st.users == st.users && h.st.requests == st.requests
  {
    Handled(st.(messages := st.messages[i := m]), Ok(m))
  }

  function Act(st: Store, req: ActionRequest, now: Millis): Handled<Message>
  {
    match Lookup(st, req.messageId)
    case None => Refuse(st, 404, "Message not found")
    case Some(i) =>
      var m := st.messages[i];
      var user := req.userId;
      match ParseMessageAction(req.action)
      case None => Refuse(st, 400, "Invalid action")
      case Some(Star) => Save(st, i, m.(starredBy := AddIfAbsent(m.starredBy, user)))
      case Some(Unstar) => Save(st, i, m.(starredBy := RemoveAll(m.starredBy, user)))
      case Some(DeleteMessage) =>
        (match req.data
         case None => Refuse(st, 500, Uncaught)
         case Some(d) =>
           if d.forEveryone && m.senderId == user then
             if now - m.createdAt < DeleteWindowMs then Save(st, i, m.(deletedForEveryone := true))
             else Refuse(st, 400, "Can only delete for everyone within 1 hour")
           else Save(st, i, m.(deletedFor := AddIfAbsent(m.deletedFor, user))))
      case Some(EditText) =>
        if m.senderId != user then Save(st, i, m)
        else
          match req.data
          case None => Refuse(st, 500, Uncaught)
          case Some(d) => Save(st, i, m.(text := d.text, edited := true, editedAt := Some(now)))
  }

  /** An unknown message is refused with 404, then an unknown action with 400; neither changes the store. */
  lemma ActRefusals(st: Store, req: ActionRequest, now: Millis)
    ensures Lookup(st, req.messageId).None? ==> Act(st, req, now) == Handled(st, Fail(404, "Message not found"))
    ensures Lookup(st, req.messageId).Some? && ParseMessageAction(req.action).None? ==>
      Act(st, req, now) == Handled(st, Fail(400, "Invalid action"))
  {
  }

  /** Replacing a message by one with the same id keeps every lookup by id. */
  lemma LookupKept(st: Store, i: nat, m: Message, messageId: Option<Id>)
    requires i < |st.messages| && m.id == st.messages[i].id
    ensures Lookup(st.(messages := st.messages[i := m]), messageId) == Lookup(st, messageId)
  {
    if messageId.Some? {
      FirstIndexAgree(st.messages, st.messages[i := m], (x: Message) => x.id == messageId.value);
    }
  }

  /**
   star adds the user once and unstar removes every occurrence of the user;
   nobody else's star changes, and starring twice is starring once.
   */
  lemma StarUnstar(st: Store, messageId: Id, user: Id, data: Option<ActionData>, now: Millis)
    requires Lookup(st, Some(messageId)).Some?
    ensures var i := Lookup(st, Some(messageId)).value;
      var h := Act(st, ActionRequest(Some(messageId), user, "star", data), now);
      && h.reply.Ok? && user in h.reply.body.starredBy && View(h.reply.body, Some(user)).starred
      && (forall u :: u != user ==> (u in h.reply.body.starredBy <==> u in st.messages[i].starredBy))
      && Act(h.st, ActionRequest(Some(messageId), user, "star", data), now) == h
    ensures var i := Lookup(st, Some(messageId)).value;
      var h := Act(st, ActionRequest(Some(messageId), user, "unstar", data), now);
      && h.reply.Ok? && user !in h.reply.body.starredBy && !View(h.reply.body, Some(user)).starred
      && (forall u :: u != user ==> (u in h.reply.body.starredBy <==> u in st.messages[i].starredBy))
  {
    var i := Lookup(st, Some(messageId)).value;
    var m := st.messages[i];
    var h := Act(st, ActionRequest(Some(messageId), user, "star", data), now);
    var m1 := m.(starredBy := AddIfAbsent(m.starredBy, user));
    assert h == Save(st, i, m1);
    LookupKept(st, i, m1, Some(messageId));
    AddIfAbsentIdempotent(m.starredBy, user);
    assert h.st.messages[i := m1] == h.st.messages;
  }

  /**
   The sender deleting for everyone succeeds exactly when the message is less
   than an hour old; an older message is refused with 400 and nothing changes.
   */
  lemma DeleteForEveryoneWindow(st: Store, messageId: Id, user: Id, text: string, now: Millis)
    requires Lookup(st, Some(messageId)).Some?
    requires st.messages[Lookup(st, Some(messageId)).value].senderId == user
    ensures var i := Lookup(st, Some(messageId)).value;
      var m := st.messages[i];
      var h := Act(st, ActionRequest(Some(messageId), user, "delete", Some(ActionData(true, text))), now);
      && (now - m.createdAt < 3600000 ==> h.reply == Ok(m.(deletedForEveryone := true)) && h.st.messages == st.messages[i := m.(deletedForEveryone := true)])
      && (now - m.createdAt >= 3600000 ==> h == Handled(st, Fail(400, "Can only delete for everyone within 1 hour")))
  {
  }

  /**
   Every other delete (not for everyone, or not by the sender) hides the
   message from the requesting user only: the user is added to its
   deletedFor once, and nothing else about it changes.
   */
  lemma DeleteForMe(st: Store, messageId: Id, user: Id, d: ActionData, now: Millis)
    requires Lookup(st, Some(messageId)).Some?
    requires !d.forEveryone || st.messages[Lookup(st, Some(messageId)).value].senderId != user
    ensures var i := Lookup(st, Some(messageId)).value;
      var m := st.messages[i];
      var h := Act(st, ActionRequest(Some(messageId), user, "delete", Some(d)), now);
      && h.reply.Ok? && h.st.messages == st.messages[i := h.reply.body]
      && user in h.reply.body.deletedFor
      && (forall u :: u != user ==> (u in h.reply.body.deletedFor <==> u in m.deletedFor))
      && h.reply.body.(deletedFor := m.deletedFor) == m
  {
  }

  /** Only the sender can edit; anyone else's edit answers with the message unchanged. */
  lemma EditBySenderOnly(st: Store, messageId: Id, user: Id, data: Option<ActionData>, now: Millis)
    requires Lookup(st, Some(messageId)).Some?
    ensures var i := Lookup(st, Some(messageId)).value;
      var m := st.messages[i];
      var h := Act(st, ActionRequest(Some(messageId), user, "edit", data), now);
      && (m.senderId != user ==> h.st == st && h.reply == Ok(m))
      && (m.senderId == user && data.Some? ==>
            && h.reply == Ok(m.(text := data.value.text, edited := true, editedAt := Some(now)))
            && h.st.messages == st.messages[i := h.reply.body])
  {
    var i := Lookup(st, Some(messageId)).value;
    assert st.messages[i := st.messages[i]] == st.messages;
  }

  // ---------------------------------------------------------------------------
  // DELETE: remove a message document
  // ---------------------------------------------------------------------------

  /** `findByIdAndDelete`: the first message with the id is removed, if any; the answer is always success. */
  function Remove(st: Store, messageId: Option<Id>): Handled<bool>
  {
    match Lookup(st, messageId)
    case None => Handled(st, Ok(true))
    case Some(i) => Handled(st.(messages := st.messages[..i] + st.messages[i + 1..]), Ok(true))
  }

  /** Removal deletes exactly one document when the id is known, and none otherwise. */
  lemma RemoveOne(st: Store, messageId: Option<Id>)
    ensures var h := Remove(st, messageId);
      && h.reply == Ok(true) && h.st.chats == st.chats
      && (Lookup(st, messageId).None? ==> h.st == st)
      && (Lookup(st, messageId).Some? ==>
            && |h.st.messages| == |st.messages| - 1
            && multiset(h.st.messages) + multiset{st.messages[Lookup(st, messageId).value]} == multiset(st.messages))
  {
    match Lookup(st, messageId)
    case None =>
    case Some(i) =>
      assert st.messages == st.messages[..i] + [st.messages[i]] + st.messages[i + 1..];
  }
}
