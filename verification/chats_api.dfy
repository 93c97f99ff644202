/**
 The chat list endpoint and the chat actions endpoint, and the endpoint that
 finds or creates the chat of a pair of users. Chat documents live in the
 store in insertion order; a participant whose user document is missing is
 dropped when the chat's participants are resolved, as the document mapper
 does when it fills in references.
 */
module ChatsApi {
  import opened Base
  import opened Domain
  import Sorting

  /** Accounts whose chat is always shown as pinned. */
  const AiEmails: set<string> := {"ai@whatsapp.clone", "ai@assistant.com"}

  const DefaultMuteHours: int := 8
  const HourMs: int := 3600000

  // ---------------------------------------------------------------------------
  // GET: the user's chat list
  // ---------------------------------------------------------------------------

  /** One row of the chat list as the endpoint formats it. */
  datatype ChatSummary = ChatSummary(
    id: Id,
    participant: User,
    status: Presence,
    lastMessage: Option<LastMessage>,
    unreadCount: int,
    pinned: bool,
    mutedUntil: Option<Millis>,
    typingUsers: seq<Id>)

  /** Chats the user takes part in and has not archived. */
  function Visible(st: Store, user: Id): (r: seq<Chat>)
    ensures forall c :: c in r <==> c in st.chats && user in c.participants && user !in c.archivedBy
  {
    Filter(st.chats, (c: Chat) => user in c.participants && user !in c.archivedBy)
  }

  /** The chat's participants resolved to user documents, in order; unknown ids are dropped. */
  function Resolve(st: Store, ids: seq<Id>): (r: seq<User>)
    ensures forall u :: u in r ==> u in st.users && u.id in ids
    decreases |ids|
  {
    if |ids| == 0 then []
    else
      var rest := Resolve(st, ids[1..]);
      match Find(st.users, (u: User) => u.id == ids[0])
      case Some(u) => [u] + rest
      case None => rest
  }

  /** The first resolved participant who is not the user. */
  function OtherParticipant(st: Store, c: Chat, user: Id): (r: Option<User>)
    ensures r.Some? ==> r.value.id != user && r.value in st.users && r.value.id in c.participants
    ensures var rs := Resolve(st, c.participants);
      r.None? <==> forall u :: u in rs ==> u.id == user
    ensures var rs := Resolve(st, c.participants);
      r.Some? ==> exists k :: 0 <= k < |rs| && rs[k] == r.value && forall j :: 0 <= j < k ==> rs[j].id == user
  {
    var rs := Resolve(st, c.participants);
    match FirstIndex(rs, (u: User) => u.id != user)
    case None => None
    case Some(k) => Some(rs[k])
  }

  /** The user's mute entry: the first one that names the user. */
  function MuteOf(c: Chat, user: Id): (r: Option<Millis>)
    ensures r.Some? <==> exists k :: 0 <= k < |c.mutedBy| && c.mutedBy[k].userId == user
    ensures r.Some? ==> exists k :: 0 <= k < |c.mutedBy| && c.mutedBy[k].userId == user && c.mutedBy[k].until == r.value
                          && forall j :: 0 <= j < k ==> c.mutedBy[j].userId != user
  {
    match Find(c.mutedBy, (m: Mute) => m.userId == user)
    case Some(m) => Some(m.until)
    case None => None
  }

  /** Ids of the users typing in the chat, the user excluded, in entry order. */
  function OthersTyping(c: Chat, user: Id): (r: seq<Id>)
    ensures forall u :: u in r <==> u != user && exists t :: t in c.typingUsers && t.userId == u
  {
    var entries := Filter(c.typingUsers, (t: TypingEntry) => t.userId != user);
    var r := Map(entries, (t: TypingEntry) => t.userId);
    forall u
      ensures u in r <==> u != user && exists t :: t in c.typingUsers && t.userId == u
    {
      MapMembers(entries, (t: TypingEntry) => t.userId, u);
    }
    r
  }

  /**
   One chat formatted for the user, or None when it has no other (resolved)
   participant. Shown as typing when anyone else is typing; pinned when the
   user pinned it or the peer is an assistant account; the mute end only
   while it lies in the future; unread count 0 when the user has none.
   */
  function Summarize(st: Store, c: Chat, user: Id, now: Millis): (r: Option<ChatSummary>)
    ensures r.None? <==> OtherParticipant(st, c, user).None?
    ensures r.Some? ==>
      var s := r.value;
      && s.id == c.id && Some(s.participant) == OtherParticipant(st, c, user)
      && s.lastMessage == c.lastMessage
      && (s.pinned <==> user in c.pinnedBy || s.participant.email in AiEmails)
      && (s.mutedUntil.Some? <==> MuteOf(c, user).Some? && MuteOf(c, user).value > now)
      && (s.mutedUntil.Some? ==> s.mutedUntil == MuteOf(c, user))
      && s.typingUsers == OthersTyping(c, user)
      && (|s.typingUsers| > 0 ==> s.status == ShowsTyping)
      && (|s.typingUsers| == 0 ==> s.status == s.participant.status)
      && s.unreadCount == (if user in c.unreadCounts then c.unreadCounts[user] else 0)
  {
    match OtherParticipant(st, c, user)
    case None => None
    case Some(p) =>
      var typing := OthersTyping(c, user);
      var muted := MuteOf(c, user);
      Some(ChatSummary(
        c.id, p,
        if |typing| > 0 then ShowsTyping else p.status,
        c.lastMessage,
        if user in c.unreadCounts && c.unreadCounts[user] != 0 then c.unreadCounts[user] else 0,
        user in c.pinnedBy || p.email in AiEmails,
        if muted.Some? && muted.value > now then muted else None,
        typing))
  }

  function Summaries(st: Store, chats: seq<Chat>, user: Id, now: Millis): (r: seq<ChatSummary>)
    ensures forall s :: s in r <==> exists c :: c in chats && Summarize(st, c, user, now) == Some(s)
    decreases |chats|
  {
    if |chats| == 0 then []
    else
      var rest := Summaries(st, chats[1..], user, now);
      assert forall c :: c in chats <==> c == chats[0] || c in chats[1..];
      match Summarize(st, chats[0], user, now)
      case Some(s) => [s] + rest
      case None => rest
  }

  /** The store's order: most recently updated first. */
  function UpdatedLater(a: Chat, b: Chat): bool
  {
    a.updatedAt >= b.updatedAt
  }

  /** A chat's last activity, 0 when it has no last message. */
  function ActivityOf(s: ChatSummary): Millis
  {
    if s.lastMessage.Some? then s.lastMessage.value.timestamp else 0
  }

  /** The list comparator: pinned first, then by last activity, newest first. */
  function ChatOrder(a: ChatSummary, b: ChatSummary): bool
  {
    (a.pinned && !b.pinned) || (a.pinned == b.pinned && ActivityOf(a) >= ActivityOf(b))
  }

  lemma Preorders()
    ensures Sorting.TotalPreorder(UpdatedLater)
    ensures Sorting.TotalPreorder(ChatOrder)
  {
  }

  function Get(st: Store, userId: Option<Id>, now: Millis): Reply<seq<ChatSummary>>
  {
    if !Present(userId) then Fail(400, "UserId required")
    else
      var byUpdate := Sorting.SortBy(Visible(st, userId.value), UpdatedLater);
      Ok(Sorting.SortBy(Summaries(st, byUpdate, userId.value, now), ChatOrder))
  }

  /**
   The chat list holds exactly the formatted visible chats that have another
   participant, pinned ones first and each group by last activity, newest
   first.
   */
  lemma GetLists(st: Store, user: Id, now: Millis)
    requires user != ""
    ensures Get(st, Some(user), now).Ok?
    ensures var r := Get(st, Some(user), now).body;
      && (forall s :: s in r <==>
            exists c :: c in st.chats && user in c.participants && user !in c.archivedBy
                        && Summarize(st, c, user, now) == Some(s))
      && (forall i, j :: 0 <= i < j < |r| && r[j].pinned ==> r[i].pinned)
      && (forall i, j :: 0 <= i < j < |r| && r[i].pinned == r[j].pinned ==> ActivityOf(r[i]) >= ActivityOf(r[j]))
  {
    var byUpdate := Sorting.SortBy(Visible(st, user), UpdatedLater);
    var sums := Summaries(st, byUpdate, user, now);
    var r := Sorting.SortBy(sums, ChatOrder);
    Preorders();
    Sorting.SortBySorted(sums, ChatOrder);
    forall s
      ensures s in r <==> s in sums
    {
      Sorting.SortByMembers(sums, ChatOrder, s);
    }
    forall c
      ensures c in byUpdate <==> c in Visible(st, user)
    {
      Sorting.SortByMembers(Visible(st, user), UpdatedLater, c);
    }
  }

  /** A missing user id is refused. */
  lemma GetNeedsUser(st: Store, now: Millis)
    ensures Get(st, None, now) == Fail(400, "UserId required")
    ensures Get(st, Some(""), now) == Fail(400, "UserId required")
  {
  }

  // ---------------------------------------------------------------------------
  // PUT: chat actions
  // ---------------------------------------------------------------------------

  datatype Action = Pin | Unpin | MuteFor | Unmute | Archive | Unarchive | Clear | MarkAsRead | DeleteChat

  function ActionName(a: Action): string
  {
    match a
    case Pin => "pin"
    case Unpin => "unpin"
    case MuteFor => "mute"
    case Unmute => "unmute"
    case Archive => "archive"
    case Unarchive => "unarchive"
    case Clear => "clear"
    case MarkAsRead => "markAsRead"
    case DeleteChat => "delete"
  }

  function ParseAction(s: string): (r: Option<Action>)
    ensures r.Some? ==> ActionName(r.value) == s
  {
    if s == "pin" then Some(Pin)
    else if s == "unpin" then Some(Unpin)
    else if s == "mute" then Some(MuteFor)
    else if s == "unmute" then Some(Unmute)
    else if s == "archive" then Some(Archive)
    else if s == "unarchive" then Some(Unarchive)
    else if s == "clear" then Some(Clear)
    else if s == "markAsRead" then Some(MarkAsRead)
    else if s == "delete" then Some(DeleteChat)
    else None
  }

  lemma ActionRoundTrip(a: Action)
    ensures ParseAction(ActionName(a)) == Some(a)
  {
  }

  datatype PutRequest = PutRequest(chatId: Option<Id>, userId: Option<Id>, action: Option<string>, hours: Option<int>)

  datatype PutBody = Saved(chat: Chat) | Deleted

  /** `data?.hours || 8`: a missing or zero number of hours means 8. */
  function MuteHours(hours: Option<int>): (h: int)
    ensures hours.Some? && hours.value != 0 ==> h == hours.value
    ensures hours.None? || hours.value == 0 ==> h == DefaultMuteHours
  {
    if hours.Some? && hours.value != 0 then hours.value else DefaultMuteHours
  }

  function WithoutMute(mutes: seq<Mute>, user: Id): (r: seq<Mute>)
    ensures forall m :: m in r <==> m in mutes && m.userId != user
  {
    Filter(mutes, (m: Mute) => m.userId != user)
  }

  /** The change an action makes to the chat document itself. */
  function ApplyAction(c: Chat, user: Id, a: Action, hours: Option<int>, now: Millis): Chat
  {
    match a
    case Pin => c.(pinnedBy := AddIfAbsent(c.pinnedBy, user))
    case Unpin => c.(pinnedBy := RemoveAll(c.pinnedBy, user))
    case MuteFor => c.(mutedBy := WithoutMute(c.mutedBy, user) + [Mute(user, now + MuteHours(hours) * HourMs)])
    case Unmute => c.(mutedBy := WithoutMute(c.mutedBy, user))
    case Archive => c.(archivedBy := AddIfAbsent(c.archivedBy, user))
    case Unarchive => c.(archivedBy := RemoveAll(c.archivedBy, user))
    case Clear => c.(clearedAt := c.clearedAt[user := now])
    case MarkAsRead => c.(unreadCounts := c.unreadCounts[user := 0])
    case DeleteChat => c
  }

  /**
   Saving a chat document of the timestamped schema: the update time moves
   to now when the action changed the document, and an unchanged document is
   not written at all.
   */
  function SaveChat(before: Chat, after: Chat, now: Millis): (r: Chat)
    ensures after == before ==> r == before
    ensures after != before ==> r == after.(updatedAt := now)
  {
    if after == before then before else after.(updatedAt := now)
  }

  /** `markAsRead`'s bulk update: others' unread messages of the chat become read by the user. */
  function MarkMessagesRead(msgs: seq<Message>, chatId: Id, user: Id, now: Millis): (r: seq<Message>)
    ensures |r| == |msgs|
    ensures forall k :: 0 <= k < |msgs| ==>
      if msgs[k].chatId == chatId && msgs[k].senderId != user && msgs[k].status != Read
      then r[k] == msgs[k].(status := Read, readBy := msgs[k].readBy + [ReadReceipt(user, now)])
      else r[k] == msgs[k]
  {
    Map(msgs, (m: Message) =>
      if m.chatId == chatId && m.senderId != user && m.status != Read
      then m.(status := Read, readBy := m.readBy + [ReadReceipt(user, now)])
      else m)
  }

  function Put(st: Store, req: PutRequest, now: Millis): Handled<PutBody>
  {
    if !Present(req.chatId) || !Present(req.userId) || !Present(req.action) then
      Refuse(st, 400, "Missing required fields")
    else
      var chatId := req.chatId.value;
      var user := req.userId.value;
      match ChatIndex(st, chatId)
      case None => Refuse(st, 404, "Chat not found")
      case Some(i) =>
        match ParseAction(req.action.value)
        case None => Refuse(st, 400, "Invalid action")
        case Some(DeleteChat) =>
          Handled(st.(messages := Filter(st.messages, (m: Message) => m.chatId != chatId),
                      chats := Filter(st.chats, (c: Chat) => c.id != chatId)),
                  Ok(Deleted))
        case Some(a) =>
          var c := SaveChat(st.chats[i], ApplyAction(st.chats[i], user, a, req.hours, now), now);
          var msgs := if a == MarkAsRead then MarkMessagesRead(st.messages, chatId, user, now) else st.messages;
          Handled(st.(chats := st.chats[i := c], messages := msgs), Ok(Saved(c)))
  }

  /** A request whose fields are all present. */
  function Request(chatId: Id, user: Id, action: string, hours: Option<int>): PutRequest
  {
    PutRequest(Some(chatId), Some(user), Some(action), hours)
  }

  /**
   Validation comes first and changes nothing: a missing field is refused
   with 400, then an unknown chat with 404, then an unknown action with 400.
   */
  lemma PutRefusals(st: Store, req: PutRequest, now: Millis)
    ensures !Present(req.chatId) || !Present(req.userId) || !Present(req.action) ==>
      Put(st, req, now) == Handled(st, Fail(400, "Missing required fields"))
    ensures Present(req.chatId) && Present(req.userId) && Present(req.action) && ChatIndex(st, req.chatId.value).None? ==>
      Put(st, req, now) == Handled(st, Fail(404, "Chat not found"))
    ensures Present(req.chatId) && Present(req.userId) && Present(req.action) && ChatIndex(st, req.chatId.value).Some?
            && ParseAction(req.action.value).None? ==>
      Put(st, req, now) == Handled(st, Fail(400, "Invalid action"))
  {
  }

  /**
   Every action other than delete changes only the addressed chat (and, for
   markAsRead, messages of that chat) and answers with the saved chat.
   */
  lemma PutTouchesOneChat(st: Store, chatId: Id, user: Id, a: Action, hours: Option<int>, now: Millis)
    requires chatId != "" && user != "" && a != DeleteChat
    requires ChatIndex(st, chatId).Some?
    ensures var i := ChatIndex(st, chatId).value;
      var h := Put(st, Request(chatId, user, ActionName(a), hours), now);
      && h.reply == Ok(Saved(h.st.chats[i]))
      && |h.st.chats| == |st.chats| && h.st.chats[i].id == chatId
      && (forall k :: 0 <= k < |st.chats| && k != i ==> h.st.chats[k] == st.chats[k])
      && h.st.users == st.users && h.st.requests == st.requests
      && |h.st.messages| == |st.messages|
      && (forall k :: 0 <= k < |st.messages| && st.messages[k].chatId != chatId ==> h.st.messages[k] == st.messages[k])
      && (a != MarkAsRead ==> h.st.messages == st.messages)
  {
    ActionRoundTrip(a);
  }

  /**
   The chat an action other than delete stores in place of the addressed one:
   the action's change, stamped as updated now when it changed anything.
   */
  lemma PutSaves(st: Store, chatId: Id, user: Id, a: Action, hours: Option<int>, now: Millis)
    requires chatId != "" && user != "" && a != DeleteChat
    requires ChatIndex(st, chatId).Some?
    ensures var i := ChatIndex(st, chatId).value;
      var after := ApplyAction(st.chats[i], user, a, hours, now);
      var h := Put(st, Request(chatId, user, ActionName(a), hours), now);
      && h.st.chats == st.chats[i := h.st.chats[i]]
      && (after == st.chats[i] ==> h.st.chats[i] == st.chats[i])
      && (after != st.chats[i] ==> h.st.chats[i] == after.(updatedAt := now))
  {
    ActionRoundTrip(a);
  }

  /**
   Pinning a chat that is already pinned writes nothing, so its update time
   and therefore its place in the list's first ordering stay as they were;
   a first pin moves the update time to now.
   */
  lemma PinStampsOnce(st: Store, chatId: Id, user: Id, t1: Millis, t2: Millis)
    requires chatId != "" && user != "" && ChatIndex(st, chatId).Some?
    ensures var i := ChatIndex(st, chatId).value;
      var h1 := Put(st, Request(chatId, user, "pin", None), t1);
      var h2 := Put(h1.st, Request(chatId, user, "pin", None), t2);
      && (user !in st.chats[i].pinnedBy ==> h1.st.chats[i].updatedAt == t1)
      && (user in st.chats[i].pinnedBy ==> h1.st == st)
      && h2.st == h1.st
  {
    var i := ChatIndex(st, chatId).value;
    PutSaves(st, chatId, user, Pin, None, t1);
    PinArchiveIdempotent(st.chats[i], user, None, t1);
    var h1 := Put(st, Request(chatId, user, "pin", None), t1);
    assert |h1.st.chats| == |st.chats|;
    ChatIndexAfterSave(st, h1.st, chatId);
    PutSaves(h1.st, chatId, user, Pin, None, t2);
    PinArchiveIdempotent(h1.st.chats[i], user, None, t2);
  }

  /** Rewriting chats in place, keeping their ids, keeps where a chat is found. */
  lemma ChatIndexAfterSave(st: Store, st2: Store, chatId: Id)
    requires |st2.chats| == |st.chats|
    requires forall k :: 0 <= k < |st.chats| ==> st2.chats[k].id == st.chats[k].id
    ensures ChatIndex(st2, chatId) == ChatIndex(st, chatId)
  {
    var r1 := ChatIndex(st, chatId);
    var r2 := ChatIndex(st2, chatId);
    if r2.Some? {
      assert st.chats[r2.value].id == chatId;
    }
    if r1.Some? {
      assert st2.chats[r1.value].id == chatId;
    }
  }

  /** pin and archive add the user once; repeating them changes nothing. */
  lemma PinArchiveIdempotent(c: Chat, user: Id, hours: Option<int>, now: Millis)
    ensures var p := ApplyAction(c, user, Pin, hours, now);
      && user in p.pinnedBy && (user in c.pinnedBy ==> p == c)
      && ApplyAction(p, user, Pin, hours, now) == p
    ensures var a := ApplyAction(c, user, Archive, hours, now);
      && user in a.archivedBy && (user in c.archivedBy ==> a == c)
      && ApplyAction(a, user, Archive, hours, now) == a
  {
    AddIfAbsentIdempotent(c.pinnedBy, user);
    AddIfAbsentIdempotent(c.archivedBy, user);
  }

  /** unpin and unarchive remove every occurrence of the user and no one else. */
  lemma UnpinUnarchiveRemove(c: Chat, user: Id, hours: Option<int>, now: Millis)
    ensures var p := ApplyAction(c, user, Unpin, hours, now).pinnedBy;
      user !in p && forall u :: u != user ==> (u in p <==> u in c.pinnedBy)
    ensures var a := ApplyAction(c, user, Unarchive, hours, now).archivedBy;
      user !in a && forall u :: u != user ==> (u in a <==> u in c.archivedBy)
  {
  }

  /**
   Muting leaves exactly one entry for the user, last, ending `hours` hours
   (8 when not given) from now; other users' entries keep their order.
   Unmuting removes the user's entries and keeps the rest.
   */
  lemma MuteReplaces(c: Chat, user: Id, hours: Option<int>, now: Millis)
    ensures var m := ApplyAction(c, user, MuteFor, hours, now).mutedBy;
      && |m| >= 1 && m[|m| - 1] == Mute(user, now + MuteHours(hours) * 3600000)
      && (forall k :: 0 <= k < |m| - 1 ==> m[k].userId != user)
      && m[..|m| - 1] == WithoutMute(c.mutedBy, user)
      && MuteOf(ApplyAction(c, user, MuteFor, hours, now), user) == Some(now + MuteHours(hours) * 3600000)
    ensures var u := ApplyAction(c, user, Unmute, hours, now);
      && MuteOf(u, user).None?
      && (forall e :: e in u.mutedBy <==> e in c.mutedBy && e.userId != user)
  {
    var rest := WithoutMute(c.mutedBy, user);
    OthersMutes(c.mutedBy, user);
    var x := now + MuteHours(hours) * HourMs;
    MuteAppended(rest, user, x);
    assert ApplyAction(c, user, MuteFor, hours, now).mutedBy == rest + [Mute(user, x)];
    assert ApplyAction(c, user, Unmute, hours, now).mutedBy == rest;
  }

  /** An entry appended after others' entries is the user's first. */
  lemma MuteAppended(rest: seq<Mute>, user: Id, x: Millis)
    requires forall k :: 0 <= k < |rest| ==> rest[k].userId != user
    ensures Find(rest + [Mute(user, x)], (e: Mute) => e.userId == user) == Some(Mute(user, x))
    ensures Find(rest, (e: Mute) => e.userId == user).None?
  {
    var m := rest + [Mute(user, x)];
    var f := FirstIndex(m, (e: Mute) => e.userId == user);
    assert m[|rest|].userId == user;
    assert forall k :: 0 <= k < |rest| ==> m[k] == rest[k];
    assert f.Some? && f.value == |rest|;
  }

  /** No entry left after removing the user's names the user. */
  lemma OthersMutes(mutes: seq<Mute>, user: Id)
    ensures forall k :: 0 <= k < |WithoutMute(mutes, user)| ==> WithoutMute(mutes, user)[k].userId != user
  {
    var rest := WithoutMute(mutes, user);
    forall k | 0 <= k < |rest|
      ensures rest[k].userId != user
    {
      assert rest[k] in rest;
    }
  }

  /** clear stamps the user's clear time; markAsRead zeroes the user's unread count. */
  lemma ClearAndMarkRead(c: Chat, user: Id, hours: Option<int>, now: Millis)
    ensures ApplyAction(c, user, Clear, hours, now).clearedAt == c.clearedAt[user := now]
    ensures ApplyAction(c, user, MarkAsRead, hours, now).unreadCounts == c.unreadCounts[user := 0]
    ensures forall u :: u != user && u in c.unreadCounts ==>
      ApplyAction(c, user, MarkAsRead, hours, now).unreadCounts[u] == c.unreadCounts[u]
  {
  }

  /** delete removes the chat and every message of it, and nothing else. */
  lemma DeleteRemovesChat(st: Store, chatId: Id, user: Id, hours: Option<int>, now: Millis)
    requires chatId != "" && user != "" && ChatIndex(st, chatId).Some?
    ensures var h := Put(st, Request(chatId, user, "delete", hours), now);
      && h.reply == Ok(Deleted)
      && (forall c :: c in h.st.chats <==> c in st.chats && c.id != chatId)
      && (forall m :: m in h.st.messages <==> m in st.messages && m.chatId != chatId)
  {
  }

  // ---------------------------------------------------------------------------
  // Find or create the chat of a pair
  // ---------------------------------------------------------------------------

  /**
   GET /api/chats/find: the first chat holding both users, or a new chat of
   exactly those two (current user first). `freshId` is the id the store
   assigns to a new document.
   */
  function FindChat(st: Store, userId: Option<Id>, currentUserId: Option<Id>, freshId: Id, now: Millis): Handled<Id>
    requires freshId !in ChatIds(st)
  {
    if !Present(userId) || !Present(currentUserId) then
      Refuse(st, 400, "userId and currentUserId required")
    else
      match ChatBetween(st, currentUserId.value, userId.value)
      case Some(i) => Handled(st, Ok(st.chats[i].id))
      case None =>
        Handled(st.(chats := st.chats + [NewChat(freshId, [currentUserId.value, userId.value], map[], now)]), Ok(freshId))
  }

  /**
   An existing chat of the pair is returned and nothing is created;
   otherwise exactly one chat with the two users is appended and its id
   returned.
   */
  lemma FindOrCreate(st: Store, a: Id, b: Id, freshId: Id, now: Millis)
    requires freshId !in ChatIds(st) && a != "" && b != ""
    ensures var h := FindChat(st, Some(b), Some(a), freshId, now);
      && h.reply.Ok?
      && (ChatBetween(st, a, b).Some? ==> h.st == st && h.reply.body == st.chats[ChatBetween(st, a, b).value].id)
      && (ChatBetween(st, a, b).None? ==>
            && h.reply.body == freshId
            && h.st.chats == st.chats + [NewChat(freshId, [a, b], map[], now)]
            && h.st.messages == st.messages && h.st.users == st.users)
  {
  }

  /** Asking twice for the same pair gives the same chat id, and the second call creates nothing. */
  lemma FindTwiceSameChat(st: Store, a: Id, b: Id, id1: Id, id2: Id, t1: Millis, t2: Millis)
    requires a != "" && b != ""
    requires id1 !in ChatIds(st)
    requires id2 !in ChatIds(FindChat(st, Some(b), Some(a), id1, t1).st)
    ensures var first := FindChat(st, Some(b), Some(a), id1, t1);
      var second := FindChat(first.st, Some(b), Some(a), id2, t2);
      && second.reply == first.reply
      && second.st == first.st
  {
    var first := FindChat(st, Some(b), Some(a), id1, t1);
    if ChatBetween(st, a, b).None? {
      var c := NewChat(id1, [a, b], map[], t1);
      assert first.st.chats[|st.chats|] == c;
      assert ChatBetween(first.st, a, b) == Some(|st.chats|) by {
        forall j | 0 <= j < |st.chats|
          ensures !(a in first.st.chats[j].participants && b in first.st.chats[j].participants)
        {
          assert first.st.chats[j] == st.chats[j];
        }
      }
    } else {
      assert first.st == st;
    }
  }

  /** Missing ids are refused without creating anything. */
  lemma FindNeedsBothIds(st: Store, userId: Option<Id>, currentUserId: Option<Id>, freshId: Id, now: Millis)
    requires freshId !in ChatIds(st)
    requires !Present(userId) || !Present(currentUserId)
    ensures FindChat(st, userId, currentUserId, freshId, now) == Handled(st, Fail(400, "userId and currentUserId required"))
  {
  }
}
