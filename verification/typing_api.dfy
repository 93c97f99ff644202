/**
 The typing endpoint: a user starts typing (added, or their entry refreshed)
 or stops (their entries removed), and reading a chat's typing list first
 drops the entries older than five seconds. A chat is written back only when
 its list changed, and a write moves the chat's update time to now.
 */
module TypingApi {
  import opened Base
  import opened Domain

  /** How long a typing entry stays fresh. */
  const StaleMs: int := 5000

  /** The chat with a new typing list, written back (and its update time moved) only if the list changed. */
  function Touch(c: Chat, typing: seq<TypingEntry>, now: Millis): (r: Chat)
    ensures r.typingUsers == typing && r.id == c.id
    ensures typing == c.typingUsers ==> r == c
    ensures typing != c.typingUsers ==> r == c.(typingUsers := typing, updatedAt := now)
  {
    if typing == c.typingUsers then c else c.(typingUsers := typing, updatedAt := now)
  }

  /** At most one entry per user. */
  predicate OnePerUser(typing: seq<TypingEntry>)
  {
    forall i, j :: 0 <= i < j < |typing| ==> typing[i].userId != typing[j].userId
  }

  /** Add the user with the current time, or refresh the time of their first entry. */
  function StartTyping(typing: seq<TypingEntry>, user: Id, now: Millis): seq<TypingEntry>
  {
    match FirstIndex(typing, (t: TypingEntry) => t.userId == user)
    case None => typing + [TypingEntry(user, now)]
    case Some(k) => typing[k := TypingEntry(user, now)]
  }

  function StopTyping(typing: seq<TypingEntry>, user: Id): seq<TypingEntry>
  {
    Filter(typing, (t: TypingEntry) => t.userId != user)
  }

  /** Entries stamped strictly later than five seconds before now. */
  function Fresh(typing: seq<TypingEntry>, now: Millis): seq<TypingEntry>
  {
    Filter(typing, (t: TypingEntry) => t.timestamp > now - StaleMs)
  }

  datatype TypingRequest = TypingRequest(chatId: Option<Id>, userId: Option<Id>, isTyping: bool)

  function SetTyping(st: Store, req: TypingRequest, now: Millis): Handled<seq<TypingEntry>>
  {
    if !Present(req.chatId) || !Present(req.userId) then Refuse(st, 400, "Missing required fields")
    else
      match ChatIndex(st, req.chatId.value)
      case None => Refuse(st, 404, "Chat not found")
      case Some(i) =>
        var c := st.chats[i];
        var typing := if req.isTyping then StartTyping(c.typingUsers, req.userId.value, now)
                      else StopTyping(c.typingUsers, req.userId.value);
        Handled(st.(chats := st.chats[i := Touch(c, typing, now)]), Ok(typing))
  }

  function GetTyping(st: Store, chatId: Option<Id>, now: Millis): Handled<seq<TypingEntry>>
  {
    if !Present(chatId) then Refuse(st, 400, "Chat ID required")
    else
      match ChatIndex(st, chatId.value)
      case None => Refuse(st, 404, "Chat not found")
      case Some(i) =>
        var c := st.chats[i];
        var typing := Fresh(c.typingUsers, now);
        Handled(st.(chats := st.chats[i := Touch(c, typing, now)]), Ok(typing))
  }

  /** Missing fields are refused with 400 and an unknown chat with 404; neither changes the store. */
  lemma TypingRefusals(st: Store, req: TypingRequest, chatId: Option<Id>, now: Millis)
    ensures !Present(req.chatId) || !Present(req.userId) ==>
      SetTyping(st, req, now) == Handled(st, Fail(400, "Missing required fields"))
    ensures Present(req.chatId) && Present(req.userId) && ChatIndex(st, req.chatId.value).None? ==>
      SetTyping(st, req, now) == Handled(st, Fail(404, "Chat not found"))
    ensures !Present(chatId) ==> GetTyping(st, chatId, now) == Handled(st, Fail(400, "Chat ID required"))
    ensures Present(chatId) && ChatIndex(st, chatId.value).None? ==>
      GetTyping(st, chatId, now) == Handled(st, Fail(404, "Chat not found"))
  {
  }

  /**
   Starting to type leaves the user with an entry stamped now; when the list
   held at most one entry per user it still does, and other users' entries
   are untouched.
   */
  lemma StartTypingFresh(typing: seq<TypingEntry>, user: Id, now: Millis)
    ensures var r := StartTyping(typing, user, now);
      && TypingEntry(user, now) in r
      && (forall t: TypingEntry :: t.userId != user ==> (t in r <==> t in typing))
      && (OnePerUser(typing) ==> OnePerUser(r))
      && |r| == |typing| + (if exists t :: t in typing && t.userId == user then 0 else 1)
  {
    var r := StartTyping(typing, user, now);
    match FirstIndex(typing, (t: TypingEntry) => t.userId == user)
    case None =>
      assert forall t :: t in typing ==> t.userId != user;
      forall t: TypingEntry | t.userId != user
        ensures t in r <==> t in typing
      {
      }
    case Some(k) =>
      assert typing[k] in typing && typing[k].userId == user;
      assert forall j :: 0 <= j < |r| ==> r[j].userId == typing[j].userId;
      forall t: TypingEntry | t.userId != user
        ensures t in r <==> t in typing
      {
        if t in typing {
          var j :| 0 <= j < |typing| && typing[j] == t;
          assert r[j] == t;
        }
      }
  }

  /** Stopping removes every entry of the user and keeps the others in order. */
  lemma StopTypingRemoves(typing: seq<TypingEntry>, user: Id)
    ensures var r := StopTyping(typing, user);
      && (forall t :: t in r ==> t.userId != user)
      && (forall t: TypingEntry :: t.userId != user ==> (t in r <==> t in typing))
      && (OnePerUser(typing) ==> OnePerUser(r))
  {
    var r := StopTyping(typing, user);
    if OnePerUser(typing) {
      FilterKeepsOnePerUser(typing, (t: TypingEntry) => t.userId != user);
    }
  }

  /** A filtered list keeps at most one entry per user: its entries sit at increasing positions of the input. */
  lemma FilterKeepsOnePerUser(typing: seq<TypingEntry>, keep: TypingEntry -> bool)
    requires OnePerUser(typing)
    ensures OnePerUser(Filter(typing, keep))
  {
    var r := Filter(typing, keep);
    FilterIsSubsequence(typing, keep);
    var idx: seq<nat> :| Embeds(idx, r, typing);
    forall i, j | 0 <= i < j < |r|
      ensures r[i].userId != r[j].userId
    {
      assert idx[i] < idx[j] < |typing|;
      assert r[i] == typing[idx[i]] && r[j] == typing[idx[j]];
    }
  }

  /**
   Reading the list keeps exactly the entries stamped strictly after five
   seconds ago, in order; the chat is written back only when some entry was
   stale.
   */
  lemma GetDropsStale(st: Store, chatId: Id, now: Millis)
    requires chatId != "" && ChatIndex(st, chatId).Some?
    ensures var i := ChatIndex(st, chatId).value;
      var c := st.chats[i];
      var h := GetTyping(st, Some(chatId), now);
      && h.reply.Ok?
      && (forall t :: t in h.reply.body <==> t in c.typingUsers && t.timestamp > now - 5000)
      && IsSubsequence(h.reply.body, c.typingUsers)
      && h.st.chats[i].typingUsers == h.reply.body
      && ((forall t :: t in c.typingUsers ==> t.timestamp > now - 5000) ==> h.st == st)
      && ((exists t :: t in c.typingUsers && t.timestamp <= now - 5000) ==> h.st.chats[i].updatedAt == now)
  {
    var i := ChatIndex(st, chatId).value;
    var c := st.chats[i];
    var r := Fresh(c.typingUsers, now);
    GetTypingAt(st, chatId, now);
    FreshFilters(c.typingUsers, now);
    if r == c.typingUsers {
      assert Touch(c, r, now) == c;
      assert st.chats[i := c] == st.chats;
    } else {
      assert Touch(c, r, now).updatedAt == now;
    }
  }

  /** A read of a known chat stores the chat touched with its fresh entries and answers with them. */
  lemma GetTypingAt(st: Store, chatId: Id, now: Millis)
    requires chatId != "" && ChatIndex(st, chatId).Some?
    ensures var i := ChatIndex(st, chatId).value;
      var r := Fresh(st.chats[i].typingUsers, now);
      GetTyping(st, Some(chatId), now) == Handled(st.(chats := st.chats[i := Touch(st.chats[i], r, now)]), Ok(r))
  {
  }

  /** The fresh entries, as a filter: the list is unchanged exactly when nothing is stale. */
  lemma FreshFilters(typing: seq<TypingEntry>, now: Millis)
    ensures var r := Fresh(typing, now);
      && (forall t :: t in r <==> t in typing && t.timestamp > now - 5000)
      && IsSubsequence(r, typing)
      && ((forall t :: t in typing ==> t.timestamp > now - 5000) ==> r == typing)
      && ((exists t :: t in typing && t.timestamp <= now - 5000) ==> r != typing)
  {
    var r := Fresh(typing, now);
    FilterIsSubsequence(typing, (t: TypingEntry) => t.timestamp > now - StaleMs);
    if exists t :: t in typing && t.timestamp <= now - 5000 {
      var t :| t in typing && t.timestamp <= now - 5000;
      assert t !in r;
    }
  }

  /** Reading twice at the same moment: the second read finds nothing stale and writes nothing. */
  lemma GetTwiceWritesOnce(st: Store, chatId: Id, now: Millis)
    requires chatId != "" && ChatIndex(st, chatId).Some?
    ensures var h := GetTyping(st, Some(chatId), now);
      GetTyping(h.st, Some(chatId), now) == Handled(h.st, h.reply)
  {
    var i := ChatIndex(st, chatId).value;
    var c := st.chats[i];
    var h := GetTyping(st, Some(chatId), now);
    var keep := (t: TypingEntry) => t.timestamp > now - StaleMs;
    FirstIndexAgree(st.chats, h.st.chats, (c: Chat) => c.id == chatId);
    assert ChatIndex(h.st, chatId) == Some(i);
    var r := Fresh(c.typingUsers, now);
    assert Fresh(r, now) == r;
    assert h.st.chats[i := h.st.chats[i]] == h.st.chats;
  }

  /**
   A successful update answers with the chat's new typing list, which is
   stored on that chat only: the user is listed after starting and absent
   after stopping.
   */
  lemma SetTypingStored(st: Store, chatId: Id, user: Id, isTyping: bool, now: Millis)
    requires chatId != "" && user != "" && ChatIndex(st, chatId).Some?
    ensures var i := ChatIndex(st, chatId).value;
      var h := SetTyping(st, TypingRequest(Some(chatId), Some(user), isTyping), now);
      && h.reply.Ok? && |h.st.chats| == |st.chats|
      && h.st.chats[i].typingUsers == h.reply.body
      && (forall j :: 0 <= j < |st.chats| && j != i ==> h.st.chats[j] == st.chats[j])
      && h.st.messages == st.messages
      && (isTyping ==> TypingEntry(user, now) in h.reply.body)
      && (!isTyping ==> forall t :: t in h.reply.body ==> t.userId != user)
  {
    var c := st.chats[ChatIndex(st, chatId).value];
    if isTyping {
      StartTypingFresh(c.typingUsers, user, now);
    } else {
      StopTypingRemoves(c.typingUsers, user);
    }
  }

  /** A typing user who keeps typing within five seconds stays listed. */
  lemma KeepsTypingStaysListed(typing: seq<TypingEntry>, user: Id, t0: Millis, now: Millis)
    requires t0 <= now < t0 + 5000
    ensures exists t :: t in Fresh(StartTyping(typing, user, t0), now) && t.userId == user
  {
    StartTypingFresh(typing, user, t0);
    assert TypingEntry(user, t0) in Fresh(StartTyping(typing, user, t0), now);
  }
}
