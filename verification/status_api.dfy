/**
 The message status endpoint: delivery and read receipts for a batch of
 messages (a read receipt also marks the chat's preview as read when the
 preview belongs to the same sender), and the reaction endpoint, which keeps
 one reaction per user.
 */
module StatusApi {
  import opened Base
  import opened Domain

  // ---------------------------------------------------------------------------
  // PUT: delivery and read receipts
  // ---------------------------------------------------------------------------

  datatype StatusRequest = StatusRequest(messageIds: Option<seq<Id>>, status: Option<string>, userId: Option<Id>)

  /** Every listed message becomes delivered, with the user added once to its delivered-to list. */
  function MarkDelivered(msgs: seq<Message>, ids: seq<Id>, user: Id): (r: seq<Message>)
    ensures |r| == |msgs|
    ensures forall k :: 0 <= k < |msgs| ==>
      if msgs[k].id in ids
      then r[k] == msgs[k].(status := Delivered, deliveredTo := AddIfAbsent(msgs[k].deliveredTo, user))
      else r[k] == msgs[k]
  {
    Map(msgs, (m: Message) =>
      if m.id in ids then m.(status := Delivered, deliveredTo := AddIfAbsent(m.deliveredTo, user)) else m)
  }

  /**
   Every listed message becomes read, with a receipt for the user at this
   instant appended to its readers. Each receipt is a subdocument that gets
   an id of its own when stored, so the add-to-set never finds an equal
   element and always appends.
   */
  function MarkRead(msgs: seq<Message>, ids: seq<Id>, user: Id, now: Millis): (r: seq<Message>)
    ensures |r| == |msgs|
    ensures forall k :: 0 <= k < |msgs| ==>
      if msgs[k].id in ids
      then r[k] == msgs[k].(status := Read, readBy := msgs[k].readBy + [ReadReceipt(user, now)])
      else r[k] == msgs[k]
  {
    Map(msgs, (m: Message) =>
      if m.id in ids then m.(status := Read, readBy := m.readBy + [ReadReceipt(user, now)]) else m)
  }

  /** Whether the chat's preview is a message by `sender`. */
  predicate PreviewBy(c: Chat, chatId: Id, sender: Id)
  {
    c.id == chatId && c.lastMessage.Some? && c.lastMessage.value.senderId == sender
  }

  /**
   One `Chat.updateOne` per read message, in store order: the first chat with
   the message's chat id whose preview was sent by the message's sender gets
   its preview marked read and, as every update of a timestamped schema, its
   update time set to now.
   */
  function MarkPreviews(chats: seq<Chat>, read: seq<Message>, now: Millis): (r: seq<Chat>)
    ensures |r| == |chats|
    decreases |read|
  {
    if |read| == 0 then chats
    else
      var m := read[0];
      var next := match FirstIndex(chats, (c: Chat) => PreviewBy(c, m.chatId, m.senderId))
        case None => chats
        case Some(k) => chats[k := PreviewRead(chats[k], now)];
      MarkPreviews(next, read[1..], now)
  }

  /** A chat whose preview is marked read at `now`. */
  function PreviewRead(c: Chat, now: Millis): Chat
    requires c.lastMessage.Some?
  {
    c.(lastMessage := Some(c.lastMessage.value.(read := true)), updatedAt := now)
  }

  /** The listed messages re-read from the store, in store order. */
  function Listed(msgs: seq<Message>, ids: seq<Id>): (r: seq<Message>)
    ensures forall m :: m in r <==> m in msgs && m.id in ids
  {
    Filter(msgs, (m: Message) => m.id in ids)
  }

  function UpdateStatus(st: Store, req: StatusRequest, now: Millis): Handled<bool>
  {
    if req.messageIds.None? || !Present(req.status) || !Present(req.userId) then
      Refuse(st, 400, "Missing required fields")
    else
      var ids := req.messageIds.value;
      var user := req.userId.value;
      if req.status.value == "delivered" then
        Handled(st.(messages := MarkDelivered(st.messages, ids, user)), Ok(true))
      else if req.status.value == "read" then
        var msgs := MarkRead(st.messages, ids, user, now);
        Handled(st.(messages := msgs, chats := MarkPreviews(st.chats, Listed(msgs, ids), now)), Ok(true))
      else Handled(st, Ok(true))
  }

  /** A missing id list, status or user is refused; an unknown status succeeds and changes nothing. */
  lemma StatusRefusals(st: Store, req: StatusRequest, now: Millis)
    ensures req.messageIds.None? || !Present(req.status) || !Present(req.userId) ==>
      UpdateStatus(st, req, now) == Handled(st, Fail(400, "Missing required fields"))
    ensures req.messageIds.Some? && Present(req.status) && Present(req.userId)
            && req.status.value != "delivered" && req.status.value != "read" ==>
      UpdateStatus(st, req, now) == Handled(st, Ok(true))
  {
  }

  /**
   A delivery receipt marks exactly the listed messages delivered to the user
   (once each), even ones already read, and touches no chat.
   */
  lemma DeliveredReceipt(st: Store, ids: seq<Id>, user: Id, now: Millis)
    requires user != ""
    ensures var h := UpdateStatus(st, StatusRequest(Some(ids), Some("delivered"), Some(user)), now);
      && h.reply == Ok(true) && h.st.chats == st.chats && |h.st.messages| == |st.messages|
      && (forall k :: 0 <= k < |st.messages| ==>
            && (st.messages[k].id in ids ==> h.st.messages[k].status == Delivered && user in h.st.messages[k].deliveredTo)
            && (st.messages[k].id in ids && user in st.messages[k].deliveredTo ==> h.st.messages[k].deliveredTo == st.messages[k].deliveredTo)
            && (st.messages[k].id !in ids ==> h.st.messages[k] == st.messages[k]))
  {
  }

  /** A late delivery receipt takes a read message back to "delivered". */
  lemma DeliveredAfterReadRegresses(st: Store, k: nat, user: Id, now: Millis)
    requires user != "" && k < |st.messages| && st.messages[k].status == Read
    ensures UpdateStatus(st, StatusRequest(Some([st.messages[k].id]), Some("delivered"), Some(user)), now).st.messages[k].status == Delivered
  {
  }

  /** Marking previews read only flips `read` on chats whose preview some read message's sender wrote. */
  lemma {:induction false} MarkPreviewsOnlyMatching(chats: seq<Chat>, read: seq<Message>, now: Millis)
    ensures var r := MarkPreviews(chats, read, now);
      forall k :: 0 <= k < |chats| ==>
        || r[k] == chats[k]
        || (&& chats[k].lastMessage.Some?
            && r[k] == PreviewRead(chats[k], now)
            && exists m :: m in read && PreviewBy(chats[k], m.chatId, m.senderId))
    decreases |read|
  {
    if |read| > 0 {
      var m := read[0];
      var next := match FirstIndex(chats, (c: Chat) => PreviewBy(c, m.chatId, m.senderId))
        case None => chats
        case Some(j) => chats[j := PreviewRead(chats[j], now)];
      MarkPreviewsOnlyMatching(next, read[1..], now);
      var r := MarkPreviews(chats, read, now);
      assert r == MarkPreviews(next, read[1..], now);
      forall k | 0 <= k < |chats|
        ensures || r[k] == chats[k]
                || (&& chats[k].lastMessage.Some?
                    && r[k] == PreviewRead(chats[k], now)
                    && exists m :: m in read && PreviewBy(chats[k], m.chatId, m.senderId))
      {
        if next[k] != chats[k] {
          assert PreviewBy(chats[k], m.chatId, m.senderId) && m in read;
        } else if r[k] != chats[k] {
          var m' :| m' in read[1..] && PreviewBy(next[k], m'.chatId, m'.senderId);
          assert m' in read;
        }
      }
    }
  }

  /**
   Conversely, when a read message belongs to the first chat with its chat
   id and that chat's preview was sent by the message's sender, the preview
   ends up read and the chat stamped as updated now.
   */
  lemma {:induction false} MarkPreviewsMatching(chats: seq<Chat>, read: seq<Message>, now: Millis, k: nat, m: Message)
    requires k < |chats| && m in read && PreviewBy(chats[k], m.chatId, m.senderId)
    requires forall j :: 0 <= j < k ==> chats[j].id != m.chatId
    ensures var r := MarkPreviews(chats, read, now);
      r[k].lastMessage.Some? && r[k].lastMessage.value.read && r[k].updatedAt == now
    decreases |read|
  {
    var m0 := read[0];
    var next := match FirstIndex(chats, (c: Chat) => PreviewBy(c, m0.chatId, m0.senderId))
      case None => chats
      case Some(j) => chats[j := PreviewRead(chats[j], now)];
    assert MarkPreviews(chats, read, now) == MarkPreviews(next, read[1..], now);
    if m == m0 {
      var f := FirstIndex(chats, (c: Chat) => PreviewBy(c, m0.chatId, m0.senderId));
      assert f.Some?;
      assert f.value == k;
      assert next[k].lastMessage.value.read;
      MarkPreviewsKeepsRead(next, read[1..], now, k);
    } else {
      assert m in read[1..];
      assert PreviewBy(next[k], m.chatId, m.senderId);
      MarkPreviewsMatching(next, read[1..], now, k, m);
    }
  }

  /** A preview once marked read at `now` stays so. */
  lemma {:induction false} MarkPreviewsKeepsRead(chats: seq<Chat>, read: seq<Message>, now: Millis, k: nat)
    requires k < |chats| && chats[k].lastMessage.Some? && chats[k].lastMessage.value.read && chats[k].updatedAt == now
    ensures var r := MarkPreviews(chats, read, now);
      r[k].lastMessage.Some? && r[k].lastMessage.value.read && r[k].updatedAt == now
    decreases |read|
  {
    if |read| > 0 {
      var m0 := read[0];
      var next := match FirstIndex(chats, (c: Chat) => PreviewBy(c, m0.chatId, m0.senderId))
        case None => chats
        case Some(j) => chats[j := PreviewRead(chats[j], now)];
      MarkPreviewsKeepsRead(next, read[1..], now, k);
    }
  }

  /**
   A read receipt marks exactly the listed messages read and appends one
   receipt for the reader to each, even when an equal receipt is already
   there; chat previews change only as described above.
   */
  lemma ReadReceiptMessages(st: Store, ids: seq<Id>, user: Id, now: Millis)
    requires user != ""
    ensures var h := UpdateStatus(st, StatusRequest(Some(ids), Some("read"), Some(user)), now);
      && h.reply == Ok(true) && |h.st.messages| == |st.messages| && |h.st.chats| == |st.chats|
      && h.st.users == st.users && h.st.requests == st.requests
      && (forall k :: 0 <= k < |st.messages| ==>
            && (st.messages[k].id in ids ==>
                  h.st.messages[k].status == Read && h.st.messages[k].readBy == st.messages[k].readBy + [ReadReceipt(user, now)])
            && (st.messages[k].id !in ids ==> h.st.messages[k] == st.messages[k]))
  {
  }

  /**
   A read receipt for a message marks the preview of its chat read, and the
   chat updated now, when the preview was written by the same sender.
   */
  lemma ReadReceiptPreview(st: Store, ids: seq<Id>, user: Id, now: Millis, i: nat, k: nat)
    requires user != "" && i < |st.messages| && st.messages[i].id in ids
    requires ChatIndex(st, st.messages[i].chatId) == Some(k)
    requires st.chats[k].lastMessage.Some? && st.chats[k].lastMessage.value.senderId == st.messages[i].senderId
    ensures var h := UpdateStatus(st, StatusRequest(Some(ids), Some("read"), Some(user)), now);
      h.st.chats[k].lastMessage.Some? && h.st.chats[k].lastMessage.value.read && h.st.chats[k].updatedAt == now
  {
    var msgs := MarkRead(st.messages, ids, user, now);
    var read := Listed(msgs, ids);
    ReadBranch(st, ids, user, now);
    MarkReadKeeps(st.messages, ids, user, now, i);
    var m := msgs[i];
    assert PreviewBy(st.chats[k], m.chatId, m.senderId);
    assert m in read;
    MarkPreviewsMatching(st.chats, read, now, k, m);
  }

  /** What a read receipt does to the store, spelled out. */
  lemma ReadBranch(st: Store, ids: seq<Id>, user: Id, now: Millis)
    requires user != ""
    ensures var msgs := MarkRead(st.messages, ids, user, now);
      UpdateStatus(st, StatusRequest(Some(ids), Some("read"), Some(user)), now)
        == Handled(st.(messages := msgs, chats := MarkPreviews(st.chats, Listed(msgs, ids), now)), Ok(true))
  {
    var req := StatusRequest(Some(ids), Some("read"), Some(user));
    assert "read" != "delivered";
    assert Present(req.status) && Present(req.userId) && req.messageIds.Some?;
    assert req.status.value == "read";
  }

  /** Receipts change a message's status and readers, never its identity, chat or sender. */
  lemma MarkReadKeeps(msgs: seq<Message>, ids: seq<Id>, user: Id, now: Millis, i: nat)
    requires i < |msgs|
    ensures var r := MarkRead(msgs, ids, user, now);
      r[i].id == msgs[i].id && r[i].chatId == msgs[i].chatId && r[i].senderId == msgs[i].senderId
  {
  }

  // ---------------------------------------------------------------------------
  // POST: react to a message
  // ---------------------------------------------------------------------------

  datatype ReactionRequest = ReactionRequest(messageId: Option<Id>, userId: Option<Id>, emoji: Option<string>)

  /** The user's earlier reactions are dropped and the new one goes last. */
  function React(reactions: seq<Reaction>, user: Id, emoji: string, now: Millis): seq<Reaction>
  {
    Filter(reactions, (r: Reaction) => r.userId != user) + [Reaction(user, emoji, now)]
  }

  function AddReaction(st: Store, req: ReactionRequest, now: Millis): Handled<seq<Reaction>>
  {
    if !Present(req.messageId) || !Present(req.userId) || !Present(req.emoji) then
      Refuse(st, 400, "Missing required fields")
    else
      match MessageIndex(st, req.messageId.value)
      case None => Refuse(st, 404, "Message not found")
      case Some(i) =>
        var m := st.messages[i];
        var rs := React(m.reactions, req.userId.value, req.emoji.value, now);
        Handled(st.(messages := st.messages[i := m.(reactions := rs)]), Ok(rs))
  }

  /** Missing fields are refused with 400 and an unknown message with 404; neither changes the store. */
  lemma ReactionRefusals(st: Store, req: ReactionRequest, now: Millis)
    ensures !Present(req.messageId) || !Present(req.userId) || !Present(req.emoji) ==>
      AddReaction(st, req, now) == Handled(st, Fail(400, "Missing required fields"))
    ensures Present(req.messageId) && Present(req.userId) && Present(req.emoji)
            && MessageIndex(st, req.messageId.value).None? ==>
      AddReaction(st, req, now) == Handled(st, Fail(404, "Message not found"))
  {
  }

  function ReactionsBy(rs: seq<Reaction>, user: Id): nat
  {
    Count(rs, (r: Reaction) => r.userId == user)
  }

  lemma {:induction false} NoReactionsBy(rs: seq<Reaction>, user: Id)
    requires forall r :: r in rs ==> r.userId != user
    ensures ReactionsBy(rs, user) == 0
    decreases |rs|
  {
    if |rs| > 0 {
      assert rs[0] in rs;
      assert forall r :: r in rs[1..] ==> r in rs;
      NoReactionsBy(rs[1..], user);
    }
  }

  lemma {:induction false} ReactionsByAppend(a: seq<Reaction>, b: seq<Reaction>, user: Id)
    ensures ReactionsBy(a + b, user) == ReactionsBy(a, user) + ReactionsBy(b, user)
    decreases |a|
  {
    if |a| == 0 {
      assert a + b == b;
    } else {
      assert (a + b)[1..] == a[1..] + b;
      ReactionsByAppend(a[1..], b, user);
    }
  }

  /**
   After reacting, the user has exactly one reaction, the new one, in last
   place; everyone else's reactions are kept in their order.
   */
  lemma OneReactionPerUser(rs: seq<Reaction>, user: Id, emoji: string, now: Millis)
    ensures var r := React(rs, user, emoji, now);
      && ReactionsBy(r, user) == 1
      && r[|r| - 1] == Reaction(user, emoji, now)
      && r[..|r| - 1] == Filter(rs, (x: Reaction) => x.userId != user)
      && (forall x: Reaction :: x.userId != user ==> (x in r <==> x in rs))
  {
    var kept := Filter(rs, (x: Reaction) => x.userId != user);
    var r := kept + [Reaction(user, emoji, now)];
    NoReactionsBy(kept, user);
    ReactionsByAppend(kept, [Reaction(user, emoji, now)], user);
    assert r[..|r| - 1] == kept;
  }

  /** Reacting again replaces the first reaction: only the later one remains. */
  lemma ReactAgainReplaces(rs: seq<Reaction>, user: Id, e1: string, e2: string, t1: Millis, t2: Millis)
    ensures React(React(rs, user, e1, t1), user, e2, t2) == React(rs, user, e2, t2)
  {
    var kept := Filter(rs, (x: Reaction) => x.userId != user);
    FilterAppend(kept, [Reaction(user, e1, t1)], (x: Reaction) => x.userId != user);
    assert Filter([Reaction(user, e1, t1)], (x: Reaction) => x.userId != user) == [];
  }

  /** A successful reaction answers with the message's new reaction list, which is stored. */
  lemma ReactionStored(st: Store, messageId: Id, user: Id, emoji: string, now: Millis)
    requires messageId != "" && user != "" && emoji != ""
    requires MessageIndex(st, messageId).Some?
    ensures var i := MessageIndex(st, messageId).value;
      var h := AddReaction(st, ReactionRequest(Some(messageId), Some(user), Some(emoji)), now);
      && h.reply == Ok(React(st.messages[i].reactions, user, emoji, now))
      && h.st.messages == st.messages[i := st.messages[i].(reactions := h.reply.body)]
      && h.st.chats == st.chats
  {
  }
}
