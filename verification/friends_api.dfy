/**
 The friend-request endpoint: sending a request to a user found by email,
 listing a user's incoming pending requests, and answering a request, where
 acceptance opens a chat between the pair. The notification e-mails are
 outside the model: their outcome never changes an answer.
 */
module FriendsApi {
  import opened Base
  import opened Domain

  // ---------------------------------------------------------------------------
  // POST: send a request
  // ---------------------------------------------------------------------------

  /** A pending request between the two users, in either direction. */
  predicate PendingBetween(r: FriendRequest, a: Id, b: Id)
  {
    r.status == RequestPending && ((r.senderId == a && r.receiverId == b) || (r.senderId == b && r.receiverId == a))
  }

  /**
   The checks run in order: the receiver must exist, must not be the sender,
   no request may be pending between the two, and they must not already
   share a chat. Then exactly one pending request is stored.
   */
  function Send(st: Store, senderId: Id, receiverEmail: string, freshId: Id): Handled<FriendRequest>
    requires freshId !in RequestIds(st)
  {
    match UserByEmail(st, receiverEmail)
    case None => Refuse(st, 404, "User not found")
    case Some(receiver) =>
      if receiver.id == senderId then Refuse(st, 400, "Cannot send friend request to yourself")
      else if exists r :: r in st.requests && PendingBetween(r, senderId, receiver.id) then
        Refuse(st, 400, "Friend request already pending")
      else if ChatBetween(st, senderId, receiver.id).Some? then Refuse(st, 400, "You are already friends")
      else
        var request := FriendRequest(freshId, senderId, receiver.id, RequestPending);
        Handled(st.(requests := st.requests + [request]), Ok(request))
  }

  /** Each refusal, in the order the checks run, and none of them changes the store. */
  lemma SendRefusals(st: Store, senderId: Id, email: string, freshId: Id)
    requires freshId !in RequestIds(st)
    ensures var h := Send(st, senderId, email, freshId);
      && ((forall u :: u in st.users ==> u.email != email) ==> h == Handled(st, Fail(404, "User not found")))
      && (UserByEmail(st, email).Some? && UserByEmail(st, email).value.id == senderId ==>
            h == Handled(st, Fail(400, "Cannot send friend request to yourself")))
      && (UserByEmail(st, email).Some? && UserByEmail(st, email).value.id != senderId
          && (exists r :: r in st.requests && PendingBetween(r, senderId, UserByEmail(st, email).value.id)) ==>
            h == Handled(st, Fail(400, "Friend request already pending")))
      && (UserByEmail(st, email).Some? && UserByEmail(st, email).value.id != senderId
          && (forall r :: r in st.requests ==> !PendingBetween(r, senderId, UserByEmail(st, email).value.id))
          && (exists c :: c in st.chats && senderId in c.participants && UserByEmail(st, email).value.id in c.participants) ==>
            h == Handled(st, Fail(400, "You are already friends")))
      && (h.reply.Fail? ==> h.st == st)
  {
  }

  /** A request that passes every check stores exactly one new pending request and nothing else. */
  lemma SendCreatesOne(st: Store, senderId: Id, email: string, freshId: Id)
    requires freshId !in RequestIds(st)
    requires Send(st, senderId, email, freshId).reply.Ok?
    ensures var h := Send(st, senderId, email, freshId);
      var receiver := UserByEmail(st, email).value;
      && UserByEmail(st, email).Some?
      && h.reply.body == FriendRequest(freshId, senderId, receiver.id, RequestPending)
      && receiver.email == email && receiver.id != senderId
      && h.st == st.(requests := st.requests + [h.reply.body])
  {
  }

  /** Sending again, or answering with a request the other way, is refused while the first is pending. */
  lemma SendAgainRefused(st: Store, senderId: Id, email: string, freshId: Id, freshId2: Id, senderEmail: string)
    requires freshId !in RequestIds(st)
    requires Send(st, senderId, email, freshId).reply.Ok?
    requires freshId2 !in RequestIds(Send(st, senderId, email, freshId).st)
    ensures var h := Send(st, senderId, email, freshId);
      Send(h.st, senderId, email, freshId2) == Handled(h.st, Fail(400, "Friend request already pending"))
    ensures var h := Send(st, senderId, email, freshId);
      var receiver := h.reply.body.receiverId;
      UserByEmail(h.st, senderEmail).Some? && UserByEmail(h.st, senderEmail).value.id == senderId ==>
        Send(h.st, receiver, senderEmail, freshId2) == Handled(h.st, Fail(400, "Friend request already pending"))
  {
    var h := Send(st, senderId, email, freshId);
    assert h.reply.body in h.st.requests;
  }

  // ---------------------------------------------------------------------------
  // GET: incoming pending requests
  // ---------------------------------------------------------------------------

  function Incoming(st: Store, userId: Option<Id>): Reply<seq<FriendRequest>>
  {
    if !Present(userId) then Fail(400, "UserId required")
    else Ok(Filter(st.requests, (r: FriendRequest) => r.receiverId == userId.value && r.status == RequestPending))
  }

  /** The list holds exactly the pending requests addressed to the user, in store order. */
  lemma IncomingLists(st: Store, user: Id)
    requires user != ""
    ensures Incoming(st, Some(user)).Ok?
    ensures var r := Incoming(st, Some(user)).body;
      && (forall q :: q in r <==> q in st.requests && q.receiverId == user && q.status == RequestPending)
      && IsSubsequence(r, st.requests)
  {
    FilterIsSubsequence(st.requests, (r: FriendRequest) => r.receiverId == user && r.status == RequestPending);
  }

  lemma IncomingNeedsUser(st: Store)
    ensures Incoming(st, None) == Fail(400, "UserId required")
    ensures Incoming(st, Some("")) == Fail(400, "UserId required")
  {
  }

  /** A request just sent shows up in the receiver's list. */
  lemma SentRequestListed(st: Store, senderId: Id, email: string, freshId: Id)
    requires freshId !in RequestIds(st)
    requires Send(st, senderId, email, freshId).reply.Ok?
    ensures var h := Send(st, senderId, email, freshId);
      var receiver := h.reply.body.receiverId;
      receiver != "" ==> Incoming(h.st, Some(receiver)).Ok? && h.reply.body in Incoming(h.st, Some(receiver)).body
  {
    var h := Send(st, senderId, email, freshId);
    var receiver := UserByEmail(st, email).value;
    var request := FriendRequest(freshId, senderId, receiver.id, RequestPending);
    assert h == Handled(st.(requests := st.requests + [request]), Ok(request));
    assert request in h.st.requests;
    if receiver.id != "" {
      IncomingLists(h.st, receiver.id);
    }
  }

  // ---------------------------------------------------------------------------
  // PUT: answer a request
  // ---------------------------------------------------------------------------

  function RequestIndex(st: Store, id: Id): (r: Option<nat>)
    ensures r.Some? ==> r.value < |st.requests| && st.requests[r.value].id == id
    ensures r.Some? ==> forall j :: 0 <= j < r.value ==> st.requests[j].id != id
    ensures r.None? ==> forall j :: 0 <= j < |st.requests| ==> st.requests[j].id != id
  {
    FirstIndex(st.requests, (q: FriendRequest) => q.id == id)
  }

  /**
   The status is overwritten whatever it was; a value outside the enumeration
   fails validation on save and is reported as a failed update. Acceptance
   opens a new chat of the pair with both unread counts at zero.
   */
  function Answer(st: Store, requestId: Option<Id>, status: string, freshChatId: Id, now: Millis): Handled<Option<Chat>>
    requires freshChatId !in ChatIds(st)
  {
    match (if requestId.Some? then RequestIndex(st, requestId.value) else None)
    case None => Refuse(st, 404, "Request not found")
    case Some(i) =>
      match ParseRequestStatus(status)
      case None => Refuse(st, 500, "Failed to update request")
      case Some(s) =>
        var q := st.requests[i];
        var st1 := st.(requests := st.requests[i := q.(status := s)]);
        if s == RequestAccepted then
          var chat := NewChat(freshChatId, [q.senderId, q.receiverId], map[q.senderId := 0, q.receiverId := 0], now);
          Handled(st1.(chats := st.chats + [chat]), Ok(Some(chat)))
        else Handled(st1, Ok(None))
  }

  /** An unknown request is refused with 404 and an invalid status with 500, changing nothing. */
  lemma AnswerRefusals(st: Store, requestId: Option<Id>, status: string, freshChatId: Id, now: Millis)
    requires freshChatId !in ChatIds(st)
    ensures requestId.None? || RequestIndex(st, requestId.value).None? ==>
      Answer(st, requestId, status, freshChatId, now) == Handled(st, Fail(404, "Request not found"))
    ensures requestId.Some? && RequestIndex(st, requestId.value).Some? && ParseRequestStatus(status).None? ==>
      Answer(st, requestId, status, freshChatId, now) == Handled(st, Fail(500, "Failed to update request"))
  {
  }

  /**
   Accepting sets the status and adds one chat holding exactly the pair, both
   counts zero; rejecting or re-pending only sets the status. Neither looks
   at the request's previous status.
   */
  lemma AnswerEffects(st: Store, requestId: Id, s: RequestStatus, freshChatId: Id, now: Millis)
    requires freshChatId !in ChatIds(st) && RequestIndex(st, requestId).Some?
    ensures var i := RequestIndex(st, requestId).value;
      var q := st.requests[i];
      var h := Answer(st, Some(requestId), RequestStatusName(s), freshChatId, now);
      && h.reply.Ok?
      && h.st.requests == st.requests[i := q.(status := s)]
      && h.st.users == st.users && h.st.messages == st.messages
      && (s == RequestAccepted ==>
            && h.reply.body.Some?
            && h.st.chats == st.chats + [h.reply.body.value]
            && h.reply.body.value.id == freshChatId
            && h.reply.body.value.participants == [q.senderId, q.receiverId]
            && h.reply.body.value.unreadCounts.Keys == {q.senderId, q.receiverId}
            && h.reply.body.value.unreadCounts[q.senderId] == 0 && h.reply.body.value.unreadCounts[q.receiverId] == 0)
      && (s != RequestAccepted ==> h.reply.body.None? && h.st.chats == st.chats)
  {
    RequestStatusRoundTrip(s);
  }

  /** Once a request is accepted, the pair counts as friends: a new request between them is refused. */
  lemma AcceptedPairAreFriends(st: Store, requestId: Id, freshChatId: Id, now: Millis, email: string, freshId: Id)
    requires freshChatId !in ChatIds(st) && RequestIndex(st, requestId).Some?
    requires var q := st.requests[RequestIndex(st, requestId).value]; q.senderId != q.receiverId
    ensures var q := st.requests[RequestIndex(st, requestId).value];
      var h := Answer(st, Some(requestId), "accepted", freshChatId, now);
      && freshId !in RequestIds(h.st)
      && UserByEmail(h.st, email).Some? && UserByEmail(h.st, email).value.id == q.receiverId
      && (forall r :: r in h.st.requests ==> !PendingBetween(r, q.senderId, q.receiverId))
      ==> Send(h.st, q.senderId, email, freshId).reply == Fail(400, "You are already friends")
  {
    var i := RequestIndex(st, requestId).value;
    var q := st.requests[i];
    var h := Answer(st, Some(requestId), "accepted", freshChatId, now);
    AnswerEffects(st, requestId, RequestAccepted, freshChatId, now);
    var chat := h.reply.body.value;
    assert chat in h.st.chats && q.senderId in chat.participants && q.receiverId in chat.participants;
  }

  /** Nothing stops a request from being accepted twice, and each acceptance opens another chat. */
  lemma AcceptTwiceTwoChats(st: Store, requestId: Id, c1: Id, c2: Id, now: Millis)
    requires c1 != c2 && c1 !in ChatIds(st) && c2 !in ChatIds(st)
    requires RequestIndex(st, requestId).Some?
    ensures var h1 := Answer(st, Some(requestId), "accepted", c1, now);
      && c2 !in ChatIds(h1.st)
      && var h2 := Answer(h1.st, Some(requestId), "accepted", c2, now);
         && h2.reply.Ok? && h2.reply.body.Some?
         && |h2.st.chats| == |st.chats| + 2
         && h2.st.chats[|st.chats|].participants == h2.st.chats[|st.chats| + 1].participants
  {
    var i := RequestIndex(st, requestId).value;
    AnswerEffects(st, requestId, RequestAccepted, c1, now);
    var h1 := Answer(st, Some(requestId), "accepted", c1, now);
    assert h1.st.chats == st.chats + [h1.reply.body.value];
    assert c2 !in ChatIds(h1.st);
    FirstIndexAgree(st.requests, h1.st.requests, (q: FriendRequest) => q.id == requestId);
    assert RequestIndex(h1.st, requestId) == Some(i);
    AnswerEffects(h1.st, requestId, RequestAccepted, c2, now);
  }

  /** An answered request (accepted or rejected) leaves the receiver's pending list. */
  lemma AnsweredLeavesIncoming(st: Store, requestId: Id, s: RequestStatus, freshChatId: Id, now: Millis)
    requires freshChatId !in ChatIds(st) && RequestIndex(st, requestId).Some?
    requires s != RequestPending
    ensures var q := st.requests[RequestIndex(st, requestId).value];
      var h := Answer(st, Some(requestId), RequestStatusName(s), freshChatId, now);
      q.receiverId != "" ==> q.(status := s) !in Incoming(h.st, Some(q.receiverId)).body
  {
    var q := st.requests[RequestIndex(st, requestId).value];
    var h := Answer(st, Some(requestId), RequestStatusName(s), freshChatId, now);
    AnswerEffects(st, requestId, s, freshChatId, now);
    if q.receiverId != "" {
      IncomingLists(h.st, q.receiverId);
    }
  }
}
