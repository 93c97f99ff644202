/**
 The socket server's event handlers: the presence registry (user id to the
 socket that last registered as that user), the typing sets per chat, and
 the seven call events, each forwarded to the registered socket of one
 user named in the payload. One handler invocation is a pure step from the
 server state and the sending socket to the next state and the list of
 deliveries it makes.
 */
module Relay {
  import opened Base
  import Domain

  type UserId = string
  type SocketId = string
  type ChatId = string

  /** Events a client sends to the server. */
  datatype Inbound =
    | JoinChat(chatId: ChatId)
    | LeaveChat(chatId: ChatId)
    | Typing(chatId: ChatId, userId: UserId, userName: string)
    | StopTyping(chatId: ChatId, userId: UserId, userName: string)
    | RegisterUser(userId: UserId)
    | CallInitiate(callId: string, callerId: UserId, receiverId: UserId, callerName: string, callType: Domain.CallKind)
    | CallAnswer(callId: string, callerId: UserId)
    | CallReject(callId: string, callerId: UserId)
    | CallEnd(callId: string, userId: UserId, otherUserId: UserId)
    | CallOffer(callId: string, receiverId: UserId, offer: string)
    | CallAnswerSdp(callId: string, callerId: UserId, answer: string)
    | CallIceCandidate(callId: string, userId: UserId, otherUserId: UserId, candidate: string)
    | Disconnect

  /** Events the server sends to clients. */
  datatype Outbound =
    | UserTyping(chatId: ChatId, userId: UserId, userName: string)
    | UserStoppedTyping(chatId: ChatId, userId: UserId)
    | CallIncoming(callId: string, callerId: UserId, callerName: string, callType: Domain.CallKind)
    | CallAnswered(callId: string)
    | CallRejected(callId: string)
    | CallEnded(callId: string)
    | OfferRelayed(callId: string, offer: string)
    | AnswerSdpRelayed(callId: string, answer: string)
    | IceCandidateRelayed(callId: string, candidate: string)

  /** One emit: to a single socket, or to a chat room minus the sending socket. */
  datatype Delivery =
    | ToSocket(socket: SocketId, msg: Outbound)
    | ToChatRoom(chatId: ChatId, except: SocketId, msg: Outbound)

  /** The two process-wide maps of the server. */
  datatype RelayState = RelayState(sockets: map<UserId, SocketId>, typing: map<ChatId, set<UserId>>)

  datatype Transition = Transition(next: RelayState, out: seq<Delivery>)

  const Initial := RelayState(map[], map[])

  /** No chat is ever stored with an empty typing set. */
  ghost predicate NoEmptyTypingSets(st: RelayState)
  {
    forall c :: c in st.typing ==> st.typing[c] != {}
  }

  predicate IsCallEvent(ev: Inbound)
  {
    ev.CallInitiate? || ev.CallAnswer? || ev.CallReject? || ev.CallEnd?
    || ev.CallOffer? || ev.CallAnswerSdp? || ev.CallIceCandidate?
  }

  /** Emit `msg` to the socket registered for `target`, or drop it silently. */
  function SendTo(st: RelayState, target: UserId, msg: Outbound): (out: seq<Delivery>)
    ensures target in st.sockets ==> out == [ToSocket(st.sockets[target], msg)]
    ensures target !in st.sockets ==> out == []
  {
    if target in st.sockets then [ToSocket(st.sockets[target], msg)] else []
  }

  /** The handler the server runs for event `ev` arriving on socket `from`. */
  function Step(st: RelayState, from: SocketId, ev: Inbound): Transition
  {
    match ev
    case JoinChat(_) => Transition(st, [])
    case LeaveChat(_) => Transition(st, [])
    case Typing(chat, user, name) =>
      var current := if chat in st.typing then st.typing[chat] else {};
      Transition(st.(typing := st.typing[chat := current + {user}]),
                 [ToChatRoom(chat, from, UserTyping(chat, user, name))])
    case StopTyping(chat, user, _) =>
      var typing :=
        if chat in st.typing then
          var left := st.typing[chat] - {user};
          if left == {} then st.typing - {chat} else st.typing[chat := left]
        else st.typing;
      Transition(st.(typing := typing), [ToChatRoom(chat, from, UserStoppedTyping(chat, user))])
    case RegisterUser(user) => Transition(st.(sockets := st.sockets[user := from]), [])
    case CallInitiate(callId, caller, receiver, callerName, kind) =>
      Transition(st, SendTo(st, receiver, CallIncoming(callId, caller, callerName, kind)))
    case CallAnswer(callId, caller) => Transition(st, SendTo(st, caller, CallAnswered(callId)))
    case CallReject(callId, caller) => Transition(st, SendTo(st, caller, CallRejected(callId)))
    case CallEnd(callId, _, other) => Transition(st, SendTo(st, other, CallEnded(callId)))
    case CallOffer(callId, receiver, offer) => Transition(st, SendTo(st, receiver, OfferRelayed(callId, offer)))
    case CallAnswerSdp(callId, caller, answer) =>
      Transition(st, SendTo(st, caller, AnswerSdpRelayed(callId, answer)))
    case CallIceCandidate(callId, _, other, candidate) =>
      Transition(st, SendTo(st, other, IceCandidateRelayed(callId, candidate)))
    case Disconnect => Transition(st, [])
  }

  // ---------------------------------------------------------------------------
  // The routing table of the call events, stated on its own
  // ---------------------------------------------------------------------------

  /** The payload field whose user a call event is addressed to. */
  function RouteTarget(ev: Inbound): UserId
    requires IsCallEvent(ev)
  {
    match ev
    case CallInitiate(_, _, receiver, _, _) => receiver
    case CallOffer(_, receiver, _) => receiver
    case CallAnswer(_, caller) => caller
    case CallReject(_, caller) => caller
    case CallAnswerSdp(_, caller, _) => caller
    case CallEnd(_, _, other) => other
    case CallIceCandidate(_, _, other, _) => other
  }

  /** The event a call event becomes on the receiving side. */
  function Forwarded(ev: Inbound): Outbound
    requires IsCallEvent(ev)
  {
    match ev
    case CallInitiate(id, caller, _, name, kind) => CallIncoming(id, caller, name, kind)
    case CallOffer(id, _, offer) => OfferRelayed(id, offer)
    case CallAnswer(id, _) => CallAnswered(id)
    case CallReject(id, _) => CallRejected(id)
    case CallAnswerSdp(id, _, answer) => AnswerSdpRelayed(id, answer)
    case CallEnd(id, _, _) => CallEnded(id)
    case CallIceCandidate(id, _, _, candidate) => IceCandidateRelayed(id, candidate)
  }

  /** The call id an event carries. */
  function CallIdOf(ev: Inbound): string
    requires IsCallEvent(ev)
  {
    ev.callId
  }

  function OutboundCallId(m: Outbound): Option<string>
  {
    match m
    case CallIncoming(id, _, _, _) => Some(id)
    case CallAnswered(id) => Some(id)
    case CallRejected(id) => Some(id)
    case CallEnded(id) => Some(id)
    case OfferRelayed(id, _) => Some(id)
    case AnswerSdpRelayed(id, _) => Some(id)
    case IceCandidateRelayed(id, _) => Some(id)
    case _ => None
  }

  /**
   Every call event is delivered to the socket registered for its target
   field, as its forwarded form keeping the same call id, or to nobody at all
   when that user never registered; the registry and typing map are untouched.
   */
  lemma CallEventRouting(st: RelayState, from: SocketId, ev: Inbound)
    requires IsCallEvent(ev)
    ensures Step(st, from, ev).next == st
    ensures RouteTarget(ev) in st.sockets ==>
      Step(st, from, ev).out == [ToSocket(st.sockets[RouteTarget(ev)], Forwarded(ev))]
    ensures RouteTarget(ev) !in st.sockets ==> Step(st, from, ev).out == []
    ensures OutboundCallId(Forwarded(ev)) == Some(CallIdOf(ev))
  {
  }

  /**
   The forwarded payloads carry only the call id and content: the incoming
   notification names the caller, the call-state events carry nothing else.
   */
  lemma ForwardedPayloads(ev: Inbound)
    requires IsCallEvent(ev)
    ensures ev.CallInitiate? ==>
      Forwarded(ev) == CallIncoming(ev.callId, ev.callerId, ev.callerName, ev.callType)
    ensures ev.CallAnswer? ==> Forwarded(ev) == CallAnswered(ev.callId)
    ensures ev.CallReject? ==> Forwarded(ev) == CallRejected(ev.callId)
    ensures ev.CallEnd? ==> Forwarded(ev) == CallEnded(ev.callId)
  {
  }

  // ---------------------------------------------------------------------------
  // Presence registry
  // ---------------------------------------------------------------------------

  /** Registering binds the user to the sending socket, replacing any earlier socket. */
  lemma RegisterLastWriteWins(st: RelayState, from: SocketId, user: UserId)
    ensures Step(st, from, RegisterUser(user)).next.sockets[user] == from
    ensures forall u :: u != user ==>
      (u in Step(st, from, RegisterUser(user)).next.sockets <==> u in st.sockets)
    ensures forall u :: u != user && u in st.sockets ==>
      Step(st, from, RegisterUser(user)).next.sockets[u] == st.sockets[u]
    ensures Step(st, from, RegisterUser(user)).next.typing == st.typing
    ensures Step(st, from, RegisterUser(user)).out == []
  {
  }

  /** Registering twice from the same socket is the same as registering once. */
  lemma RegisterIdempotent(st: RelayState, from: SocketId, user: UserId)
    ensures var once := Step(st, from, RegisterUser(user)).next;
      Step(once, from, RegisterUser(user)).next == once
  {
  }

  /** A later registration from another socket takes over the user's calls. */
  lemma ReconnectRedirectsCalls(st: RelayState, first: SocketId, second: SocketId, user: UserId, callId: string)
    ensures var s1 := Step(st, first, RegisterUser(user)).next;
      var s2 := Step(s1, second, RegisterUser(user)).next;
      Step(s2, second, CallEnd(callId, "", user)).out == [ToSocket(second, CallEnded(callId))]
  {
  }

  /** A disconnect removes neither the registry entry nor any typing entry. */
  lemma DisconnectKeepsEverything(st: RelayState, from: SocketId)
    ensures Step(st, from, Disconnect) == Transition(st, [])
  {
  }

  // ---------------------------------------------------------------------------
  // Typing sets
  // ---------------------------------------------------------------------------

  /** `typing` adds the user to the chat's set, creating it when absent, and tells the room. */
  lemma TypingAdds(st: RelayState, from: SocketId, chat: ChatId, user: UserId, name: string)
    ensures var t := Step(st, from, Typing(chat, user, name));
      && chat in t.next.typing
      && t.next.typing[chat] == (if chat in st.typing then st.typing[chat] else {}) + {user}
      && (forall c :: c != chat ==> (c in t.next.typing <==> c in st.typing))
      && (forall c :: c != chat && c in st.typing ==> t.next.typing[c] == st.typing[c])
      && t.next.sockets == st.sockets
      && t.out == [ToChatRoom(chat, from, UserTyping(chat, user, name))]
  {
  }

  /** Repeating `typing` changes nothing further. */
  lemma TypingIdempotent(st: RelayState, from: SocketId, chat: ChatId, user: UserId, name: string)
    ensures var once := Step(st, from, Typing(chat, user, name)).next;
      Step(once, from, Typing(chat, user, name)).next == once
  {
  }

  /** `stopTyping` removes the user; a chat whose set becomes empty loses its key. */
  lemma StopTypingRemoves(st: RelayState, from: SocketId, chat: ChatId, user: UserId, name: string)
    ensures var t := Step(st, from, StopTyping(chat, user, name));
      && (chat in t.next.typing ==> user !in t.next.typing[chat])
      && (chat in t.next.typing <==> chat in st.typing && st.typing[chat] - {user} != {})
      && (chat in t.next.typing ==> t.next.typing[chat] == st.typing[chat] - {user})
      && (forall c :: c != chat ==> (c in t.next.typing <==> c in st.typing))
      && (forall c :: c != chat && c in st.typing ==> t.next.typing[c] == st.typing[c])
      && t.next.sockets == st.sockets
      && t.out == [ToChatRoom(chat, from, UserStoppedTyping(chat, user))]
  {
  }

  /** Every handler keeps the invariant that no stored typing set is empty. */
  lemma StepKeepsNoEmptyTypingSets(st: RelayState, from: SocketId, ev: Inbound)
    requires NoEmptyTypingSets(st)
    ensures NoEmptyTypingSets(Step(st, from, ev).next)
  {
  }

  /** A run of events, each tagged with the socket it arrived on. */
  function Run(st: RelayState, evs: seq<(SocketId, Inbound)>): (r: Transition)
    decreases |evs|
  {
    if |evs| == 0 then Transition(st, [])
    else
      var t := Step(st, evs[0].0, evs[0].1);
      var rest := Run(t.next, evs[1..]);
      Transition(rest.next, t.out + rest.out)
  }

  /** From the empty start state no run ever stores an empty typing set. */
  lemma {:induction false} RunKeepsNoEmptyTypingSets(st: RelayState, evs: seq<(SocketId, Inbound)>)
    requires NoEmptyTypingSets(st)
    ensures NoEmptyTypingSets(Run(st, evs).next)
    decreases |evs|
  {
    if |evs| > 0 {
      StepKeepsNoEmptyTypingSets(st, evs[0].0, evs[0].1);
      RunKeepsNoEmptyTypingSets(Step(st, evs[0].0, evs[0].1).next, evs[1..]);
    }
  }

  /** Call events alone never change the server state, however many are relayed. */
  lemma {:induction false} CallEventsLeaveStateAlone(st: RelayState, evs: seq<(SocketId, Inbound)>)
    requires forall k :: 0 <= k < |evs| ==> IsCallEvent(evs[k].1)
    ensures Run(st, evs).next == st
    decreases |evs|
  {
    if |evs| > 0 {
      CallEventRouting(st, evs[0].0, evs[0].1);
      CallEventsLeaveStateAlone(st, evs[1..]);
    }
  }
}
