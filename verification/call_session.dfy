/**
 The client's call provider as one transition function. The state holds
 the fields the provider keeps (in-call flag, direction, other party, call
 id, whether a peer connection object exists, the pending incoming call)
 and the ring timers: every incoming notification arms a 30 s timer whose
 callback captured that notification, and `timerRef` names only the most
 recently armed one. Asynchronous results (media access, offer creation)
 arrive as fields of the event that started them; every emit to the relay,
 every call record handed to the history store and every operation on the
 peer connection is an effect in the output list.
 */
module CallSession {
  import opened Base
  import opened Domain
  import Relay

  /** Delay of the ring timer armed by an incoming notification. */
  const RingTimeoutMs: nat := 30000

  datatype Party = Party(id: Id, name: string)

  /** The `call:incoming` payload. */
  datatype IncomingCall = IncomingCall(callId: string, callerId: Id, callerName: string, kind: CallKind)

  /** An armed ring timer: the notification its callback captured, and when it fires. */
  datatype RingTimer = RingTimer(call: IncomingCall, due: Millis)

  /** What `saveCallMessage` is asked to store: the other user and the call metadata. */
  datatype CallRecord = CallRecord(otherUserId: Id, meta: CallMetadata)

  datatype Effect =
    | Emit(ev: Relay.Inbound)
    | Save(rec: CallRecord)
    | SetRemoteDescription(sdp: string)
    | AddIceCandidate(candidate: string)
    | ClosePeer

  datatype Session = Session(
    hasSocket: bool,
    me: Option<Party>,
    inCall: bool,
    kind: Option<CallKind>,
    isOutgoing: bool,
    otherUser: Option<Party>,
    localStream: bool,
    remoteStream: bool,
    callId: Option<string>,
    peer: bool,
    incoming: Option<IncomingCall>,
    timers: map<nat, RingTimer>,
    timerRef: Option<nat>,
    nextTimer: nat)

  /** How the asynchronous part of `initiateCall` ends. */
  datatype Setup = MediaDenied | OfferFailed | Offered(offer: string)

  datatype Event =
    | Notified(call: IncomingCall, now: Millis)
    | RingTimeout(handle: nat, now: Millis)
    | Initiate(calleeId: Id, calleeName: string, kind: CallKind, startedAt: nat, setup: Setup)
    | Accept(mediaOk: bool)
    | Decline
    | HangUp(duration: nat)
    | RemoteAnswered
    | RemoteRejected
    | RemoteEnded
    | RemoteOffer(callId: string, offer: string, answer: string)
    | RemoteAnswerSdp(callId: string, answer: string)
    | RemoteCandidate(callId: string, candidate: string)
    | RemoteStreamArrived
    | LocalCandidate(candidate: string)

  datatype Transition = Transition(next: Session, out: seq<Effect>)

  /** A provider with no call, no pending notification and no timer. */
  function Idle(hasSocket: bool, me: Option<Party>): Session
  {
    Session(hasSocket, me, false, None, false, None, false, false, None, false, None, map[], None, 0)
  }

  /** The fields the provider keeps consistent with each other. */
  ghost predicate Consistent(s: Session)
  {
    && (s.peer <==> s.inCall)
    && (s.peer ==> s.callId.Some? && s.otherUser.Some? && s.kind.Some?)
    && (!s.peer ==> s.callId.None? && s.otherUser.None? && s.kind.None?
                    && !s.localStream && !s.remoteStream && !s.isOutgoing)
    && (forall h :: h in s.timers ==> h < s.nextTimer)
  }

  /** The id the caller mints: its own id, the callee's id and the current time, joined by dashes. */
  function CallIdFor(callerId: Id, calleeId: Id, now: nat): string
  {
    callerId + "-" + calleeId + "-" + NatToString(now)
  }

  /** `clearTimeout(callTimeoutRef.current)`: disarms only the most recent timer. */
  function CancelRingTimer(s: Session): (r: Session)
    ensures s.timerRef.Some? ==> s.timerRef.value !in r.timers
    ensures forall h :: h in r.timers <==> h in s.timers && Some(h) != s.timerRef
    ensures forall h :: h in r.timers ==> r.timers[h] == s.timers[h]
    ensures r.(timers := s.timers) == s
  {
    if s.timerRef.Some? then s.(timers := s.timers - {s.timerRef.value}) else s
  }

  /** `saveCallMessage` stores nothing when no user is signed in. */
  function SaveFor(s: Session, rec: CallRecord): (out: seq<Effect>)
    ensures s.me.Some? ==> out == [Save(rec)]
    ensures s.me.None? ==> out == []
  {
    if s.me.Some? then [Save(rec)] else []
  }

  /** How `endCall(duration)` classifies the finished call. */
  function EndOutcome(kind: Option<CallKind>, duration: nat, isOutgoing: bool): (m: CallMetadata)
    ensures m.status == Completed <==> duration > 0
    ensures m.status == Cancelled <==> duration == 0
    ensures m.duration == duration
    ensures m.isOutgoing == isOutgoing
    ensures m.kind == (if kind.Some? then kind.value else AudioCall)
  {
    var k := if kind.Some? then kind.value else AudioCall;
    if duration > 0 then CallMetadata(k, duration, Completed, isOutgoing)
    else CallMetadata(k, 0, Cancelled, isOutgoing)
  }

  /** Every session field back to its initial value; timers and identity are kept. */
  function Reset(s: Session): Session
  {
    s.(inCall := false, kind := None, isOutgoing := false, otherUser := None, localStream := false,
       remoteStream := false, callId := None, peer := false, incoming := None)
  }

  /**
   `endCall(duration)`: tell the other side and record the outcome when a call
   id, another party and a signed-in user are all known; always close the peer
   and reset the session.
   */
  function EndCall(s: Session, duration: nat): Transition
  {
    var announce := s.hasSocket && s.callId.Some? && s.otherUser.Some? && s.me.Some?;
    var told :=
      if announce then
        [Emit(Relay.CallEnd(s.callId.value, s.me.value.id, s.otherUser.value.id)),
         Save(CallRecord(s.otherUser.value.id, EndOutcome(s.kind, duration, s.isOutgoing)))]
      else [];
    Transition(Reset(s), told + (if s.peer then [ClosePeer] else []))
  }

  /**
   The `endCall` that a failed `initiateCall` or `answerCall` reaches. Those
   callbacks are memoised without `endCall` among their dependencies, so they
   hold the `endCall` of the render that created them, when the attempt had
   not begun: its guard and its peer close see the provider as it was before
   the attempt (`captured`), while its state resets act on the live provider.
   */
  function EndCallCaptured(captured: Session, live: Session): Transition
  {
    Transition(Reset(live), EndCall(captured, 0).out)
  }

  function Step(s: Session, ev: Event): Transition
  {
    match ev
    case Notified(call, now) =>
      var h := s.nextTimer;
      Transition(s.(incoming := Some(call), timers := s.timers[h := RingTimer(call, now + RingTimeoutMs)],
                    timerRef := Some(h), nextTimer := h + 1), [])
    case RingTimeout(h, now) =>
      if h in s.timers && now >= s.timers[h].due then
        var c := s.timers[h].call;
        if s.hasSocket then
          Transition(s.(timers := s.timers - {h}, incoming := None),
                     [Emit(Relay.CallReject(c.callId, c.callerId))]
                     + SaveFor(s, CallRecord(c.callerId, CallMetadata(c.kind, 0, Missed, false))))
        else Transition(s.(timers := s.timers - {h}), [])
      else Transition(s, [])
    case Initiate(callee, name, kind, now, setup) =>
      if !s.hasSocket || s.me.None? then Transition(s, [])
      else
        var me := s.me.value;
        var id := CallIdFor(me.id, callee, now);
        var started := s.(callId := Some(id), kind := Some(kind), isOutgoing := true,
                          otherUser := Some(Party(callee, name)), inCall := true, peer := true);
        var announce := Emit(Relay.CallInitiate(id, me.id, callee, me.name, kind));
        (match setup
         case MediaDenied => EndCallCaptured(s, started)
         case OfferFailed =>
           var t := EndCallCaptured(s, started.(localStream := true));
           Transition(t.next, [announce] + t.out)
         case Offered(offer) =>
           Transition(started.(localStream := true), [announce, Emit(Relay.CallOffer(id, callee, offer))]))
    case Accept(mediaOk) =>
      if !s.hasSocket || s.me.None? || s.incoming.None? then Transition(s, [])
      else
        var c := s.incoming.value;
        var started := CancelRingTimer(s).(
          callId := Some(c.callId), kind := Some(c.kind), isOutgoing := false,
          otherUser := Some(Party(c.callerId, c.callerName)), inCall := true, incoming := None, peer := true);
        if mediaOk then
          Transition(started.(localStream := true), [Emit(Relay.CallAnswer(c.callId, c.callerId))])
        else EndCallCaptured(s, started)
    case Decline =>
      if !s.hasSocket || s.incoming.None? then Transition(s, [])
      else
        var c := s.incoming.value;
        Transition(CancelRingTimer(s).(incoming := None),
                   [Emit(Relay.CallReject(c.callId, c.callerId))]
                   + SaveFor(s, CallRecord(c.callerId, CallMetadata(c.kind, 0, Rejected, false))))
    case HangUp(duration) => EndCall(s, duration)
    case RemoteAnswered => Transition(CancelRingTimer(s), [])
    case RemoteRejected => EndCall(CancelRingTimer(s), 0)
    case RemoteEnded => EndCall(s, 0)
    case RemoteOffer(id, offer, answer) =>
      if !s.peer then Transition(s, [])
      else if s.otherUser.Some? then
        Transition(s, [SetRemoteDescription(offer), Emit(Relay.CallAnswerSdp(id, s.otherUser.value.id, answer))])
      // A peer without another party cannot arise from the handlers (see
      // Consistent); the client would send the answer with no caller id,
      // which the relay cannot deliver, so no emit is modelled here.
      else Transition(s, [SetRemoteDescription(offer)])
    case RemoteAnswerSdp(_, answer) =>
      if s.peer then Transition(s, [SetRemoteDescription(answer)]) else Transition(s, [])
    case RemoteCandidate(_, candidate) =>
      if s.peer then Transition(s, [AddIceCandidate(candidate)]) else Transition(s, [])
    case RemoteStreamArrived =>
      if s.peer then Transition(s.(remoteStream := true), []) else Transition(s, [])
    case LocalCandidate(candidate) =>
      if s.peer && s.callId.Some? && s.otherUser.Some? && s.me.Some? then
        Transition(s, [Emit(Relay.CallIceCandidate(s.callId.value, s.me.value.id, s.otherUser.value.id, candidate))])
      else Transition(s, [])
  }

  /** A run of events; the effects of each step follow those of the previous one. */
  function Run(s: Session, evs: seq<Event>): Transition
    decreases |evs|
  {
    if |evs| == 0 then Transition(s, [])
    else
      var t := Step(s, evs[0]);
      var rest := Run(t.next, evs[1..]);
      Transition(rest.next, t.out + rest.out)
  }

  // ---------------------------------------------------------------------------
  // Invariant
  // ---------------------------------------------------------------------------

  lemma EndCallIsIdle(s: Session, duration: nat)
    requires Consistent(s)
    ensures Consistent(EndCall(s, duration).next)
    ensures !EndCall(s, duration).next.peer && EndCall(s, duration).next.incoming.None?
  {
  }

  /** Every handler keeps the session fields consistent. */
  lemma StepKeepsConsistent(s: Session, ev: Event)
    requires Consistent(s)
    ensures Consistent(Step(s, ev).next)
  {
    match ev
    case Initiate(callee, name, kind, now, setup) => InitiateKeepsConsistent(s, callee, name, kind, now, setup);
    case Accept(mediaOk) => AcceptKeepsConsistent(s, mediaOk);
    case HangUp(d) => EndCallIsIdle(s, d);
    case RemoteRejected => EndCallIsIdle(CancelRingTimer(s), 0);
    case RemoteEnded => EndCallIsIdle(s, 0);
    case Notified(_, _) => TimersKeepConsistent(s, ev);
    case RingTimeout(_, _) => TimersKeepConsistent(s, ev);
    case Decline => TimersKeepConsistent(s, ev);
    case RemoteAnswered => TimersKeepConsistent(s, ev);
    case _ => SignalsKeepConsistent(s, ev);
  }

  lemma InitiateKeepsConsistent(s: Session, callee: Id, name: string, kind: CallKind, now: nat, setup: Setup)
    requires Consistent(s)
    ensures Consistent(Step(s, Initiate(callee, name, kind, now, setup)).next)
  {
    if s.hasSocket && s.me.Some? {
      var started := s.(callId := Some(CallIdFor(s.me.value.id, callee, now)), kind := Some(kind),
                        isOutgoing := true, otherUser := Some(Party(callee, name)), inCall := true, peer := true);
      EndCallIsIdle(started, 0);
      EndCallIsIdle(started.(localStream := true), 0);
    }
  }

  lemma AcceptKeepsConsistent(s: Session, mediaOk: bool)
    requires Consistent(s)
    ensures Consistent(Step(s, Accept(mediaOk)).next)
  {
    if s.hasSocket && s.me.Some? && s.incoming.Some? {
      var c := s.incoming.value;
      var started := CancelRingTimer(s).(
        callId := Some(c.callId), kind := Some(c.kind), isOutgoing := false,
        otherUser := Some(Party(c.callerId, c.callerName)), inCall := true, incoming := None, peer := true);
      EndCallIsIdle(started, 0);
    }
  }

  /** The ring-timer handlers touch only the notification and the timers. */
  lemma TimersKeepConsistent(s: Session, ev: Event)
    requires Consistent(s)
    requires ev.Notified? || ev.RingTimeout? || ev.Decline? || ev.RemoteAnswered?
    ensures Consistent(Step(s, ev).next)
  {
  }

  /** The signalling handlers touch at most the remote stream, and only with a peer. */
  lemma SignalsKeepConsistent(s: Session, ev: Event)
    requires Consistent(s)
    requires ev.RemoteOffer? || ev.RemoteAnswerSdp? || ev.RemoteCandidate? || ev.RemoteStreamArrived? || ev.LocalCandidate?
    ensures Consistent(Step(s, ev).next)
  {
  }

  lemma {:induction false} RunKeepsConsistent(s: Session, evs: seq<Event>)
    requires Consistent(s)
    ensures Consistent(Run(s, evs).next)
    decreases |evs|
  {
    if |evs| > 0 {
      StepKeepsConsistent(s, evs[0]);
      RunKeepsConsistent(Step(s, evs[0]).next, evs[1..]);
    }
  }

  // ---------------------------------------------------------------------------
  // Ring timer
  // ---------------------------------------------------------------------------

  /**
   A notification stores the call and arms a fresh 30 s timer that the ref now
   names; earlier timers stay armed, so a second notification does not cancel
   the first one's timer.
   */
  lemma NotifiedArmsTimer(s: Session, call: IncomingCall, now: Millis)
    requires Consistent(s)
    ensures var n := Step(s, Notified(call, now)).next;
      && n.incoming == Some(call)
      && n.timerRef == Some(s.nextTimer)
      && s.nextTimer in n.timers && s.nextTimer !in s.timers
      && n.timers[s.nextTimer] == RingTimer(call, now + 30000)
      && (forall h :: h in s.timers ==> h in n.timers && n.timers[h] == s.timers[h])
      && Step(s, Notified(call, now)).out == []
  {
  }

  /** A timer never fires before its 30 s are up. */
  lemma TimerNeverFiresEarly(s: Session, h: nat, now: Millis)
    requires h in s.timers && now < s.timers[h].due
    ensures Step(s, RingTimeout(h, now)) == Transition(s, [])
  {
  }

  /**
   When an armed timer fires it sends exactly one `call:reject` to the caller
   it captured, records a missed incoming call of duration 0 and clears the
   pending call, whichever call is pending by then.
   */
  lemma TimeoutMissesCall(s: Session, h: nat, now: Millis)
    requires s.hasSocket && s.me.Some?
    requires h in s.timers && now >= s.timers[h].due
    ensures var c := s.timers[h].call;
      var t := Step(s, RingTimeout(h, now));
      && t.out == [Emit(Relay.CallReject(c.callId, c.callerId)),
                   Save(CallRecord(c.callerId, CallMetadata(c.kind, 0, Missed, false)))]
      && t.next.incoming.None?
      && h !in t.next.timers
  {
  }

  /**
   The first notification's timer survives a second notification: when it
   fires it rejects the first caller and dismisses the second, still pending,
   call.
   */
  lemma StaleTimerDismissesNewerCall(s: Session, c1: IncomingCall, c2: IncomingCall, t1: Millis, t2: Millis, now: Millis)
    requires Consistent(s) && s.hasSocket
    requires now >= t1 + RingTimeoutMs
    ensures var s1 := Step(s, Notified(c1, t1)).next;
      var s2 := Step(s1, Notified(c2, t2)).next;
      var t := Step(s2, RingTimeout(s.nextTimer, now));
      && s2.incoming == Some(c2)
      && t.next.incoming.None?
      && t.out[0] == Emit(Relay.CallReject(c1.callId, c1.callerId))
  {
  }

  /** The ring timer fires at most once. */
  lemma TimerFiresOnce(s: Session, h: nat, now: Millis, later: Millis)
    ensures var n := Step(s, RingTimeout(h, now)).next;
      h in s.timers && now >= s.timers[h].due ==> Step(n, RingTimeout(h, later)) == Transition(n, [])
  {
  }

  // ---------------------------------------------------------------------------
  // Local actions
  // ---------------------------------------------------------------------------

  /**
   Accepting cancels the pending call's timer (so it can never fire), takes the
   caller as the other party of an incoming call, clears the pending call, and
   emits `call:answer` only once media access succeeded. When media access
   fails with no call in progress, the caller is told nothing and nothing is
   recorded: the `endCall` reached saw no call yet.
   */
  lemma AcceptOutcome(s: Session, mediaOk: bool, later: Millis)
    requires s.hasSocket && s.me.Some? && s.incoming.Some? && s.timerRef.Some?
    requires s.timerRef.value in s.timers && s.incoming == Some(s.timers[s.timerRef.value].call)
    ensures var c := s.incoming.value;
      var t := Step(s, Accept(mediaOk));
      && s.timerRef.value !in t.next.timers
      && Step(t.next, RingTimeout(s.timerRef.value, later)).out == []
      && t.next.incoming.None?
      && (mediaOk ==>
            && t.out == [Emit(Relay.CallAnswer(c.callId, c.callerId))]
            && t.next.inCall && !t.next.isOutgoing
            && t.next.otherUser == Some(Party(c.callerId, c.callerName))
            && t.next.callId == Some(c.callId))
      && (!mediaOk ==> Emit(Relay.CallAnswer(c.callId, c.callerId)) !in t.out && !t.next.inCall && !t.next.peer)
      && (!mediaOk && !s.peer && s.callId.None? ==> t.out == [])
  {
  }

  /** Without a pending call, accept and decline do nothing. */
  lemma NoPendingCallNoop(s: Session, mediaOk: bool)
    requires s.incoming.None?
    ensures Step(s, Accept(mediaOk)) == Transition(s, [])
    ensures Step(s, Decline) == Transition(s, [])
  {
  }

  /** Declining cancels the timer, rejects to the caller and records a declined incoming call. */
  lemma DeclineOutcome(s: Session)
    requires s.hasSocket && s.me.Some? && s.incoming.Some?
    ensures var c := s.incoming.value;
      var t := Step(s, Decline);
      && t.out == [Emit(Relay.CallReject(c.callId, c.callerId)),
                   Save(CallRecord(c.callerId, CallMetadata(c.kind, 0, Rejected, false)))]
      && t.next.incoming.None?
      && (s.timerRef.Some? ==> s.timerRef.value !in t.next.timers)
      && t.next.inCall == s.inCall
  {
  }

  /**
   Hanging up with duration d records a completed call of d seconds when d > 0
   and a cancelled call of 0 seconds otherwise, in the session's direction;
   `call:end` and the record are produced only when the call id, the other
   party and the signed-in user are all known. The peer is always closed and
   every session field reset.
   */
  lemma HangUpOutcome(s: Session, d: nat)
    ensures var t := Step(s, HangUp(d));
      && !t.next.inCall && !t.next.peer && t.next.callId.None? && t.next.otherUser.None?
      && t.next.incoming.None? && t.next.kind.None? && !t.next.isOutgoing
      && !t.next.localStream && !t.next.remoteStream
      && (ClosePeer in t.out <==> s.peer)
      && (forall r :: Save(r) in t.out ==>
            && (r.meta.status == Completed <==> d > 0)
            && (r.meta.status == Cancelled <==> d == 0)
            && r.meta.duration == d && r.meta.isOutgoing == s.isOutgoing)
      && ((exists r :: Save(r) in t.out) <==>
            s.hasSocket && s.callId.Some? && s.otherUser.Some? && s.me.Some?)
  {
    var t := Step(s, HangUp(d));
    if s.hasSocket && s.callId.Some? && s.otherUser.Some? && s.me.Some? {
      assert t.out[1] == Save(CallRecord(s.otherUser.value.id, EndOutcome(s.kind, d, s.isOutgoing)));
    }
  }

  /**
   Starting a call emits `call:initiate` strictly before `call:offer`, both
   carrying the id `caller-callee-timestamp`.
   */
  lemma InitiateEmitsInOrder(s: Session, callee: Id, name: string, kind: CallKind, now: nat, offer: string)
    requires s.hasSocket && s.me.Some?
    ensures var id := s.me.value.id + "-" + callee + "-" + NatToString(now);
      var t := Step(s, Initiate(callee, name, kind, now, Offered(offer)));
      && t.out == [Emit(Relay.CallInitiate(id, s.me.value.id, callee, s.me.value.name, kind)),
                   Emit(Relay.CallOffer(id, callee, offer))]
      && t.next.inCall && t.next.isOutgoing && t.next.callId == Some(id)
      && t.next.otherUser == Some(Party(callee, name))
  {
  }

  /**
   A failed start from a provider with no call in progress resets the
   session but tells nobody: the `endCall` it reaches saw no call id and no
   other party, so no `call:end` is sent and no record is saved, and it saw no
   peer, so the new peer connection is never closed. When the offer failed,
   `call:initiate` is already out, so the callee rings until its own timer.
   */
  lemma InitiateFailureSilent(s: Session, callee: Id, name: string, kind: CallKind, now: nat, setup: Setup)
    requires Consistent(s) && !s.peer
    requires s.hasSocket && s.me.Some? && !setup.Offered?
    ensures var id := CallIdFor(s.me.value.id, callee, now);
      var t := Step(s, Initiate(callee, name, kind, now, setup));
      && !t.next.inCall && !t.next.peer && t.next.callId.None? && t.next.otherUser.None?
      && t.out == (if setup == OfferFailed then [Emit(Relay.CallInitiate(id, s.me.value.id, callee, s.me.value.name, kind))] else [])
      && ClosePeer !in t.out
      && (forall r :: Save(r) !in t.out)
  {
  }

  /** Different start times give different call ids between the same two users. */
  lemma CallIdsDifferOverTime(caller: Id, callee: Id, t1: nat, t2: nat)
    requires t1 != t2
    ensures CallIdFor(caller, callee, t1) != CallIdFor(caller, callee, t2)
  {
    var p := caller + "-" + callee + "-";
    if CallIdFor(caller, callee, t1) == CallIdFor(caller, callee, t2) {
      assert NatToString(t1) == CallIdFor(caller, callee, t1)[|p|..];
      assert NatToString(t2) == CallIdFor(caller, callee, t2)[|p|..];
      NatToStringInjective(t1, t2);
    }
  }

  /** The id format is ambiguous when user ids may contain '-'. */
  lemma CallIdsCanCollide()
    ensures CallIdFor("a-b", "c", 1) == CallIdFor("a", "b-c", 1)
  {
  }

  // ---------------------------------------------------------------------------
  // Remote signals
  // ---------------------------------------------------------------------------

  /**
   Remote offers, answers and candidates are applied only when a peer
   connection exists; otherwise they are dropped, nothing is buffered.
   */
  lemma SignalsWithoutPeerDropped(s: Session, id: string, sdp: string, answer: string, candidate: string)
    requires !s.peer
    ensures Step(s, RemoteOffer(id, sdp, answer)) == Transition(s, [])
    ensures Step(s, RemoteAnswerSdp(id, sdp)) == Transition(s, [])
    ensures Step(s, RemoteCandidate(id, candidate)) == Transition(s, [])
  {
  }

  /** With a peer, the signals are applied whatever call id they carry. */
  lemma SignalsWithPeerApplied(s: Session, id: string, sdp: string, answer: string, candidate: string)
    requires Consistent(s) && s.peer
    ensures Step(s, RemoteOffer(id, sdp, answer)).out ==
      [SetRemoteDescription(sdp), Emit(Relay.CallAnswerSdp(id, s.otherUser.value.id, answer))]
    ensures Step(s, RemoteAnswerSdp(id, sdp)).out == [SetRemoteDescription(sdp)]
    ensures Step(s, RemoteCandidate(id, candidate)).out == [AddIceCandidate(candidate)]
  {
  }

  /**
   A candidate that arrives while the call is still ringing is lost: after
   accepting, no candidate has been handed to the peer connection.
   */
  lemma EarlyCandidateLost(s: Session, call: IncomingCall, now: Millis, candidate: string)
    requires Consistent(s) && !s.peer && s.hasSocket && s.me.Some?
    ensures var t := Run(s, [Notified(call, now), RemoteCandidate(call.callId, candidate), Accept(true)]);
      && AddIceCandidate(candidate) !in t.out
      && t.next.peer
  {
    var evs := [Notified(call, now), RemoteCandidate(call.callId, candidate), Accept(true)];
    var t1 := Step(s, evs[0]);
    var s1 := t1.next;
    assert AddIceCandidate(candidate) !in t1.out;
    assert Step(s1, evs[1]) == Transition(s1, []);
    var t3 := Step(s1, evs[2]);
    assert t3.out == [Emit(Relay.CallAnswer(call.callId, call.callerId))];
    var tail := evs[1..];
    assert tail == [RemoteCandidate(call.callId, candidate), Accept(true)];
    RunTwo(s1, tail);
    assert Run(s, evs) == Transition(t3.next, t1.out + ([] + t3.out));
  }

  /**
   A remote reject or remote end goes through `endCall()` with no duration,
   so it is recorded as cancelled, even after media has flowed.
   */
  lemma RemoteEndRecordsCancelled(s: Session, ev: Event)
    requires ev == RemoteRejected || ev == RemoteEnded
    requires s.hasSocket && s.callId.Some? && s.otherUser.Some? && s.me.Some?
    ensures var t := Step(s, ev);
      && t.out[0] == Emit(Relay.CallEnd(s.callId.value, s.me.value.id, s.otherUser.value.id))
      && t.out[1] == Save(CallRecord(s.otherUser.value.id, EndOutcome(s.kind, 0, s.isOutgoing)))
      && t.out[1].rec.meta.status == Cancelled
      && !t.next.inCall
  {
  }

  lemma RunTwo(s: Session, evs: seq<Event>)
    requires |evs| == 2
    ensures var t1 := Step(s, evs[0]); var t2 := Step(t1.next, evs[1]);
      Run(s, evs) == Transition(t2.next, t1.out + t2.out)
  {
    var t1 := Step(s, evs[0]);
    var t2 := Step(t1.next, evs[1]);
    assert evs[1..][1..] == [];
    assert Run(t1.next, evs[1..]) == Transition(t2.next, t2.out + []);
    assert t2.out + [] == t2.out;
  }

  // ---------------------------------------------------------------------------
  // Whole calls
  // ---------------------------------------------------------------------------

  /**
   An unanswered notification: 30 s later exactly one reject goes to the
   caller and a missed incoming call is recorded.
   */
  lemma UnansweredCallIsMissed(me: Party, call: IncomingCall, t0: Millis)
    ensures var t := Run(Idle(true, Some(me)), [Notified(call, t0), RingTimeout(0, t0 + 30000)]);
      && t.out == [Emit(Relay.CallReject(call.callId, call.callerId)),
                   Save(CallRecord(call.callerId, CallMetadata(call.kind, 0, Missed, false)))]
      && t.next.incoming.None? && t.next.timers == map[]
  {
    var evs := [Notified(call, t0), RingTimeout(0, t0 + 30000)];
    var s1 := Step(Idle(true, Some(me)), evs[0]).next;
    assert s1.timers == map[0 := RingTimer(call, t0 + 30000)];
    assert s1.timers - {0} == map[];
    RunTwo(Idle(true, Some(me)), evs);
  }

  /**
   A call placed, answered and connected, then hung up after 42 s, is recorded
   by the caller as a completed outgoing call of 42 s.
   */
  lemma PlacedCallCompletes(me: Party, callee: Id, name: string, kind: CallKind, now: nat, offer: string, answer: string)
    ensures var id := CallIdFor(me.id, callee, now);
      var t := Run(Idle(true, Some(me)),
        [Initiate(callee, name, kind, now, Offered(offer)), RemoteAnswered,
         RemoteAnswerSdp(id, answer), RemoteStreamArrived, HangUp(42)]);
      && Save(CallRecord(callee, CallMetadata(kind, 42, Completed, true))) in t.out
      && !t.next.inCall
  {
    var id := CallIdFor(me.id, callee, now);
    var s0 := Idle(true, Some(me));
    var s1 := Step(s0, Initiate(callee, name, kind, now, Offered(offer))).next;
    var s2 := Step(s1, RemoteAnswered).next;
    var s3 := Step(s2, RemoteAnswerSdp(id, answer)).next;
    var s4 := Step(s3, RemoteStreamArrived).next;
    var last := Step(s4, HangUp(42));
    assert last.out[1] == Save(CallRecord(callee, CallMetadata(kind, 42, Completed, true)));
    var evs := [Initiate(callee, name, kind, now, Offered(offer)), RemoteAnswered,
                RemoteAnswerSdp(id, answer), RemoteStreamArrived, HangUp(42)];
    assert Run(s4, evs[4..]) == last by {
      assert evs[4..] == [HangUp(42)];
      assert evs[4..][1..] == [];
    }
    assert evs[3..][1..] == evs[4..];
    assert evs[2..][1..] == evs[3..];
    assert evs[1..][1..] == evs[2..];
    assert Run(s3, evs[3..]).out == Step(s3, RemoteStreamArrived).out + last.out;
    assert Run(s2, evs[2..]).out == Step(s2, RemoteAnswerSdp(id, answer)).out + Run(s3, evs[3..]).out;
    assert Run(s1, evs[1..]).out == Step(s1, RemoteAnswered).out + Run(s2, evs[2..]).out;
    assert Run(s0, evs).out == Step(s0, evs[0]).out + Run(s1, evs[1..]).out;
    assert Run(s0, evs).next == last.next;
  }
}
