/**
 How the client presents finished calls: the call-history panel of the chat
 header (newest 50 call messages, a missed badge), the calls view (every
 call message, searchable by chat name) and the call bubble inside a chat
 (title, subtitle, call-back). All three read the call metadata that
 `endCall`, the ring timer and `rejectCall` store.
 */
module CallText {
  import opened Base
  import opened Domain
  import Sorting
  import TimeText
  import CallSession
  import Relay

  /** A message as the client holds it. */
  datatype ClientMessage = ClientMessage(id: Id, kind: MessageType, timestamp: Millis, call: Option<CallMetadata>)

  /** A chat as the client lists it: its id, the other participant's id and name. */
  datatype ClientChat = ClientChat(id: Id, participantId: Id, participantName: string)

  /** A call message labelled with the name of the chat it belongs to. */
  datatype CallEntry = CallEntry(msg: ClientMessage, chatName: string)

  datatype Icon = PhoneIcon | MissedIcon | VideoIcon | OutgoingIcon | IncomingIcon

  /** The chat's loaded messages, or none when nothing is loaded for it. */
  function MessagesOf(messages: map<Id, seq<ClientMessage>>, chatId: Id): seq<ClientMessage>
  {
    if chatId in messages then messages[chatId] else []
  }

  predicate IsCallMessage(m: ClientMessage)
  {
    m.kind == Call
  }

  /** One chat's call messages, labelled with the participant's name, in message order. */
  function ChatCalls(chat: ClientChat, msgs: seq<ClientMessage>): (r: seq<CallEntry>)
    ensures forall e :: e in r <==> e.chatName == chat.participantName && e.msg in msgs && IsCallMessage(e.msg)
  {
    var calls := Filter(msgs, IsCallMessage);
    var r := Map(calls, (m: ClientMessage) => CallEntry(m, chat.participantName));
    assert forall e :: e in r ==> exists k :: 0 <= k < |calls| && e == CallEntry(calls[k], chat.participantName);
    assert forall m :: m in calls ==> CallEntry(m, chat.participantName) in r by {
      forall m | m in calls
        ensures CallEntry(m, chat.participantName) in r
      {
        var k :| 0 <= k < |calls| && calls[k] == m;
        assert r[k] == CallEntry(m, chat.participantName);
      }
    }
    r
  }

  /** `e` is a call message of `chat`, labelled with its participant's name. */
  predicate OfChat(e: CallEntry, chat: ClientChat, messages: map<Id, seq<ClientMessage>>)
  {
    e.chatName == chat.participantName && e.msg in MessagesOf(messages, chat.id) && IsCallMessage(e.msg)
  }

  /** Every chat's call messages, chat by chat, before sorting. */
  function Collect(chats: seq<ClientChat>, messages: map<Id, seq<ClientMessage>>): (r: seq<CallEntry>)
    ensures forall e :: e in r ==> IsCallMessage(e.msg)
    ensures forall e :: e in r <==> exists i :: 0 <= i < |chats| && OfChat(e, chats[i], messages)
    decreases |chats|
  {
    if |chats| == 0 then []
    else
      var head := ChatCalls(chats[0], MessagesOf(messages, chats[0].id));
      var rest := Collect(chats[1..], messages);
      CollectCons(chats, messages, head, rest);
      head + rest
  }

  /** The members of one chat's calls followed by the later chats' calls. */
  lemma CollectCons(chats: seq<ClientChat>, messages: map<Id, seq<ClientMessage>>, head: seq<CallEntry>, rest: seq<CallEntry>)
    requires |chats| > 0
    requires forall e :: e in head <==> OfChat(e, chats[0], messages)
    requires forall e :: e in rest <==> exists i :: 0 <= i < |chats[1..]| && OfChat(e, chats[1..][i], messages)
    ensures forall e :: e in head + rest <==> exists i :: 0 <= i < |chats| && OfChat(e, chats[i], messages)
  {
    forall e | e in head + rest
      ensures exists i :: 0 <= i < |chats| && OfChat(e, chats[i], messages)
    {
      if e in head {
        assert OfChat(e, chats[0], messages);
      } else {
        var j :| 0 <= j < |chats[1..]| && OfChat(e, chats[1..][j], messages);
        assert chats[1..][j] == chats[j + 1];
        assert OfChat(e, chats[j + 1], messages);
      }
    }
    forall e, i | 0 <= i < |chats| && OfChat(e, chats[i], messages)
      ensures e in head + rest
    {
      if i > 0 {
        assert chats[1..][i - 1] == chats[i];
        assert e in rest;
      } else {
        assert e in head;
      }
    }
  }

  /** Newest first: `a` may come before `b` when it is not older. */
  function NewerFirst(a: CallEntry, b: CallEntry): bool
  {
    a.msg.timestamp >= b.msg.timestamp
  }

  lemma NewerFirstIsPreorder()
    ensures Sorting.TotalPreorder(NewerFirst)
  {
  }

  /** The calls view: every call message, newest first. */
  function CallsViewList(chats: seq<ClientChat>, messages: map<Id, seq<ClientMessage>>): (r: seq<CallEntry>)
    ensures multiset(r) == multiset(Collect(chats, messages))
    ensures forall e :: e in r ==> IsCallMessage(e.msg)
  {
    var r := Sorting.SortBy(Collect(chats, messages), NewerFirst);
    assert forall e :: e in r ==> e in multiset(Collect(chats, messages));
    r
  }

  /** The history panel: the newest 50 call messages. */
  function HistoryList(chats: seq<ClientChat>, messages: map<Id, seq<ClientMessage>>): (r: seq<CallEntry>)
    ensures |r| == if |Collect(chats, messages)| < 50 then |Collect(chats, messages)| else 50
    ensures r == CallsViewList(chats, messages)[..|r|]
  {
    var all := CallsViewList(chats, messages);
    if |all| <= 50 then all else all[..50]
  }

  /**
   Both lists are ordered newest first; the history keeps the newest entries,
   so nothing it drops is newer than anything it shows, and when there are at
   most 50 calls it shows all of them.
   */
  lemma ListsNewestFirst(chats: seq<ClientChat>, messages: map<Id, seq<ClientMessage>>)
    ensures var all := CallsViewList(chats, messages);
      && (forall i, j :: 0 <= i < j < |all| ==> all[i].msg.timestamp >= all[j].msg.timestamp)
      && (var h := HistoryList(chats, messages);
          && (forall i, j :: 0 <= i < |h| <= j < |all| ==> h[i].msg.timestamp >= all[j].msg.timestamp)
          && (|Collect(chats, messages)| <= 50 ==> multiset(h) == multiset(Collect(chats, messages))))
  {
    var all := CallsViewList(chats, messages);
    NewerFirstIsPreorder();
    Sorting.SortBySorted(Collect(chats, messages), NewerFirst);
    assert Sorting.SortedBy(all, NewerFirst);
    forall i, j | 0 <= i < j < |all|
      ensures all[i].msg.timestamp >= all[j].msg.timestamp
    {
      assert NewerFirst(all[i], all[j]);
    }
    var h := HistoryList(chats, messages);
    forall i, j | 0 <= i < |h| <= j < |all|
      ensures h[i].msg.timestamp >= all[j].msg.timestamp
    {
      assert h[i] == all[i];
    }
    if |Collect(chats, messages)| <= 50 {
      assert h == all;
    }
  }

  /** Entries the history counts for its badge: missed and incoming. */
  predicate MissedIncoming(e: CallEntry)
  {
    e.msg.call.Some? && e.msg.call.value.status == Missed && !e.msg.call.value.isOutgoing
  }

  /**
   `missedCount` and its badge: hidden without missed incoming calls, else
   their number read back from the digits, capped at 9 with a trailing "+"
   exactly when there are more.
   */
  function HistoryBadge(history: seq<CallEntry>): (r: Option<string>)
    ensures r.None? <==> forall k :: 0 <= k < |history| ==> !MissedIncoming(history[k])
    ensures r.Some? ==>
      var n := Count(history, MissedIncoming);
      var t := r.value;
      && |t| > 0
      && (t[|t| - 1] == '+' <==> n > 9)
      && var digits := if n > 9 then t[..|t| - 1] else t;
         AllDigits(digits) && DigitsValue(digits) == (if n > 9 then 9 else n)
  {
    var n := Count(history, MissedIncoming);
    assert n == 0 <==> Filter(history, MissedIncoming) == [];
    assert n > 0 ==> Filter(history, MissedIncoming)[0] in history;
    TimeText.BadgeReadsBack(n, 9);
    TimeText.Badge(n, 9)
  }

  // ---------------------------------------------------------------------------
  // Status text and icons
  // ---------------------------------------------------------------------------

  /** The history panel's `getCallStatusText`. */
  function HistoryStatusText(meta: Option<CallMetadata>): string
  {
    if meta.None? then ""
    else
      var m := meta.value;
      if m.status == Missed && !m.isOutgoing then "Missed call"
      else if m.status == Rejected && !m.isOutgoing then "Declined"
      else if m.status == Rejected && m.isOutgoing then "Call rejected"
      else if m.status == Completed then "Call " + TimeText.ShortClock(m.duration)
      else if m.isOutgoing then "Outgoing call"
      else "Incoming call"
  }

  /** The calls view's `getCallStatusText`. */
  function ListStatusText(meta: Option<CallMetadata>): string
  {
    if meta.None? then ""
    else
      var m := meta.value;
      if m.status == Missed && !m.isOutgoing then "Missed"
      else if m.status == Rejected then "Declined"
      else if m.status == Completed && m.duration > 0 then TimeText.ShortClock(m.duration)
      else if m.isOutgoing then "Outgoing"
      else "Incoming"
  }

  /** The history panel's icon: the missed icon for every missed call. */
  function HistoryIcon(meta: Option<CallMetadata>): Icon
  {
    if meta.None? then PhoneIcon
    else if meta.value.status == Missed then MissedIcon
    else if meta.value.kind == VideoCall then VideoIcon
    else PhoneIcon
  }

  /** The calls view's icon: the missed icon only for incoming missed calls. */
  function ListIcon(meta: Option<CallMetadata>): Icon
  {
    if meta.None? then PhoneIcon
    else if meta.value.status == Missed && !meta.value.isOutgoing then MissedIcon
    else if meta.value.kind == VideoCall then VideoIcon
    else PhoneIcon
  }

  lemma ClockStartsWithDigit(d: nat)
    ensures |TimeText.ShortClock(d)| >= 4 && IsDigit(TimeText.ShortClock(d)[0])
  {
    TimeText.PaddedSeconds(d);
  }

  /**
   The history text names each outcome: the fixed texts are met exactly in
   their cases, and a completed call reads back to its duration.
   */
  lemma HistoryStatusCases(meta: Option<CallMetadata>)
    ensures var t := HistoryStatusText(meta);
      && (t == "" <==> meta.None?)
      && (meta.Some? ==>
            var m := meta.value;
            && (t == "Missed call" <==> m.status == Missed && !m.isOutgoing)
            && (t == "Declined" <==> m.status == Rejected && !m.isOutgoing)
            && (t == "Call rejected" <==> m.status == Rejected && m.isOutgoing)
            && (m.status == Completed ==> t[..5] == "Call " && TimeText.ParseClock(t[5..]) == Some(m.duration))
            && (t == "Outgoing call" <==> m.isOutgoing && (m.status == Missed || m.status == Cancelled))
            && (t == "Incoming call" <==> !m.isOutgoing && m.status == Cancelled))
  {
    if meta.Some? && meta.value.status == Completed {
      CompletedHistoryText(meta.value.duration);
    }
  }

  /** A completed call's history text: "Call " and a clock, unlike every fixed text. */
  lemma CompletedHistoryText(d: nat)
    ensures var t := "Call " + TimeText.ShortClock(d);
      && |t| > 5 && t[..5] == "Call " && TimeText.ParseClock(t[5..]) == Some(d)
      && t != "Missed call" && t != "Declined" && t != "Call rejected"
      && t != "Outgoing call" && t != "Incoming call"
  {
    var c := TimeText.ShortClock(d);
    var t := "Call " + c;
    ClockStartsWithDigit(d);
    TimeText.ShortClockRoundTrip(d);
    assert t[5..] == c;
    assert t[5] == c[0];
    DigitAtFiveIsNoFixedText(t);
  }

  /** No fixed history text has a digit after its fifth character. */
  lemma DigitAtFiveIsNoFixedText(t: string)
    requires |t| > 5 && IsDigit(t[5])
    ensures t != "Missed call" && t != "Declined" && t != "Call rejected"
    ensures t != "Outgoing call" && t != "Incoming call"
  {
    assert !IsDigit("Missed call"[5]) && !IsDigit("Declined"[5]) && !IsDigit("Call rejected"[5]);
    assert !IsDigit("Outgoing call"[5]) && !IsDigit("Incoming call"[5]);
  }

  /**
   The calls view text names each outcome; rejected reads "Declined" in
   both directions, and a completed call of 0 s falls through to the
   direction.
   */
  lemma ListStatusCases(meta: Option<CallMetadata>)
    ensures var t := ListStatusText(meta);
      && (t == "" <==> meta.None?)
      && (meta.Some? ==>
            var m := meta.value;
            && (t == "Missed" <==> m.status == Missed && !m.isOutgoing)
            && (t == "Declined" <==> m.status == Rejected)
            && (m.status == Completed && m.duration > 0 ==> TimeText.ParseClock(t) == Some(m.duration))
            && (t == "Outgoing" <==> m.isOutgoing && m.status != Rejected && !(m.status == Completed && m.duration > 0))
            && (t == "Incoming" <==>
                  !m.isOutgoing && m.status != Missed && m.status != Rejected
                  && !(m.status == Completed && m.duration > 0)))
  {
    if meta.Some? && meta.value.status == Completed && meta.value.duration > 0 {
      var d := meta.value.duration;
      ClockStartsWithDigit(d);
      TimeText.ShortClockRoundTrip(d);
      assert !IsDigit("Missed"[0]) && !IsDigit("Declined"[0]);
      assert !IsDigit("Outgoing"[0]) && !IsDigit("Incoming"[0]);
    }
  }

  /**
   The two panels agree on missed incoming calls and on declined incoming
   calls; they part on an outgoing rejected call ("Call rejected" against
   "Declined") and on an outgoing missed call, which the history marks with
   the missed icon and the calls view does not.
   */
  lemma PanelsCompared(m: CallMetadata)
    ensures HistoryStatusText(Some(m)) == "Missed call" <==> ListStatusText(Some(m)) == "Missed"
    ensures ListIcon(Some(m)) == MissedIcon ==> HistoryIcon(Some(m)) == MissedIcon
    ensures m.status == Missed && m.isOutgoing ==>
      HistoryIcon(Some(m)) == MissedIcon && ListIcon(Some(m)) != MissedIcon
    ensures m.status == Rejected ==>
      ListStatusText(Some(m)) == "Declined" &&
      HistoryStatusText(Some(m)) == (if m.isOutgoing then "Call rejected" else "Declined")
  {
    HistoryStatusCases(Some(m));
    ListStatusCases(Some(m));
  }

  // ---------------------------------------------------------------------------
  // The call bubble
  // ---------------------------------------------------------------------------

  function KindWord(kind: CallKind): string
  {
    match kind
    case AudioCall => "voice"
    case VideoCall => "video"
  }

  /** `callType` with its first letter upper-cased. */
  function KindTitle(kind: CallKind): string
  {
    match kind
    case AudioCall => "Audio"
    case VideoCall => "Video"
  }

  /**
   The bubble's `getCallTitle`. A missing duration and a zero duration are
   both falsy, so both are `duration` 0 here.
   */
  function BubbleTitle(kind: CallKind, status: CallStatus, isOutgoing: bool, duration: nat): string
  {
    if status == Missed then
      (if isOutgoing then "Cancelled " else "Missed ") + KindWord(kind) + " call"
    else if status == Rejected then
      (if isOutgoing then "Cancelled " else "Declined ") + KindWord(kind) + " call"
    else if status == Completed && duration > 0 then
      KindTitle(kind) + " call · " + TimeText.BubbleDuration(duration)
    else KindTitle(kind) + " call"
  }

  /** The bubble's `getCallIcon`. */
  function BubbleIcon(status: CallStatus, isOutgoing: bool): Icon
  {
    if status == Missed && !isOutgoing then MissedIcon
    else if isOutgoing then OutgoingIcon
    else IncomingIcon
  }

  datatype Subtitle = CallBackHint | LocaleTime(at: Millis)

  /** The bubble's `getSubtitle`: the call-back hint only on missed incoming calls. */
  function BubbleSubtitle(status: CallStatus, isOutgoing: bool, at: Millis): (r: Subtitle)
    ensures r == CallBackHint <==> status == Missed && !isOutgoing
    ensures r != CallBackHint ==> r == LocaleTime(at)
  {
    if status == Missed && !isOutgoing then CallBackHint else LocaleTime(at)
  }

  /**
   A completed call's bubble title carries its duration after " · ": plain
   seconds ending in "s" under a minute, an `m:ss` clock from there, each
   reading back to the duration.
   */
  lemma BubbleTitleCarriesDuration(kind: CallKind, duration: nat)
    requires duration > 0
    ensures var prefix := KindTitle(kind) + " call · ";
      var t := BubbleTitle(kind, Completed, false, duration);
      && t[..|prefix|] == prefix
      && t[|prefix|..] == TimeText.BubbleDuration(duration)
      && (duration >= 60 ==> TimeText.ParseClock(t[|prefix|..]) == Some(duration))
  {
    TimeText.BubbleDurationShape(duration);
  }

  /**
   The bubble cannot tell an outgoing call nobody answered from one the
   callee declined: both read "Cancelled … call", as does the incoming
   side's wording for neither.
   */
  lemma OutgoingUnansweredLooksDeclined(kind: CallKind, d1: nat, d2: nat)
    ensures BubbleTitle(kind, Missed, true, d1) == BubbleTitle(kind, Rejected, true, d2)
    ensures BubbleTitle(kind, Missed, false, d1) != BubbleTitle(kind, Rejected, false, d2)
  {
    assert BubbleTitle(kind, Missed, false, d1)[0] == 'M';
    assert BubbleTitle(kind, Rejected, false, d2)[0] == 'D';
  }

  /** What a click on a call bubble asks `initiateCall` for. */
  datatype CallBackRequest = CallBackRequest(calleeId: Id, calleeName: string, kind: CallKind)

  /**
   `handleCallBack` as written: only for a missed incoming call with a chat
   and a name, and it hands the chat's id over as the callee's user id.
   */
  function CallBack(chatId: Option<Id>, recipientName: Option<string>, kind: CallKind, status: CallStatus,
                    isOutgoing: bool): (r: Option<CallBackRequest>)
    ensures r.Some? <==> Present(chatId) && Present(recipientName) && status == Missed && !isOutgoing
    ensures r.Some? ==> r.value.calleeId == chatId.value && r.value.kind == kind
  {
    if Present(chatId) && Present(recipientName) && status == Missed && !isOutgoing
    then Some(CallBackRequest(chatId.value, recipientName.value, kind))
    else None
  }

  /** The call-back addressed to the chat's other participant, as the chat header does it. */
  function CallBackToPeer(chat: ClientChat, kind: CallKind, status: CallStatus, isOutgoing: bool): (r: Option<CallBackRequest>)
    ensures r.Some? <==> status == Missed && !isOutgoing
    ensures r.Some? ==> r.value == CallBackRequest(chat.participantId, chat.participantName, kind)
  {
    if status == Missed && !isOutgoing
    then Some(CallBackRequest(chat.participantId, chat.participantName, kind))
    else None
  }

  /** The `call:initiate` a call-back puts on the wire once the offer is made. */
  function CallBackInitiate(s: CallSession.Session, req: CallBackRequest, now: nat, offer: string): Relay.Inbound
    requires s.hasSocket && s.me.Some?
  {
    var t := CallSession.Step(s, CallSession.Initiate(req.calleeId, req.calleeName, req.kind, now, CallSession.Offered(offer)));
    CallSession.InitiateEmitsInOrder(s, req.calleeId, req.calleeName, req.kind, now, offer);
    t.out[0].ev
  }

  /**
   As written, a call-back is addressed to the chat id; the relay keys its
   registry by user id, so unless a user happens to have that id the
   `call:initiate` reaches no one, and the caller hears nothing back.
   */
  lemma CallBackRingsNoOne(s: CallSession.Session, st: Relay.RelayState, sock: Relay.SocketId,
                           chat: ClientChat, kind: CallKind, now: nat, offer: string)
    requires s.hasSocket && s.me.Some? && Present(Some(chat.id)) && Present(Some(chat.participantName))
    requires chat.id !in st.sockets
    ensures var req := CallBack(Some(chat.id), Some(chat.participantName), kind, Missed, false);
      && req.Some?
      && Relay.Step(st, sock, CallBackInitiate(s, req.value, now, offer)).out == []
  {
  }

  /** Addressed to the participant, the call-back rings the participant's socket. */
  lemma CallBackToPeerRings(s: CallSession.Session, st: Relay.RelayState, sock: Relay.SocketId,
                            chat: ClientChat, kind: CallKind, now: nat, offer: string)
    requires s.hasSocket && s.me.Some?
    requires chat.participantId in st.sockets
    ensures var req := CallBackToPeer(chat, kind, Missed, false);
      && req.Some?
      && var out := Relay.Step(st, sock, CallBackInitiate(s, req.value, now, offer)).out;
         |out| == 1 && out[0].ToSocket? && out[0].socket == st.sockets[chat.participantId]
         && out[0].msg.CallIncoming?
  {
  }

  // ---------------------------------------------------------------------------
  // Search
  // ---------------------------------------------------------------------------

  /** The calls view's search: a case-insensitive substring match on the chat name. */
  function Search(list: seq<CallEntry>, query: string): (r: seq<CallEntry>)
    ensures forall e :: e in r <==> e in list && Includes(ToLowerAscii(e.chatName), ToLowerAscii(query))
    ensures IsSubsequence(r, list)
  {
    var r := Filter(list, (e: CallEntry) => Includes(ToLowerAscii(e.chatName), ToLowerAscii(query)));
    FilterIsSubsequence(list, (e: CallEntry) => Includes(ToLowerAscii(e.chatName), ToLowerAscii(query)));
    r
  }

  /** An empty query keeps every entry, in order. */
  lemma EmptySearchKeepsAll(list: seq<CallEntry>)
    ensures Search(list, "") == list
  {
    forall e | e in list
      ensures Includes(ToLowerAscii(e.chatName), ToLowerAscii(""))
    {
      assert OccursAt(ToLowerAscii(e.chatName), "", 0);
    }
  }

  /** The search does not depend on the case of ASCII letters in the query. */
  lemma SearchIgnoresCase(list: seq<CallEntry>, q1: string, q2: string)
    requires ToLowerAscii(q1) == ToLowerAscii(q2)
    ensures Search(list, q1) == Search(list, q2)
  {
  }

  /** The calls view's `formatTime`: by whole days elapsed. */
  datatype ListTime = TimeOfDay(at: Millis) | Yesterday | Weekday(at: Millis) | MonthDay(at: Millis)

  function ListTimeOf(at: Millis, now: Millis): (r: ListTime)
    ensures r == Yesterday <==> TimeText.DayMs <= now - at < 2 * TimeText.DayMs
    ensures r.TimeOfDay? <==> 0 <= now - at < TimeText.DayMs
    ensures r.MonthDay? <==> now - at >= 7 * TimeText.DayMs
  {
    var days := (now - at) / TimeText.DayMs;
    if days == 0 then TimeOfDay(at)
    else if days == 1 then Yesterday
    else if days < 7 then Weekday(at)
    else MonthDay(at)
  }
}
