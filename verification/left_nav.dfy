/**
 The navigation bar's badges: pending friend requests, and incoming calls
 missed since the calls view was last opened (the moment is kept by the
 browser; before the first visit it is the epoch). Both use the capped badge
 that shows "99+" above 99.
 */
module LeftNav {
  import opened Base
  import opened Domain
  import TimeText
  import CallText
  import FriendsApi

  datatype View = ChatsView | CallsView | FriendsView | SettingsView

  const BadgeCap: nat := 99

  function NavBadge(count: nat): Option<string>
  {
    TimeText.Badge(count, BadgeCap)
  }

  /** The friend-request badge: pending requests in the list the client holds. */
  function FriendRequestCount(reqs: seq<FriendRequest>): nat
  {
    Count(reqs, (r: FriendRequest) => r.status == RequestPending)
  }

  /** The last visit to the calls view, or the epoch. */
  function LastViewedTime(stored: Option<Millis>): Millis
  {
    if stored.Some? then stored.value else 0
  }

  /** A call message the user missed (incoming, status missed) after `since`. */
  predicate MissedAfter(m: CallText.ClientMessage, since: Millis)
  {
    m.kind == Call && m.call.Some? && m.call.value.status == Missed && !m.call.value.isOutgoing && m.timestamp > since
  }

  /** Chat by chat, the number of its messages missed after the last visit. */
  function MissedCallsCount(chats: seq<CallText.ClientChat>, messages: map<Id, seq<CallText.ClientMessage>>,
                            lastViewed: Option<Millis>): nat
    decreases |chats|
  {
    if |chats| == 0 then 0
    else
      var since := LastViewedTime(lastViewed);
      Count(CallText.MessagesOf(messages, chats[0].id), (m: CallText.ClientMessage) => MissedAfter(m, since))
      + MissedCallsCount(chats[1..], messages, lastViewed)
  }

  /** Opening the calls view records the current time; other views leave it. */
  function OnViewChange(lastViewed: Option<Millis>, view: View, now: Millis): Option<Millis>
  {
    if view == CallsView then Some(now) else lastViewed
  }

  /** The nav badge is hidden at 0, shows the count up to 99 and "99+" above. */
  lemma NavBadgeCases(count: nat)
    ensures NavBadge(count).None? <==> count == 0
    ensures count > 99 ==> NavBadge(count) == Some("99+")
    ensures 0 < count <= 99 ==> NavBadge(count) == Some(NatToString(count))
  {
    assert DigitChar(9) == '9';
    assert NatToString(9) == "9";
    assert NatToString(99) == "99";
    if count > 99 {
      assert NavBadge(count) == Some(NatToString(99) + "+");
      assert "99" + "+" == "99+";
    }
  }

  /**
   The server lists only pending requests addressed to the user, so the
   friend-request badge counts the whole list.
   */
  lemma FriendBadgeCountsIncoming(st: Store, user: Id)
    requires user != ""
    ensures var r := FriendsApi.Incoming(st, Some(user));
      r.Ok? && FriendRequestCount(r.body) == |r.body|
  {
    var body := FriendsApi.Incoming(st, Some(user)).body;
    assert forall i :: 0 <= i < |body| ==> body[i].status == RequestPending;
  }

  lemma NoneMissedCountsZero(s: seq<CallText.ClientMessage>, since: Millis)
    requires forall i :: 0 <= i < |s| ==> s[i].timestamp <= since
    ensures Count(s, (m: CallText.ClientMessage) => MissedAfter(m, since)) == 0
  {
    FilterNone(s, (m: CallText.ClientMessage) => MissedAfter(m, since));
  }

  /**
   Right after the calls view is opened, nothing older than that moment
   counts: messages stamped no later than now leave the badge hidden.
   */
  lemma {:induction false} OpeningCallsClears(chats: seq<CallText.ClientChat>, messages: map<Id, seq<CallText.ClientMessage>>,
                                              lastViewed: Option<Millis>, now: Millis)
    requires forall c, m :: c in messages && m in messages[c] ==> m.timestamp <= now
    ensures MissedCallsCount(chats, messages, OnViewChange(lastViewed, CallsView, now)) == 0
    ensures NavBadge(MissedCallsCount(chats, messages, OnViewChange(lastViewed, CallsView, now))).None?
    decreases |chats|
  {
    if |chats| > 0 {
      var s := CallText.MessagesOf(messages, chats[0].id);
      assert forall i :: 0 <= i < |s| ==> s[i] in s;
      NoneMissedCountsZero(s, now);
      OpeningCallsClears(chats[1..], messages, lastViewed, now);
    }
  }

  /** Other views keep the last visit. */
  lemma OtherViewsKeepLastVisit(lastViewed: Option<Millis>, view: View, now: Millis)
    ensures view != CallsView ==> OnViewChange(lastViewed, view, now) == lastViewed
    ensures LastViewedTime(OnViewChange(lastViewed, CallsView, now)) == now
  {
  }

  /** One chat's call entries, built one message at a time. */
  lemma ChatCallsCons(chat: CallText.ClientChat, s: seq<CallText.ClientMessage>)
    requires |s| > 0
    ensures CallText.ChatCalls(chat, s) ==
      (if s[0].kind == Call then [CallText.CallEntry(s[0], chat.participantName)] else [])
      + CallText.ChatCalls(chat, s[1..])
  {
  }

  /** A call entry missed after `since`. */
  predicate EntryMissedAfter(e: CallText.CallEntry, since: Millis)
  {
    MissedAfter(e.msg, since)
  }

  lemma {:induction false} CountChatCalls(chat: CallText.ClientChat, s: seq<CallText.ClientMessage>, since: Millis)
    ensures Count(CallText.ChatCalls(chat, s), (e: CallText.CallEntry) => EntryMissedAfter(e, since))
         == Count(s, (m: CallText.ClientMessage) => MissedAfter(m, since))
    decreases |s|
  {
    if |s| > 0 {
      ChatCallsCons(chat, s);
      CountChatCalls(chat, s[1..], since);
      var head := if s[0].kind == Call then [CallText.CallEntry(s[0], chat.participantName)] else [];
      CountAppend(head, CallText.ChatCalls(chat, s[1..]), (e: CallText.CallEntry) => EntryMissedAfter(e, since));
    }
  }

  lemma CountAppend<T(!new)>(a: seq<T>, b: seq<T>, p: T -> bool)
    ensures Count(a + b, p) == Count(a, p) + Count(b, p)
  {
    FilterAppend(a, b, p);
  }

  /**
   The badge counts the same calls the calls view collects: those of its
   entries that were missed after the last visit.
   */
  lemma {:induction false} MissedCountMatchesCollected(chats: seq<CallText.ClientChat>,
                                                       messages: map<Id, seq<CallText.ClientMessage>>,
                                                       lastViewed: Option<Millis>)
    ensures var since := LastViewedTime(lastViewed);
      MissedCallsCount(chats, messages, lastViewed)
        == Count(CallText.Collect(chats, messages), (e: CallText.CallEntry) => EntryMissedAfter(e, since))
    decreases |chats|
  {
    if |chats| > 0 {
      var since := LastViewedTime(lastViewed);
      var head := CallText.ChatCalls(chats[0], CallText.MessagesOf(messages, chats[0].id));
      var rest := CallText.Collect(chats[1..], messages);
      assert CallText.Collect(chats, messages) == head + rest;
      CountAppend(head, rest, (e: CallText.CallEntry) => EntryMissedAfter(e, since));
      CountChatCalls(chats[0], CallText.MessagesOf(messages, chats[0].id), since);
      MissedCountMatchesCollected(chats[1..], messages, lastViewed);
    }
  }
}
