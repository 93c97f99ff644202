# ConnectUp core, modelled in Dafny

ConnectUp is a chat application with voice and video calls. It has a Node
socket relay (`server.js`), Next.js API routes over a MongoDB store, and
React client components. This project models the core of the application as
immutable data and pure functions, and proves properties about it. Seven
parts are modelled:

- **Relay** (`relay.dfy`): the socket server's presence registry (user id to
  socket), its per-chat typing sets, and the seven `call:*` handlers. Each
  handler forwards a reduced payload to the socket registered for one field
  of the event. Emits are an output list of deliveries.
- **Call session** (`call_session.dfy`, `call_screen.dfy`): the client's call
  provider. It covers the incoming-call notification and its 30-second ring
  timer, placing, answering, declining and ending a call, the WebRTC
  signals, and the outcome recorded as a call message. The call screen's
  second counter and mute, camera and speaker toggles are modelled too. The
  peer connection is an abstract present/absent value, and its set-up
  succeeds or fails as a parameter.
- **API handlers** (`chats_api.dfy`, `messages_api.dfy`, `status_api.dfy`,
  `typing_api.dfy`, `friends_api.dfy`, `upload_api.dfy`, `auth_api.dfy`).
  Each handler maps a store and a request to a new store and a reply with a
  status code. The store (`Domain.Store`) holds sequences of documents in
  insertion order; `findOne` and `findById` return the first match. Fresh
  document ids, the clock and password hashing are parameters.
- **Text and time** (`time_text.dfy`, `call_text.dfy`): relative times,
  call durations (`MM:SS`, `m:ss`, `Ns`), the capped badges, and the
  status texts and icons of the call history panel, the calls view and the
  call bubble. Also the call lists (newest first, history capped at 50),
  their search, and the call-back action.
- **Client logic** (`signup_form.dfy`, `chat_header.dfy`,
  `message_bubble.dfy`, `message_input.dfy`, `left_nav.dfy`): signup
  validation, including the browser's checks of required fields and of the
  e-mail address, the header's typing set, status line and mute toggle, the
  bubble's swipe-to-reply gesture, reaction tally, read receipts, edit, star
  and deleted placeholder, the composer's typing announcement and send
  routing, and the navigation badges.
- **Comment stripper** (`comments.dfy`): the build script's
  `removeComments`, a single global regular-expression replace. At each
  position it tries a string literal, then a block comment, then a line
  comment. Literals are kept, comments are deleted, and every other
  character is copied.
- **Shared pieces** (`base.dfy`, `domain.dfy`, `sorting.dfy`): JavaScript
  string and array behaviour (`trim`, `includes`, `filter`, `${n}`,
  `sort`), the model enumerations and documents, and the store
  lookups.

Time is an integer number of milliseconds since the epoch, passed in
wherever the source reads the clock.

## Model

| member | source | states |
|---|---|---|
| Relay.CallEventRouting | server.js:96-162 | each call event goes only to the socket registered for its target field (receiverId for initiate and offer, callerId for answer, reject and answer-sdp, otherUserId for end and ice-candidate), keeping the event's call id. An unregistered target gets nothing and the sender gets no error. The registry and typing map are unchanged |
| Relay.ForwardedPayloads | server.js:97-135 | the incoming notification carries call id, caller id, caller name and call type; answered, rejected and ended carry the call id only |
| Relay.RegisterLastWriteWins | server.js:91-94 | registering binds the user to the sending socket, replacing any earlier socket; every other user's entry and the typing map are unchanged, and nothing is emitted |
| Relay.RegisterIdempotent | server.js:91-94 | registering twice from the same socket is the same as registering once |
| Relay.ReconnectRedirectsCalls | server.js:91-135 | after a second registration from another socket, call events for that user reach the second socket |
| Relay.DisconnectKeepsEverything | server.js:165-169 | a disconnect leaves the registry and the typing sets as they were and emits nothing |
| Relay.TypingAdds | server.js:54-68 | `typing` adds the user to the chat's set, creating the set when absent; other chats and the registry are unchanged; the room, except the sender, gets `userTyping` with chat, user and name |
| Relay.TypingIdempotent | server.js:54-60 | repeating `typing` changes nothing further |
| Relay.StopTypingRemoves | server.js:71-86 | `stopTyping` removes the user, deletes the chat's key when its set becomes empty, and leaves other chats alone; the room gets `userStoppedTyping` with chat and user only |
| Relay.StepKeepsNoEmptyTypingSets | server.js:53-86 | no handler leaves an empty typing set stored |
| Relay.RunKeepsNoEmptyTypingSets | server.js:53-169 | no run of events ever stores an empty typing set |
| Relay.CallEventsLeaveStateAlone | server.js:96-162 | any run of call events leaves the registry and typing map unchanged |
| CallSession.CancelRingTimer | context/call-context.tsx:86-88 | `clearTimeout(callTimeoutRef.current)` disarms exactly the most recent timer and leaves every other timer and field alone |
| CallSession.EndOutcome | context/call-context.tsx:298-303 | a call ended with duration > 0 is completed with that duration and any other is cancelled; the kind defaults to audio and the direction is kept |
| CallSession.EndCallIsIdle | context/call-context.tsx:289-319 | after `endCall` there is no peer and no pending call, and the session is consistent |
| CallSession.StepKeepsConsistent | context/call-context.tsx:53-330 | every handler keeps the session consistent: a peer exists exactly during a call, and a call always has an id, another party and a kind |
| CallSession.RunKeepsConsistent | context/call-context.tsx:53-330 | any run of events keeps the session consistent |
| CallSession.NotifiedArmsTimer | context/call-context.tsx:53-81 | a notification stores the call and arms a fresh 30 s timer, which the ref now names; earlier timers stay armed |
| CallSession.TimerNeverFiresEarly | context/call-context.tsx:62-81 | a ring timer does not fire before 30 000 ms have passed |
| CallSession.TimeoutMissesCall | context/call-context.tsx:62-81 | a firing timer sends exactly one `call:reject` to the caller it captured, records a missed incoming call of duration 0, and clears the pending call |
| CallSession.StaleTimerDismissesNewerCall | context/call-context.tsx:53-81 | a second notification does not cancel the first timer; when that timer fires it rejects the first caller and dismisses the second, still pending, call |
| CallSession.TimerFiresOnce | context/call-context.tsx:62-81 | a ring timer fires at most once |
| CallSession.AcceptOutcome | context/call-context.tsx:207-249 | accepting cancels the pending call's timer, takes the caller as the other party, and clears the pending call; `call:answer` is emitted only when media access succeeds; otherwise the session is reset, and with no call in progress the caller is told nothing and nothing is recorded, because the `endCall` reached is the one captured before the attempt |
| CallSession.NoPendingCallNoop | context/call-context.tsx:207-208 | without a pending call, accept and decline do nothing |
| CallSession.DeclineOutcome | context/call-context.tsx:321-338 | declining cancels the timer, rejects to the caller, and records a declined incoming call |
| CallSession.HangUpOutcome | context/call-context.tsx:289-319 | hanging up with d seconds records a completed call of d s when d > 0 and a cancelled call otherwise; `call:end` and the record require a call id, another party and a signed-in user; the peer is always closed and the session reset |
| CallSession.InitiateEmitsInOrder | context/call-context.tsx:151-205 | placing a call emits `call:initiate` strictly before `call:offer`, both with the id `caller-callee-timestamp` |
| CallSession.InitiateFailureSilent | context/call-context.tsx:151-205 | a failed start from an idle provider resets the session but sends no `call:end`, saves no record and never closes the new peer, because the memoised callback holds the `endCall` of a render with no call; after a failed offer only `call:initiate` has gone out, so the callee keeps ringing |
| CallSession.CallIdsDifferOverTime | context/call-context.tsx:159 | different start times give different call ids for the same two users |
| CallSession.CallIdsCanCollide | context/call-context.tsx:159 | the id format is ambiguous when user ids contain '-': two different pairs can mint the same id |
| CallSession.SignalsWithoutPeerDropped | context/call-context.tsx:108-130 | without a peer connection, remote offers, answers and candidates are dropped and nothing is buffered |
| CallSession.SignalsWithPeerApplied | context/call-context.tsx:108-130 | with a peer connection, the signals are applied whatever call id they carry, and an offer is answered to the other party |
| CallSession.EarlyCandidateLost | context/call-context.tsx:126-130 | a candidate that arrives while the call is still ringing is lost: after accepting, no candidate has reached the peer connection |
| CallSession.RemoteEndRecordsCancelled | context/call-context.tsx:91-106 | a remote reject or end goes through `endCall()` with no duration, so it is recorded as cancelled even after media has flowed |
| CallSession.UnansweredCallIsMissed | context/call-context.tsx:53-81 | an unanswered notification: 30 s later exactly one reject goes to the caller and a missed incoming call is recorded |
| CallSession.PlacedCallCompletes | context/call-context.tsx:151-319 | a call that is placed, answered, connected and hung up after 42 s is recorded by the caller as a completed outgoing call of 42 s |
| CallScreen.DurationCountsConnectedTicks | components/call/call-screen.tsx:32-47 | the counter equals the number of one-second ticks that arrived while connected; once connected, the screen stays connected |
| CallScreen.ToggleTwice | components/call/call-screen.tsx:156-197 | pressing a toggle twice restores the screen |
| CallScreen.HangUpClassification | components/call/call-screen.tsx:188 | hanging up hands the counter to `endCall`, so the call is recorded as completed exactly when a tick came while connected, and as cancelled otherwise |
| CallScreen.NoStreamNoDuration | components/call/call-screen.tsx:32-47 | with no remote stream among the inputs, the counter stays at 0 however many ticks arrive |
| CallScreen.StatusLine | components/call/call-screen.tsx:147 | the status line is the `MM:SS` counter once connected and reads back to the counter; before that it is "Calling..." for the caller and "Incoming call..." for the callee |
| TimeText.ChainedFloors | utils/date-utils.ts:9-14 | the chained floors (seconds, then minutes, hours, days, weeks, months) equal one floor division of the elapsed milliseconds each |
| TimeText.DistanceByElapsed | utils/date-utils.ts:1-23 | `formatDistanceToNow` by elapsed time: under a minute (future instants included) "now", then "Nm", "Nh", "Nd", from 7 days "Nw", from 28 days "Nmo" counted in 30-day months, and from 360 days the locale date |
| TimeText.ZeroMonths | utils/date-utils.ts:14-21 | between 28 and 30 days the month bucket is reached with zero months and reads "0mo" |
| TimeText.DistanceMissing | utils/date-utils.ts:2-5 | a missing or invalid date renders as "" |
| TimeText.HeaderAgreesWithDistance | components/chat/chat-header.tsx:292-309 | from a minute up to a week, the header's "N<unit> ago" counts the same N and unit as `formatDistanceToNow` |
| TimeText.ClockFields | components/call/call-screen.tsx:65-69 | the call screen's `MM:SS` has at least two minute digits and exactly two second digits below 60 |
| TimeText.ClockRoundTrip | components/call/call-screen.tsx:65-69 | reading the `MM:SS` text back gives minutes·60 + seconds, the input |
| TimeText.ShortClockRoundTrip | components/chat/call-message.tsx:29-31 | the `m:ss` text reads back to its input, and its minutes have no leading zero |
| TimeText.ClocksInjective | components/call/call-screen.tsx:65-69 | different durations never share a clock text, in either format |
| TimeText.BubbleDurationShape | components/chat/call-message.tsx:27-32 | below a minute the bubble shows the seconds followed by "s", and from a minute on the `m:ss` clock; both read back to the duration |
| TimeText.BadgeReadsBack | components/left-nav.tsx:14-21 | a badge is hidden exactly at 0, and otherwise reads back as min(count, cap) with a trailing "+" exactly when the count exceeds the cap |
| CallText.ChatCalls | components/chat/call-history.tsx:18-24 | a chat contributes exactly its call messages, each labelled with the participant's name |
| CallText.Collect | components/chat/call-history.tsx:15-27 | the collected list holds exactly the call messages of the listed chats, labelled with their chat's participant |
| CallText.NewerFirstIsPreorder | components/chat/call-history.tsx:30 | newest-first by timestamp is a total preorder, so the sort is well defined |
| CallText.CallsViewList | components/calls-view.tsx:14-34 | the calls view lists a permutation of every collected call message |
| CallText.HistoryList | components/chat/call-history.tsx:14-34 | the history panel shows the first min(n, 50) entries of the same sorted list |
| CallText.ListsNewestFirst | components/chat/call-history.tsx:30-33 | both lists are newest first; nothing the history drops is newer than anything it shows; with at most 50 calls it shows all of them |
| CallText.HistoryBadge | components/chat/call-history.tsx:37-39 | the history badge is hidden exactly when no listed call is a missed incoming call; otherwise its digits read back to the number of missed incoming calls capped at 9, with a trailing "+" exactly when there are more than 9 |
| CallText.HistoryStatusCases | components/chat/call-history.tsx:55-68 | each history text occurs exactly in its case: "" without metadata, "Missed call", "Declined", "Call rejected", "Call m:ss" reading back to the duration, "Outgoing call" and "Incoming call" |
| CallText.ListStatusCases | components/calls-view.tsx:72-84 | each calls-view text occurs exactly in its case: "Missed" for missed incoming, "Declined" for any rejected call, `m:ss` for a completed call with positive duration, otherwise the direction |
| CallText.PanelsCompared | components/calls-view.tsx:57-84 | the two panels agree on missed incoming calls; an outgoing rejected call reads "Call rejected" in the history but "Declined" in the calls view; an outgoing missed call gets the missed icon only in the history |
| CallText.BubbleSubtitle | components/chat/call-message.tsx:59-64 | the bubble's subtitle is the call-back hint exactly for a missed incoming call, and otherwise the call's time |
| CallText.BubbleTitleCarriesDuration | components/chat/call-message.tsx:44-57 | a completed call's title is "<Kind> call · " followed by its duration text |
| CallText.OutgoingUnansweredLooksDeclined | components/chat/call-message.tsx:47-52 | an outgoing missed call and an outgoing rejected call get the same title, while the incoming ones differ |
| CallText.CallBack | components/chat/call-message.tsx:66-70 | as written: a call-back is made exactly for a missed incoming call with a chat id and a name, and it passes the chat id as the callee id |
| CallText.CallBackToPeer | components/chat/chat-header.tsx:157-164 | the corrected call-back is made exactly for a missed incoming call and is addressed to the chat's participant id, as the header's call buttons do it |
| CallText.CallBackRingsNoOne | components/chat/call-message.tsx:66-70 | as written, the call-back's `call:initiate` reaches no socket when no user has the chat's id |
| CallText.CallBackToPeerRings | components/chat/chat-header.tsx:157-164 | addressed to the participant, the call-back's `call:initiate` reaches the participant's socket as an incoming-call notification |
| CallText.Search | components/calls-view.tsx:36-38 | the search keeps, in order, exactly the entries whose lower-cased chat name contains the lower-cased query |
| CallText.EmptySearchKeepsAll | components/calls-view.tsx:36-38 | an empty query keeps every entry |
| CallText.SearchIgnoresCase | components/calls-view.tsx:36-38 | queries that differ only in letter case give the same list |
| CallText.ListTimeOf | components/calls-view.tsx:40-55 | the calls view shows the time of day within the first day, "Yesterday" in the second, and the month and day from 7 days |
| Domain.ParseMessageType | models/Message.ts:8-12 | only the eight listed message types are accepted, and an accepted string names its type |
| Domain.MessageTypeRoundTrip | models/Message.ts:8-12 | every message type's name parses back to that type |
| Domain.ParseRequestStatus | models/FriendRequest.ts:6 | only "pending", "accepted" and "rejected" are request statuses |
| Domain.RequestStatusRoundTrip | models/FriendRequest.ts:6 | every request status's name parses back to it |
| Domain.ChatIndex | app/api/chats/route.ts:115-118 | `findById` finds the first chat with the id, and None exactly when no chat has it |
| Domain.ChatBetween | app/api/chats/find/route.ts:18-20 | `findOne` with `$all` finds the first chat holding both users (no earlier chat holds both), and None exactly when no chat holds both |
| ChatsApi.Visible | app/api/chats/route.ts:14-20 | the query selects exactly the chats the user takes part in and has not archived |
| ChatsApi.OtherParticipant | app/api/chats/route.ts:26-29 | the peer is the first resolved participant who is not the user, and there is none exactly when every resolved participant is the user |
| ChatsApi.MuteOf | app/api/chats/route.ts:33 | the user has a mute end exactly when some mute entry names the user, and it is the end of the first such entry |
| ChatsApi.OthersTyping | app/api/chats/route.ts:37-39 | the listed typing users are exactly the other users with a typing entry |
| ChatsApi.Summarize | app/api/chats/route.ts:25-58 | a chat is listed exactly when it has a peer; it is pinned when the user pinned it or the peer is an assistant account; the mute end is shown only while it lies after now; the typing list is the ids of the other users' typing entries, in order, and the peer's status shows typing exactly when that list is non-empty; the unread count is the user's count, or 0 |
| ChatsApi.Summaries | app/api/chats/route.ts:25-58 | the formatted list holds exactly the summaries of the chats that have a peer |
| ChatsApi.Preorders | app/api/chats/route.ts:61-69 | the store order and the list comparator are total preorders, so both sorts are well defined |
| ChatsApi.GetLists | app/api/chats/route.ts:7-72 | the chat list holds exactly the summaries of the user's visible chats; pinned chats come first, and each group is ordered by last activity, newest first |
| ChatsApi.GetNeedsUser | app/api/chats/route.ts:12 | a missing or empty user id is refused with 400 "UserId required" |
| ChatsApi.ParseAction | app/api/chats/route.ts:120-178 | a parsed action string names the action |
| ChatsApi.ActionRoundTrip | app/api/chats/route.ts:120-178 | each of the nine action names is recognised as its action |
| ChatsApi.WithoutMute | app/api/chats/route.ts:131 | the filter keeps exactly the other users' mute entries |
| ChatsApi.MarkMessagesRead | app/api/chats/route.ts:157-167 | exactly the chat's messages that others sent and that are not yet read become read, each with one more receipt for the user; every other message is unchanged |
| ChatsApi.PutRefusals | app/api/chats/route.ts:111-118 | validation comes first and changes nothing: a missing field is refused with 400, then an unknown chat with 404, then an unknown action with 400 |
| ChatsApi.PutTouchesOneChat | app/api/chats/route.ts:120-181 | every action except delete changes only the addressed chat (markAsRead also that chat's messages) and answers with the saved chat |
| ChatsApi.PutSaves | app/api/chats/route.ts:180-181 | an action other than delete stores the chat as the action left it, with its update time moved to now when the action changed it (the schema keeps timestamps, models/Chat.ts:29), and the chat untouched otherwise |
| ChatsApi.PinStampsOnce | app/api/chats/route.ts:121-125 | a first pin stamps the chat as updated now; pinning an already pinned chat writes nothing, so its update time, and with it its place in the list's initial ordering, is kept |
| ChatsApi.PinArchiveIdempotent | app/api/chats/route.ts:121-144 | after pin (archive) the user is in the list; the chat is unchanged when the user was already there, and repeating the action changes nothing |
| ChatsApi.UnpinUnarchiveRemove | app/api/chats/route.ts:126-147 | unpin and unarchive remove every occurrence of the user and nobody else |
| ChatsApi.MuteReplaces | app/api/chats/route.ts:129-139 | muting leaves exactly one entry for the user, last, ending `hours` hours (8 by default) after now, and other users' entries keep their order; unmuting removes the user's entries and keeps the rest |
| ChatsApi.ClearAndMarkRead | app/api/chats/route.ts:148-170 | clear stamps the user's clear time with now; markAsRead sets the user's unread count to 0 and leaves other users' counts alone |
| ChatsApi.DeleteRemovesChat | app/api/chats/route.ts:171-175 | delete removes the chat and every message of it, and nothing else |
| ChatsApi.FindOrCreate | app/api/chats/find/route.ts:18-31 | an existing chat of the pair is returned and nothing is created; otherwise exactly one chat of the two users, current user first, is appended and its id returned |
| ChatsApi.FindTwiceSameChat | app/api/chats/find/route.ts:18-31 | asking twice for the same pair gives the same chat id, and the second request creates nothing |
| ChatsApi.FindNeedsBothIds | app/api/chats/find/route.ts:11-13 | a missing id is refused with 400 and nothing is created |
| MessagesApi.View | app/api/messages/route.ts:34-52 | a listed message keeps its id and chat, its timestamp is its creation time, and it is starred exactly when the requesting user starred it |
| MessagesApi.GetShows | app/api/messages/route.ts:6-53 | the listing holds exactly the chat's messages that the user has not deleted for themself and that were created after the user cleared the chat, oldest first, each starred as that user sees it |
| MessagesApi.GetNeedsChat | app/api/messages/route.ts:12 | a missing or empty chat id is refused with 400 "ChatId required" |
| MessagesApi.LabelKind | app/api/messages/route.ts:161-170 | only the five media labels name a media type |
| MessagesApi.PreviewCases | app/api/messages/route.ts:161-170 | a media message's preview names its type whatever its text; a text, location or call message previews as its text |
| MessagesApi.PreviewWithoutType | app/api/messages/route.ts:79 | a message posted without a type previews as its text |
| MessagesApi.PreviewAmbiguous | app/api/messages/route.ts:161-170 | a text message whose text is a media label previews exactly like a media message |
| MessagesApi.ReceiverKey | app/api/messages/route.ts:74 | the receiver is a participant other than the sender, and the key is "undefined" when there is none |
| MessagesApi.PostDefaults | app/api/messages/route.ts:59-70 | a message posted without a type is appended as a text message with the fresh id, status "sent", unstarred, undeleted, unedited and created now |
| MessagesApi.PostBumpsReceiver | app/api/messages/route.ts:73-85 | a successful post sets the chat's preview to the message's label or text, unread, and raises the receiver's unread count by exactly one; no other count and no other chat changes |
| MessagesApi.PostLeavesSenderCount | app/api/messages/route.ts:74-84 | the sender's own unread count does not change when the chat has another participant |
| MessagesApi.PostFailures | app/api/messages/route.ts:55-85 | a post missing its chat or sender or naming an unknown type fails with 500 and stores nothing; a post to an unknown chat stores the message and then fails with 500 |
| MessagesApi.PostThenGet | app/api/messages/route.ts:6-101 | the sender sees a freshly posted message in the chat's listing unless they cleared the chat at that moment or later |
| MessagesApi.ParseMessageAction | app/api/messages/route.ts:112-146 | a parsed action string names the action |
| MessagesApi.MessageActionRoundTrip | app/api/messages/route.ts:112-146 | the four action names are recognised as their actions |
| MessagesApi.Lookup | app/api/messages/route.ts:107 | a found index holds the first message with the requested id; nothing is found exactly when no id was given or no message has it |
| MessagesApi.ActRefusals | app/api/messages/route.ts:107-110 | an unknown message is refused with 404 and an unknown action with 400; neither changes the store |
| MessagesApi.StarUnstar | app/api/messages/route.ts:113-120 | star adds the user once and unstar removes every occurrence of the user; nobody else's star changes, and starring twice is starring once |
| MessagesApi.DeleteForEveryoneWindow | app/api/messages/route.ts:121-129 | the sender's delete for everyone succeeds exactly when the message is under an hour old; an older message is refused with 400 and nothing changes |
| MessagesApi.DeleteForMe | app/api/messages/route.ts:130-135 | any other delete adds the user to the message's deleted-for list once and changes nothing else |
| MessagesApi.EditBySenderOnly | app/api/messages/route.ts:137-143 | only the sender's edit changes the text, marking it edited now; anyone else's edit answers with the message unchanged |
| MessagesApi.RemoveOne | app/api/messages/route.ts:152-159 | removal deletes exactly one document when the id is known and none otherwise, and always answers success |
| StatusApi.Listed | app/api/messages/status/route.ts:38 | the re-read messages are exactly the stored messages whose id is listed |
| StatusApi.StatusRefusals | app/api/messages/status/route.ts:9-13 | a missing id list, status or user is refused with 400 and changes nothing; a status other than delivered or read succeeds and changes nothing |
| StatusApi.DeliveredReceipt | app/api/messages/status/route.ts:16-24 | a delivery receipt marks exactly the listed messages delivered, adds the user to each one's delivered-to list once, leaves every other message and every chat alone, and answers success |
| StatusApi.DeliveredAfterReadRegresses | app/api/messages/status/route.ts:16-24 | a delivery receipt for a message already read sets it back to delivered |
| StatusApi.ReadReceiptMessages | app/api/messages/status/route.ts:25-35 | a read receipt marks exactly the listed messages read and appends a receipt for the user at this instant to each, even when an equal one is stored (every receipt subdocument gets its own id), leaves every other message alone, and answers success |
| StatusApi.ReadReceiptPreview | app/api/messages/status/route.ts:38-47 | a read message's chat gets its preview marked read, and its update time set to now, when the preview was sent by that message's sender |
| StatusApi.MarkPreviewsOnlyMatching | app/api/messages/status/route.ts:38-47 | a chat's preview changes only by being marked read, and only when some read message belongs to that chat and has the preview's sender |
| StatusApi.MarkPreviewsMatching | app/api/messages/status/route.ts:39-47 | a matching chat ends with its preview read and its update time now, whatever the other read messages do |
| StatusApi.ReactionRefusals | app/api/messages/status/route.ts:60-70 | missing fields are refused with 400 and an unknown message with 404; neither changes the store |
| StatusApi.OneReactionPerUser | app/api/messages/status/route.ts:73-78 | after a reaction the user has exactly one reaction, the new one, last; other users' reactions are kept in their order |
| StatusApi.ReactAgainReplaces | app/api/messages/status/route.ts:73-78 | reacting twice equals reacting once with the second emoji |
| StatusApi.ReactionStored | app/api/messages/status/route.ts:67-81 | a successful reaction stores the new list on that message only and answers with it |
| TypingApi.Touch | app/api/chats/typing/route.ts:70-72 | the chat carries the new list, and it is written back with a new update time only when the list changed |
| TypingApi.TypingRefusals | app/api/chats/typing/route.ts:10-18 | a missing chat or user is refused with 400, an unknown chat with 404, on both the update and the read; neither changes the store |
| TypingApi.StartTypingFresh | app/api/chats/typing/route.ts:20-31 | starting to type leaves an entry for the user stamped now, adds one only when the user had none, keeps at most one entry per user, and leaves other users' entries alone |
| TypingApi.StopTypingRemoves | app/api/chats/typing/route.ts:32-37 | stopping removes every entry of the user and keeps every other entry |
| TypingApi.SetTypingStored | app/api/chats/typing/route.ts:14-41 | a successful update stores the new list on that chat only and answers with it; the user is listed after starting and unlisted after stopping |
| TypingApi.GetDropsStale | app/api/chats/typing/route.ts:58-74 | reading keeps exactly the entries stamped less than five seconds ago, in order, stores that list, and writes the chat only when some entry was stale |
| TypingApi.GetTwiceWritesOnce | app/api/chats/typing/route.ts:64-72 | a second read at the same moment answers the same and writes nothing |
| TypingApi.KeepsTypingStaysListed | app/api/chats/typing/route.ts:20-31 | a user who started typing under five seconds ago is still listed when the list is read |
| FriendsApi.SendRefusals | app/api/friend-requests/route.ts:16-44 | in order: an unknown email is refused with 404, a request to oneself with 400, a pending request either way with 400, and an existing shared chat with 400; a refusal changes nothing |
| FriendsApi.SendCreatesOne | app/api/friend-requests/route.ts:47-51 | a request that passes every check appends exactly one pending request from the sender to that email's user, and changes nothing else |
| FriendsApi.SendAgainRefused | app/api/friend-requests/route.ts:26-35 | while a request is pending, sending it again or sending one the other way is refused as already pending |
| FriendsApi.IncomingLists | app/api/friend-requests/route.ts:93-98 | the list holds exactly the pending requests addressed to the user, in store order |
| FriendsApi.IncomingNeedsUser | app/api/friend-requests/route.ts:87-89 | a missing or empty user id is refused with 400 |
| FriendsApi.SentRequestListed | app/api/friend-requests/route.ts:47-98 | a request just sent appears in its receiver's list |
| FriendsApi.RequestIndex | app/api/friend-requests/route.ts:110 | a found index is the first request with that id, and none is found exactly when no request has it |
| FriendsApi.AnswerRefusals | app/api/friend-requests/route.ts:110-116 | an unknown request is refused with 404 and a status outside the enumeration with 500; neither changes the store |
| FriendsApi.AnswerEffects | app/api/friend-requests/route.ts:115-153 | the new status overwrites the old one whatever it was; acceptance also adds one chat holding exactly the pair with both unread counts zero, and the other answers add none |
| FriendsApi.AcceptedPairAreFriends | app/api/friend-requests/route.ts:38-44 | after acceptance a new request between the pair is refused because they are already friends |
| FriendsApi.AcceptTwiceTwoChats | app/api/friend-requests/route.ts:118-126 | accepting the same request twice opens two chats of the same pair |
| FriendsApi.AnsweredLeavesIncoming | app/api/friend-requests/route.ts:93-95 | an accepted or rejected request leaves its receiver's pending list |
| UploadApi.ClassifyCases | app/api/upload/route.ts:21-31 | each class exactly characterised in priority order: image, video and audio by prefix, then document when "pdf" or "document" occurs anywhere, else file |
| UploadApi.ClassifyExamples | app/api/upload/route.ts:23-31 | a prefix beats a document substring: "video/x-document" is a video, while "application/pdf" is a document |
| UploadApi.ReceiveCases | app/api/upload/route.ts:7-44 | a missing file is refused with 400, then a file over 10 MiB with 400, then a failed host upload with 500; an accepted file is answered with its own name, size and MIME type, the host's URL and its class |
| UploadApi.SizeBoundary | app/api/upload/route.ts:14 | exactly 10 485 760 bytes is accepted and one byte more is refused |
| UploadApi.UploadPreviewNamesKind | app/api/upload/route.ts:21-36 | a message of an uploaded file's class previews as that class's label |
| Domain.UserByEmail | app/api/auth/route.ts:23 | a found user is stored with exactly that address, and nothing is found exactly when no user has it |
| AuthApi.ProfileOf | app/api/auth/route.ts:37-46 | the answer carries the user's id, name and address, and an empty phone number when none is stored |
| AuthApi.AuthRefusals | app/api/auth/route.ts:14-20 | a missing action is refused first, then missing credentials, then an action other than signup or login, each with 400 and without changing the store; a login never changes the store |
| AuthApi.SignupStoresUser | app/api/auth/route.ts:22-47 | a signup for a new address appends exactly one user holding the hash of the password as sent, the default bio, status offline and an avatar seeded by the name, and touches no other collection |
| AuthApi.SignupRefusals | app/api/auth/route.ts:23-34 | a taken address is refused with 400 and a missing name fails validation with 500; neither changes the store |
| AuthApi.LoginTrims | app/api/auth/route.ts:49-52 | login answers the same for credentials with and without surrounding whitespace |
| AuthApi.LoginFailures | app/api/auth/route.ts:52-62 | an unknown address and a wrong password are refused with 400 and distinct messages |
| AuthApi.NewUserFound | app/api/auth/route.ts:29-52 | the user a signup stored is the one a lookup by that address finds |
| AuthApi.SignupThenLogin | app/api/auth/route.ts:22-75 | credentials without surrounding whitespace that signed up log in and get the same profile back |
| AuthApi.PaddedPasswordLocksOut | app/api/auth/route.ts:28-58 | a password with a trailing space is accepted at signup but every login with it is refused as an invalid password |
| AuthApi.SignupThenLoginCorrected | app/api/auth/route.ts:22-75 | with signup trimming as login does, any credentials that survive trimming log in as typed and get the signup's profile back |
| SignupForm.Utf16Length | components/auth/signup-form.tsx:47 | the length lies between the number of characters and twice that, and equals it when every character is in the Basic Multilingual Plane |
| SignupForm.StripBreaks | components/auth/signup-form.tsx:72-80 | the value of a single-line input holds no line break, and typed text without one is kept as it is |
| SignupForm.SanitizeEmail | components/auth/signup-form.tsx:86-95 | the address input's value holds no line break, neither starts nor ends with ASCII whitespace, and equals the typed text when that holds no ASCII whitespace |
| SignupForm.ValidEmailShape | components/auth/signup-form.tsx:90 | an address the browser accepts has exactly one `@`, with text on both sides, and no whitespace, so sanitising leaves it unchanged |
| SignupForm.DottedAddressValid | components/auth/signup-form.tsx:90 | "a@b.co" is accepted |
| SignupForm.SingleLabelAddressValid | components/auth/signup-form.tsx:90 | "a@host", whose domain has no dot, is accepted |
| SignupForm.AtMisplacedRejected | components/auth/signup-form.tsx:90 | an address without `@`, with nothing before it or with nothing after it is rejected |
| SignupForm.EmptyLabelRejected | components/auth/signup-form.tsx:90 | a domain with two dots in a row is rejected |
| SignupForm.LeadingHyphenRejected | components/auth/signup-form.tsx:90 | a domain label starting with a hyphen is rejected |
| SignupForm.SpaceRejected | components/auth/signup-form.tsx:90 | a space before the `@` is rejected |
| SignupForm.TypedClean | components/auth/signup-form.tsx:68-150 | a non-empty name and a password of six or more characters, both without line breaks, with a valid address, reach signup unchanged |
| SignupForm.PaddedEmailSent | components/auth/signup-form.tsx:86-95 | an address typed with a space before it and a line break after it reaches signup without them, while the name and password are sent as typed |
| SignupForm.SubmitCases | components/auth/signup-form.tsx:38-60 | the browser blocks the submit exactly when a field is empty or the address is not valid; otherwise signup is called exactly when the two passwords match and are at least six units long, with the form's own values, and a mismatch is reported before the length |
| SignupForm.ErrorCleared | components/auth/signup-form.tsx:38-60 | a blocked submit leaves the error line as it was; any other submit gives a line that does not depend on what it showed before, empty exactly when signup was called and did not throw, and otherwise the thrown message or "Failed to sign up" |
| SignupForm.AcceptedHasPassword | context/app-context.tsx:161-166 | an accepted form reaches the endpoint as a signup with a non-empty password |
| SignupForm.ThreeEmojiAccepted | components/auth/signup-form.tsx:47 | with any valid address, a password of three astral characters counts six units and is accepted |
| SignupForm.PaddedPasswordSent | components/auth/signup-form.tsx:42-54 | with any valid address, a password with a trailing space passes the form and is sent untrimmed |
| ChatHeader.Select | components/chat/chat-header.tsx:68-70 | selecting another chat empties the typing set, and selecting the same chat changes nothing |
| ChatHeader.Run | components/chat/chat-header.tsx:39-65 | signals never change the selected chat or the signed-in user |
| ChatHeader.SignalEffect | components/chat/chat-header.tsx:42-56 | user by user: a typing signal for the selected chat adds its sender unless that is the signed-in user, a stop signal removes its sender, and every other signal and user is left alone |
| ChatHeader.StaysConsistent | components/chat/chat-header.tsx:42-70 | signals and selection keep the set empty without a selected chat and never show the signed-in user |
| ChatHeader.TypingThenStop | components/chat/chat-header.tsx:42-56 | a user who starts and then stops typing leaves the set as it was |
| ChatHeader.RunShowsOnlySenders | components/chat/chat-header.tsx:42-56 | after any run of signals everyone shown was already shown or sent a typing signal for the selected chat, and the set stays consistent |
| ChatHeader.StatusPriority | components/chat/chat-header.tsx:74-82 | typing wins over presence and presence over the last-seen time, each exactly characterised; a missing last-seen time reads "unknown" |
| ChatHeader.StopSignalRestoresPresence | components/chat/chat-header.tsx:48-82 | once the only typing user stops, the line falls back to presence whatever the server reported |
| ChatHeader.MutedAsListed | components/chat/chat-header.tsx:84 | a listed chat shows as muted exactly when the user's stored mute ends after both the listing time and now |
| ChatHeader.ToggleFlipsMute | components/chat/chat-header.tsx:86-94 | the toggle removes the user's mute from a chat shown muted and otherwise stores one ending eight hours from now |
| MessageInput.InputGuard | components/chat/message-input-enhanced.tsx:57-75 | the draft always follows the input, and typing is announced exactly when chat, user and socket exist, the text is non-empty and nothing was announced yet |
| MessageInput.AnnouncedOnce | components/chat/message-input-enhanced.tsx:57-75 | over any run of keystrokes typing is announced once if some draft was non-empty and nothing had been announced, otherwise never, and an announcement is never withdrawn by typing |
| MessageInput.SendGuards | components/chat/message-input-enhanced.tsx:91 | a send does nothing exactly when no chat is selected or the draft is only whitespace |
| MessageInput.SendOrder | components/chat/message-input-enhanced.tsx:90-147 | a send that goes ahead withdraws an announced typing signal over the socket first, then cancels the reply banner, then hands the draft as typed to the assistant exactly when the peer is the assistant and to the message endpoint otherwise; the draft is emptied |
| MessageInput.SentDraftStored | context/app-context.tsx:182-204 | the handed-over draft is stored as a text message of that chat holding the draft untrimmed |
| LeftNav.NavBadgeCases | components/left-nav.tsx:14-21 | the badge is hidden exactly at zero, shows the count up to 99 and "99+" above |
| LeftNav.FriendBadgeCountsIncoming | components/left-nav.tsx:28-30 | with the list the server returns, the friend badge counts every request in it |
| LeftNav.OpeningCallsClears | components/left-nav.tsx:33-57 | right after the calls view is opened no earlier call counts, so the missed-call badge is hidden |
| LeftNav.OtherViewsKeepLastVisit | components/left-nav.tsx:51-57 | only opening the calls view moves the last-visit time, and it moves it to now |
| LeftNav.MissedCountMatchesCollected | components/left-nav.tsx:33-49 | the missed-call badge counts exactly the calls view's entries that are incoming, missed and later than the last visit |
| MessageBubble.Moves | components/chat/message-bubble-enhanced.tsx:37-47 | moves never change where the press started or whether a drag is in progress |
| MessageBubble.LastFollowed | components/chat/message-bubble-enhanced.tsx:44 | a followed offset is strictly between 0 and 100 pixels, and it is 0 when no move was followed |
| MessageBubble.OffsetBounded | components/chat/message-bubble-enhanced.tsx:27-56 | the offset stays in [0, 100) whatever the finger or mouse does; release always comes back to rest and replies exactly past 50 pixels |
| MessageBubble.OffsetIsLastFollowed | components/chat/message-bubble-enhanced.tsx:29-47 | during a gesture from rest the offset is the distance of the last move that was followed |
| MessageBubble.GestureReplies | components/chat/message-bubble-enhanced.tsx:29-56 | a gesture from rest replies exactly when its last followed move went more than 50 pixels right |
| MessageBubble.FastSwipeIgnored | components/chat/message-bubble-enhanced.tsx:44-52 | a single jump of 100 pixels or more is not followed and so does not reply |
| MessageBubble.CountedEmojiUsed | components/chat/message-bubble-enhanced.tsx:286-290 | an emoji with a positive count is used by some reaction |
| MessageBubble.TallyCounts | components/chat/message-bubble-enhanced.tsx:284-298 | the tally lists each emoji once with exactly the number of reactions using it, covers every reaction's emoji, and its counts add up to the number of reactions |
| MessageBubble.ReceiptCases | components/chat/message-bubble-enhanced.tsx:113-123 | only own messages carry a receipt; the three statuses show three different receipts, and the blue double tick means read |
| MessageBubble.ReadThenDeliveredTicks | components/chat/message-bubble-enhanced.tsx:113-123 | a read receipt turns the sender's ticks blue, and a delivery receipt arriving afterwards turns them grey again |
| MessageBubble.EditSaveGuards | components/chat/message-bubble-enhanced.tsx:105-110 | an edit is sent exactly when a chat is selected and the draft differs from the message and is not only whitespace, and it is sent as typed |
| MessageBubble.EditSaveStored | context/app-context.tsx:258-265 | a saved edit of the sender's own message stores the draft and marks it edited, after which saving the same draft sends nothing |
| MessageBubble.StarToggleFlips | components/chat/message-bubble-enhanced.tsx:77-89 | pressing the star flips the starred flag the user sees |
| MessageBubble.DeletedShowsPlaceholder | components/chat/message-bubble-enhanced.tsx:125-135 | a message its sender deletes for everyone within the hour shows the placeholder to every viewer, while a message not so deleted shows its own content |
| Comments.LiteralRest | scripts/remove-comments.js:30 | a quoted literal that matches ends with its opening quote |
| Comments.BlockRest | scripts/remove-comments.js:30 | a block comment that matches ends with the closer |
| Comments.LineRest | scripts/remove-comments.js:30 | a line comment runs up to but not including the first line terminator, or to the end of the text |
| Comments.StepAt | scripts/remove-comments.js:30 | a literal starts and ends with the same quote, a block comment starts with the block opener and ends with the closer, a line comment starts with two slashes and stops before a terminator, and text starting with anything else than a quote or slash is copied one character at a time |
| Comments.RemoveComments | scripts/remove-comments.js:26-39 | the output is never longer than the input |
| Comments.StepSplits | scripts/remove-comments.js:30-38 | the result is the first match's replacement followed by the result on what remains after it |
| Comments.Strip | scripts/remove-comments.js:26-39 | the single left-to-right pass computes exactly the replacement the recursive definition describes |
| Comments.PlainPrefixKept | scripts/remove-comments.js:30-38 | text without quotes or slashes is copied unchanged in front of the rest's result |
| Comments.NoMarkersUnchanged | scripts/remove-comments.js:30-38 | text without quotes or slashes comes back unchanged |
| Comments.LiteralKept | scripts/remove-comments.js:33-35 | a complete quoted literal, escapes included, is kept verbatim and the scan continues after it |
| Comments.UnclosedQuoteCopied | scripts/remove-comments.js:30-38 | an opening quote without a closing one is copied and the scan continues with the next character |
| Comments.MarkersInLiteralKept | scripts/remove-comments.js:30-35 | comment markers inside a string literal are kept |
| Comments.BlockDeleted | scripts/remove-comments.js:30-37 | a block comment up to its first closer is deleted entirely |
| Comments.UnclosedBlockKept | scripts/remove-comments.js:30-38 | a block opener without a closer is kept and the text after it is scanned as usual |
| Comments.LineDeleted | scripts/remove-comments.js:30-37 | a line comment is deleted up to the line terminator, which is kept |
| Comments.OutputIsSubsequence | scripts/remove-comments.js:26-39 | the output is the input with some characters deleted and none added or reordered |
| MessageInput.RecordingTimeReadsBack | components/chat/message-input-enhanced.tsx:274-278 | the recorder's `m:ss` text reads back to the elapsed seconds, and has four characters below ten minutes |
| Sorting.Insert | app/api/messages/route.ts:32 | inserting adds exactly the one element to the multiset of the list |
| Sorting.SortBy | app/api/messages/route.ts:32 | the sorted list is a permutation of the input |
| Sorting.SortBySorted | app/api/chats/route.ts:61-69 | under a total preorder the sorted list is ordered |
| MessagesApi.ClearedAt | app/api/messages/route.ts:15-16 | a clearing time found is the one the first chat with that id stores for the user; there is none exactly when no chat has the id, no user is given, or the chat holds no entry for the user |
| Base.TrimStart | app/api/auth/route.ts:49-50 | the result is a suffix of the input that starts with a non-whitespace character, and everything removed is whitespace |
| Base.TrimEnd | app/api/auth/route.ts:49-50 | the result is a prefix of the input that ends with a non-whitespace character, and everything removed is whitespace |
| Base.TrimEmptyIffBlank | components/chat/message-input-enhanced.tsx:91 | trimming gives the empty string exactly when every character is whitespace |
| Base.TrimIdempotent | app/api/auth/route.ts:49-50 | trimming twice is trimming once |
| Base.Includes | app/api/upload/route.ts:29 | the test holds exactly when the needle occurs at some position |
| Base.NatToStringRoundTrip | components/chat/call-message.tsx:29-31 | the decimal text of a number reads back to that number |
| Sorting.SortByMembers | components/chat/call-history.tsx:30 | sorting keeps exactly the input's elements |

## Left out

- Transport: socket.io connections, the server bootstrap and `lib/socket.ts` are not modelled. Emits are an output list, and a socket is an abstract id.
- React: rendering, hooks, effect timing, toasts and modals are not modelled, and neither are stale closures, except the `endCall` reached when starting or answering a call fails. The ring timer is a map from timer handle to the captured call, and expiry is an explicit event.
- WebRTC: `lib/webrtc.ts` is not part of this model. The peer is present or absent, and its set-up succeeds or fails as a parameter.
- Persistence: MongoDB queries, `populate` and cast errors of malformed ids are not modelled. The store is a set of sequences, and a failed cast would be a 500 the model does not produce.
- Password hashing: bcrypt is a `Crypto` parameter (hash and compare), assumed sound only where a lemma says so. That assumption says a password matches a hash exactly when it equals the hashed password. Real bcrypt ignores every byte after the 72nd, so two long passwords that share their first 72 bytes also match.
- Media host: Cloudinary is a parameter holding the URL it returned, or nothing when it failed.
- E-mail: the friend-request and acceptance e-mails are left out. A failed e-mail does not change the reply, so no reply depends on them.
- The assistant endpoint (`app/api/ai-chat/route.ts`) and user search (`app/api/users/route.ts`) are not part of this model. The composer's hand-over to the assistant is modelled as an effect.
- Chat creation by POST on `app/api/chats/route.ts` is not modelled. Chats are created by the find-or-create endpoint and by accepting a friend request.
- Locale text: `toLocaleDateString`, `toLocaleTimeString`, `utils/date-utils.ts:25-36` and the year-plus fallback at `utils/date-utils.ts:22` are left out. Those cases render as a `LocaleDate` value that carries the timestamp.
- An invalid `Date` is not told apart from a missing one. Both are `None`, which is what the formatters do with either.
- Fractional mute hours are not modelled. The hours are a whole number, and a missing or zero value means 8, as the endpoint does.
- CallText.Search: lowercasing covers ASCII letters only, where JavaScript's `toLowerCase` folds all of Unicode.
- The composer's three-second stop-typing timer is left out. Whether it fires depends on which render's `isTyping` the timeout captured, which would need React closure semantics.
- The missed-call badge's memoisation is left out. The component recomputes the badge only when chats or messages change, while the model recomputes it from the stored last visit. An unreadable stored value is not modelled either.
- The browser's checks on the signup form follow the HTML standard's "valid e-mail address" grammar and value sanitisation for e-mail and text inputs. The message the browser shows for a blocked submit is not modelled; a blocked submit is one outcome. Browsers that convert an internationalised domain to punycode before checking it are not modelled, so such an address counts as invalid. The phone field is neither required nor sent, so it is left out of the form.
- Touch and mouse positions are whole pixels. Fractional `clientX` values are not modelled.
- MessageBubble.TallyCounts: the entry order of `Object.entries` is modelled as first-seen order. This is JavaScript's order for ordinary keys, but not for emoji strings that look like array indices, such as "1".
- The header's socket presence guard is not modelled, and neither is `sendMessage` returning early without a signed-in user. The signal handlers assume a socket, and the composer hands over a request only with a user.
- Attachments, locations and reply references in message payloads are not modelled, apart from the type they carry.
- `scripts/remove-comments.js:5-24` and `:41-60`, the directory walk and the file rewriting, are file I/O and are left out.
- Comments.RemoveComments: the input is a sequence of code points, where JavaScript works on UTF-16 code units. Astral characters are never quotes, slashes or line terminators, so the result is the same text either way.
- Sorting.SortBy: stability (equal elements keep their input order) is how the function is built, but no contract states it.
- Seed scripts, the audio player, the location picker and the ringtone are left out. They involve floats, randomness or device I/O.
- CallSession.InitiateFailureSilent: the `endCall` that a failed start or answer reaches is the one from the render that last created the memoised callback. The model takes the provider as it was just before the attempt. The two agree whenever the provider was idle at both moments. When a call was already in progress, the model's captured `endCall` ends that call, which the source does only if the callback was created during it.
- Three behaviours of the call flow worth noting:
  - early offers and ICE candidates are dropped, not buffered, when no peer exists (`CallSession.EarlyCandidateLost`);
  - a remote rejection or hang-up goes through `endCall`, so the call is recorded as cancelled (`CallSession.RemoteEndRecordsCancelled`);
  - the caller's side has no ring timeout (`CallSession.PlacedCallCompletes`).

## Findings

| source | as written | input that shows it | evidently intended | confidence | as-written member | corrected member |
|---|---|---|---|---|---|---|
| components/chat/call-message.tsx:66-70 | the call-back passes the chat id where `initiateCall` expects the callee's user id | a missed incoming call in chat "c1" with peer "u2": the relay looks up socket "c1", finds none and drops the call silently | call the chat's other participant, as the chat header's call buttons do (components/chat/chat-header.tsx:157) | high, not executed | CallText.CallBackRingsNoOne | CallText.CallBackToPeerRings |
| app/api/auth/route.ts:28 | signup hashes the password as sent, but login (lines 49-58) compares the trimmed password | signup with password "secret1 " succeeds, and then every login with "secret1 " is refused as "Invalid password" | normalise the password the same way on both paths | high, not executed | AuthApi.PaddedPasswordLocksOut | AuthApi.SignupThenLoginCorrected |
