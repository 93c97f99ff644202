/**
 The message composer: typing announces itself once on the relay, and
 sending a non-blank draft first withdraws the typing announcement, then
 clears the draft and the reply banner, then hands the text as typed to the
 assistant endpoint (when the peer is the assistant) or to the message
 endpoint as a text message. The composer's own stop-typing timer is not
 modelled.
 */
module MessageInput {
  import opened Base
  import opened Domain
  import CallSession
  import MessagesApi
  import TimeText

  const AssistantName: string := "AI Assistant"

  /** The draft and whether the composer has announced typing. */
  datatype Composer = Composer(draft: string, isTyping: bool)

  /** The selected chat and the name of its peer, if the peer is known. */
  datatype Selected = Selected(chatId: Id, peerName: Option<string>)

  datatype Effect =
    | EmitTyping(chatId: Id, userId: Id, userName: string)
    | EmitStopTyping(chatId: Id, maybeUserId: Option<Id>, maybeUserName: Option<string>)
    | CancelReply
    | AskAssistant(chatId: Id, senderId: Option<Id>, text: string)
    | SendText(chatId: Id, text: string)

  datatype Outcome = Outcome(next: Composer, out: seq<Effect>)

  /**
   A keystroke: the draft always follows the input; with a chat, a user and
   a socket, the first non-empty draft announces typing.
   */
  function OnInput(c: Composer, text: string, chat: Option<Id>, me: Option<CallSession.Party>, socket: bool): Outcome
  {
    if chat.None? || me.None? || !socket then Outcome(c.(draft := text), [])
    else if |text| > 0 && !c.isTyping then
      Outcome(Composer(text, true), [EmitTyping(chat.value, me.value.id, me.value.name)])
    else Outcome(c.(draft := text), [])
  }

  function OnInputs(c: Composer, texts: seq<string>, chat: Option<Id>, me: Option<CallSession.Party>, socket: bool): Outcome
    decreases |texts|
  {
    if |texts| == 0 then Outcome(c, [])
    else
      var first := OnInput(c, texts[0], chat, me, socket);
      var rest := OnInputs(first.next, texts[1..], chat, me, socket);
      Outcome(rest.next, first.out + rest.out)
  }

  /** Sending: nothing for a blank draft or without a chat. */
  function Send(c: Composer, chat: Option<Selected>, me: Option<CallSession.Party>, socket: bool): Outcome
  {
    if Trim(c.draft) == "" || chat.None? then Outcome(c, [])
    else
      var sel := chat.value;
      var meId := if me.Some? then Some(me.value.id) else None;
      var meName := if me.Some? then Some(me.value.name) else None;
      var stop := if c.isTyping && socket then [EmitStopTyping(sel.chatId, meId, meName)] else [];
      var route := if sel.peerName == Some(AssistantName) then AskAssistant(sel.chatId, meId, c.draft)
                   else SendText(sel.chatId, c.draft);
      Outcome(Composer("", c.isTyping && !socket), stop + [CancelReply, route])
  }

  function TypingEmits(out: seq<Effect>): nat
  {
    Count(out, (e: Effect) => e.EmitTyping?)
  }

  /** A keystroke announces typing exactly when the draft is non-empty and none is announced yet. */
  lemma InputGuard(c: Composer, text: string, chat: Option<Id>, me: Option<CallSession.Party>, socket: bool)
    ensures var o := OnInput(c, text, chat, me, socket);
      && o.next.draft == text
      && (|o.out| > 0 <==> chat.Some? && me.Some? && socket && text != "" && !c.isTyping)
      && (|o.out| > 0 ==> o.out == [EmitTyping(chat.value, me.value.id, me.value.name)] && o.next.isTyping)
      && (|o.out| == 0 ==> o.next.isTyping == c.isTyping)
  {
  }

  /**
   However many keystrokes follow, typing is announced at most once: once if
   none was announced and some draft was non-empty (with a chat, user and
   socket), otherwise never.
   */
  lemma {:induction false} AnnouncedOnce(c: Composer, texts: seq<string>, chat: Option<Id>, me: Option<CallSession.Party>, socket: bool)
    ensures var o := OnInputs(c, texts, chat, me, socket);
      TypingEmits(o.out) ==
        (if chat.Some? && me.Some? && socket && !c.isTyping && exists i :: 0 <= i < |texts| && texts[i] != "" then 1 else 0)
    ensures c.isTyping ==> OnInputs(c, texts, chat, me, socket).next.isTyping
    decreases |texts|
  {
    if |texts| > 0 {
      var first := OnInput(c, texts[0], chat, me, socket);
      var rest := OnInputs(first.next, texts[1..], chat, me, socket);
      InputGuard(c, texts[0], chat, me, socket);
      AnnouncedOnce(first.next, texts[1..], chat, me, socket);
      assert OnInputs(c, texts, chat, me, socket) == Outcome(rest.next, first.out + rest.out);
      FilterAppend(first.out, rest.out, (e: Effect) => e.EmitTyping?);
      assert TypingEmits(first.out) == |first.out|;
      SomeNonEmptyCons(texts);
    }
  }

  /** Some draft is non-empty exactly when the first is or some later one is. */
  lemma SomeNonEmptyCons(texts: seq<string>)
    requires |texts| > 0
    ensures (exists i :: 0 <= i < |texts| && texts[i] != "") <==>
            texts[0] != "" || exists i :: 0 <= i < |texts[1..]| && texts[1..][i] != ""
  {
    if exists i :: 0 <= i < |texts| && texts[i] != "" {
      var i :| 0 <= i < |texts| && texts[i] != "";
      if i > 0 {
        assert texts[1..][i - 1] == texts[i];
      }
    }
    if exists i :: 0 <= i < |texts[1..]| && texts[1..][i] != "" {
      var i :| 0 <= i < |texts[1..]| && texts[1..][i] != "";
      assert texts[i + 1] == texts[1..][i];
    }
  }

  /** A blank draft (only whitespace) or no selected chat: nothing is sent and nothing changes. */
  lemma SendGuards(c: Composer, chat: Option<Selected>, me: Option<CallSession.Party>, socket: bool)
    ensures Send(c, chat, me, socket) == Outcome(c, []) <==>
      chat.None? || forall i :: 0 <= i < |c.draft| ==> IsJsWhitespace(c.draft[i])
  {
    TrimEmptyIffBlank(c.draft);
  }

  /**
   A send that goes ahead ends with exactly one hand-over of the draft as
   typed, after the reply banner is cancelled and, when typing was announced
   over a socket, after a stop-typing signal; the draft is then empty and a
   later keystroke may announce typing again.
   */
  lemma SendOrder(c: Composer, sel: Selected, me: Option<CallSession.Party>, socket: bool)
    requires Trim(c.draft) != ""
    ensures var o := Send(c, Some(sel), me, socket);
      var n := |o.out|;
      && o.next.draft == ""
      && (c.isTyping && socket <==> n == 3)
      && (n == 3 ==> o.out[0].EmitStopTyping? && o.out[0].chatId == sel.chatId)
      && o.out[n - 2] == CancelReply
      && (o.out[n - 1] == AskAssistant(sel.chatId, if me.Some? then Some(me.value.id) else None, c.draft)
          <==> sel.peerName == Some("AI Assistant"))
      && (o.out[n - 1] == SendText(sel.chatId, c.draft) <==> sel.peerName != Some("AI Assistant"))
      && (socket ==> !o.next.isTyping)
  {
  }

  /** The message request a text hand-over becomes (`sendMessage(chatId, text, "text")`). */
  function PostOf(e: Effect, me: CallSession.Party): MessagesApi.PostRequest
    requires e.SendText?
  {
    MessagesApi.PostRequest(Some(e.chatId), Some(me.id), Some(e.text), Some("text"), None)
  }

  /** A sent draft is stored as a text message holding the draft untrimmed. */
  lemma SentDraftStored(st: Store, c: Composer, sel: Selected, me: CallSession.Party, socket: bool,
                        freshId: Id, now: Millis)
    requires Trim(c.draft) != "" && sel.peerName != Some("AI Assistant")
    requires sel.chatId != "" && me.id != "" && ChatIndex(st, sel.chatId).Some?
    requires freshId !in MessageIds(st)
    ensures var o := Send(c, Some(sel), Some(me), socket);
      var h := MessagesApi.Post(st, PostOf(o.out[|o.out| - 1], me), freshId, now);
      && h.reply.Ok? && h.st.messages == st.messages + [h.reply.body]
      && h.reply.body.text == c.draft && h.reply.body.kind == Text && h.reply.body.chatId == sel.chatId
  {
    assert ParseMessageType("text") == Some(Text);
  }

  /** The voice recorder's elapsed time: minutes unpadded, seconds padded to two digits. */
  function RecordingTime(seconds: nat): string
  {
    TimeText.ShortClock(seconds)
  }

  /**
   The recorder's text reads back to the elapsed seconds, so no two
   durations look alike, and below ten minutes it has exactly four
   characters.
   */
  lemma RecordingTimeReadsBack(seconds: nat)
    ensures TimeText.ParseClock(RecordingTime(seconds)) == Some(seconds)
    ensures seconds < 600 ==> |RecordingTime(seconds)| == 4
  {
    TimeText.ShortClockRoundTrip(seconds);
    NatToStringShort(seconds / 60);
    TimeText.PaddedSeconds(seconds);
  }
}
