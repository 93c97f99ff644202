/**
 The chat header: the set of users it shows as typing (fed by the relay's
 `userTyping` and `userStoppedTyping` signals, cleared whenever another chat
 is selected), the status line under the peer's name, and the mute toggle.
 */
module ChatHeader {
  import opened Base
  import opened Domain
  import TimeText
  import ChatsApi

  /** The selected chat, the signed-in user and the users shown as typing. */
  datatype Header = Header(selected: Option<Id>, me: Option<Id>, typing: set<Id>)

  datatype Signal = UserTyping(chatId: Id, userId: Id) | UserStoppedTyping(chatId: Id, userId: Id)

  /** No chat selected, nobody typing. */
  function Initial(me: Option<Id>): (h: Header)
    ensures h.typing == {} && h.selected.None?
  {
    Header(None, me, {})
  }

  /**
   A signal counts only for the selected chat; a typing signal from the
   signed-in user is ignored (with nobody signed in, every sender counts).
   */
  function OnSignal(h: Header, sig: Signal): Header
  {
    if h.selected.None? || sig.chatId != h.selected.value then h
    else
      match sig
      case UserTyping(_, u) => if h.me == Some(u) then h else h.(typing := h.typing + {u})
      case UserStoppedTyping(_, u) => h.(typing := h.typing - {u})
  }

  /** Selecting a chat; the set is emptied when the selected id changes. */
  function Select(h: Header, chat: Option<Id>): (r: Header)
    ensures r.selected == chat && r.me == h.me
    ensures chat != h.selected ==> r.typing == {}
    ensures chat == h.selected ==> r == h
  {
    h.(selected := chat, typing := if chat == h.selected then h.typing else {})
  }

  function Run(h: Header, sigs: seq<Signal>): (r: Header)
    ensures r.selected == h.selected && r.me == h.me
    decreases |sigs|
  {
    if |sigs| == 0 then h else Run(OnSignal(h, sigs[0]), sigs[1..])
  }

  /** Nothing is shown without a selected chat, and the user never sees themself typing. */
  predicate Consistent(h: Header)
  {
    && (h.selected.None? ==> h.typing == {})
    && (h.me.Some? ==> h.me.value !in h.typing)
  }

  /**
   What one signal does to the set, user by user: a typing signal for the
   selected chat adds its sender unless that is the signed-in user, a stop
   signal for it removes its sender, and every other user keeps their place.
   */
  lemma SignalEffect(h: Header, sig: Signal, v: Id)
    ensures var r := OnSignal(h, sig);
      var mine := h.selected == Some(sig.chatId);
      && r.selected == h.selected && r.me == h.me
      && (v in r.typing <==>
            if mine && v == sig.userId
            then sig.UserTyping? && (v in h.typing || h.me != Some(v))
            else v in h.typing)
  {
  }

  /** Both signals and selection keep the header consistent. */
  lemma StaysConsistent(h: Header, sig: Signal, chat: Option<Id>)
    requires Consistent(h)
    ensures Consistent(OnSignal(h, sig)) && Consistent(Select(h, chat))
  {
  }

  /** A user who starts and stops typing leaves the set as it was. */
  lemma TypingThenStop(h: Header, chat: Id, u: Id)
    requires h.selected == Some(chat) && u !in h.typing
    ensures OnSignal(OnSignal(h, UserTyping(chat, u)), UserStoppedTyping(chat, u)) == h
  {
  }

  /**
   After any run of signals, everyone shown as typing was already shown or
   sent a typing signal for the selected chat, and is not the signed-in user.
   */
  lemma {:induction false} RunShowsOnlySenders(h: Header, sigs: seq<Signal>)
    requires Consistent(h)
    ensures var r := Run(h, sigs);
      && Consistent(r)
      && forall u :: u in r.typing ==>
           u in h.typing || (h.selected.Some? && UserTyping(h.selected.value, u) in sigs)
    decreases |sigs|
  {
    if |sigs| > 0 {
      var h1 := OnSignal(h, sigs[0]);
      StaysConsistent(h, sigs[0], h.selected);
      RunShowsOnlySenders(h1, sigs[1..]);
      var r := Run(h, sigs);
      forall u | u in r.typing
        ensures u in h.typing || (h.selected.Some? && UserTyping(h.selected.value, u) in sigs)
      {
        if u !in h1.typing {
          assert UserTyping(h.selected.value, u) in sigs[1..];
        } else if u !in h.typing {
          SignalEffect(h, sigs[0], u);
          assert sigs[0] == UserTyping(h.selected.value, u);
        }
      }
    }
  }

  // ---------------------------------------------------------------------------
  // Status line
  // ---------------------------------------------------------------------------

  datatype Status = TypingNow | ActiveNow | LastSeen(when: TimeText.Rendered)

  /** "typing...", else "Active now" for an online peer, else "Last seen" and the relative time. */
  function StatusOf(h: Header, peer: Presence, lastSeen: Option<Millis>, now: Millis): Status
  {
    if |h.typing| > 0 then TypingNow
    else if peer == Online then ActiveNow
    else LastSeen(TimeText.HeaderTime(lastSeen, now))
  }

  /**
   Typing wins over presence, presence over the last-seen time; the
   last-seen time uses the header's relative buckets ("unknown" without one).
   */
  lemma StatusPriority(h: Header, peer: Presence, lastSeen: Option<Millis>, now: Millis)
    ensures StatusOf(h, peer, lastSeen, now) == TypingNow <==> h.typing != {}
    ensures StatusOf(h, peer, lastSeen, now) == ActiveNow <==> h.typing == {} && peer == Online
    ensures StatusOf(h, peer, lastSeen, now).LastSeen? <==> h.typing == {} && peer != Online
    ensures lastSeen.None? && h.typing == {} && peer != Online ==>
      StatusOf(h, peer, lastSeen, now) == LastSeen(TimeText.Plain("unknown"))
  {
    if h.typing != {} {
      var u :| u in h.typing;
      assert |h.typing| > 0;
    }
  }

  /** The server's own typing status is not consulted: a stop signal brings the line back to presence. */
  lemma StopSignalRestoresPresence(chat: Id, me: Option<Id>, u: Id, peer: Presence, lastSeen: Option<Millis>, now: Millis)
    ensures var h := Header(Some(chat), me, {u});
      StatusOf(OnSignal(h, UserStoppedTyping(chat, u)), peer, lastSeen, now) != TypingNow
  {
    assert {u} - {u} == {};
  }

  // ---------------------------------------------------------------------------
  // Mute
  // ---------------------------------------------------------------------------

  /** Muted while the reported end of the mute lies after now. */
  predicate IsMuted(mutedUntil: Option<Millis>, now: Millis)
  {
    mutedUntil.Some? && mutedUntil.value > now
  }

  /**
   A chat listed at `fetched` and shown at `now` appears muted exactly when
   the user's mute entry ends after both moments.
   */
  lemma MutedAsListed(st: Store, c: Chat, user: Id, fetched: Millis, now: Millis)
    requires ChatsApi.Summarize(st, c, user, fetched).Some?
    ensures var s := ChatsApi.Summarize(st, c, user, fetched).value;
      var m := ChatsApi.MuteOf(c, user);
      IsMuted(s.mutedUntil, now) <==> m.Some? && m.value > fetched && m.value > now
  {
  }

  /** The toggle: unmute a muted chat, otherwise mute it for 8 hours. */
  function ToggleRequest(chatId: Id, user: Id, mutedUntil: Option<Millis>, now: Millis): ChatsApi.PutRequest
  {
    if IsMuted(mutedUntil, now) then ChatsApi.Request(chatId, user, "unmute", None)
    else ChatsApi.Request(chatId, user, "mute", Some(8))
  }

  /**
   The toggle's request flips the user's stored mute: a shown-muted chat
   loses the entry, any other gets one ending 8 hours from now.
   */
  lemma ToggleFlipsMute(st: Store, chatId: Id, user: Id, shown: Option<Millis>, now: Millis)
    requires chatId != "" && user != "" && ChatIndex(st, chatId).Some?
    ensures var i := ChatIndex(st, chatId).value;
      var h := ChatsApi.Put(st, ToggleRequest(chatId, user, shown, now), now);
      && |h.st.chats| == |st.chats|
      && (IsMuted(shown, now) ==> ChatsApi.MuteOf(h.st.chats[i], user).None?)
      && (!IsMuted(shown, now) ==> ChatsApi.MuteOf(h.st.chats[i], user) == Some(now + 8 * 3600000))
  {
    var i := ChatIndex(st, chatId).value;
    var c := st.chats[i];
    if IsMuted(shown, now) {
      assert ToggleRequest(chatId, user, shown, now) == ChatsApi.Request(chatId, user, ChatsApi.ActionName(ChatsApi.Unmute), None);
      ChatsApi.PutSaves(st, chatId, user, ChatsApi.Unmute, None, now);
      ChatsApi.MuteReplaces(c, user, None, now);
    } else {
      assert ToggleRequest(chatId, user, shown, now) == ChatsApi.Request(chatId, user, ChatsApi.ActionName(ChatsApi.MuteFor), Some(8));
      ChatsApi.PutSaves(st, chatId, user, ChatsApi.MuteFor, Some(8), now);
      ChatsApi.MuteReplaces(c, user, Some(8), now);
    }
  }
}
