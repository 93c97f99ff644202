/**
 One message bubble: swipe-to-reply, the per-emoji reaction tally, the read
 receipt on the user's own messages, the edit-save guard, the star toggle
 and the placeholder of a message deleted for everyone. Horizontal touch and mouse
 positions are whole pixels.
 */
module MessageBubble {
  import opened Base
  import opened Domain
  import MessagesApi
  import StatusApi

  // ---------------------------------------------------------------------------
  // Swipe to reply
  // ---------------------------------------------------------------------------

  /** A release past this many pixels replies. */
  const ReplyThreshold: int := 50

  /** Moves of this many pixels or more are not followed. */
  const MaxDrag: int := 100

  /** Where the press started (if one is in progress), the drag offset and the dragging flag. */
  datatype Swipe = Swipe(start: Option<int>, dragX: int, dragging: bool)

  const Rest: Swipe := Swipe(None, 0, false)

  /** Pressing records the start; the offset is left as it was. */
  function Press(s: Swipe, x: int): Swipe
  {
    Swipe(Some(x), s.dragX, true)
  }

  /** A move is followed only rightwards and only while it stays under 100 pixels. */
  function Move(s: Swipe, x: int): Swipe
  {
    if s.start.None? then s
    else
      var diff := x - s.start.value;
      if 0 < diff < MaxDrag then s.(dragX := diff) else s
  }

  datatype Released = Released(next: Swipe, reply: bool)

  /** Releasing replies when the offset passed the threshold, and always comes back to rest. */
  function Lift(s: Swipe): Released
  {
    Released(Rest, s.dragX > ReplyThreshold)
  }

  function Moves(s: Swipe, xs: seq<int>): (r: Swipe)
    ensures r.start == s.start && r.dragging == s.dragging
    decreases |xs|
  {
    if |xs| == 0 then s else Moves(Move(s, xs[0]), xs[1..])
  }

  /** The last move that was followed, as an offset from the start; 0 when none was. */
  function LastFollowed(x0: int, xs: seq<int>): (d: int)
    ensures d == 0 || 0 < d < MaxDrag
    decreases |xs|
  {
    if |xs| == 0 then 0
    else
      var diff := xs[|xs| - 1] - x0;
      if 0 < diff < MaxDrag then diff else LastFollowed(x0, xs[..|xs| - 1])
  }

  /** The offset stays in [0, 100) whatever the touch or mouse does. */
  lemma OffsetBounded(s: Swipe, x: int)
    requires 0 <= s.dragX < MaxDrag
    ensures 0 <= Press(s, x).dragX < MaxDrag && 0 <= Move(s, x).dragX < MaxDrag
    ensures Lift(s).next == Rest && (Lift(s).reply <==> s.dragX > 50)
  {
  }

  /**
   During a gesture that began at rest, the offset is the last followed
   move's distance from the start.
   */
  lemma {:induction false} OffsetIsLastFollowed(x0: int, xs: seq<int>)
    ensures Moves(Press(Rest, x0), xs).dragX == LastFollowed(x0, xs)
    decreases |xs|
  {
    if |xs| > 0 {
      var init := xs[..|xs| - 1];
      OffsetIsLastFollowed(x0, init);
      MovesSnoc(Press(Rest, x0), init, xs[|xs| - 1]);
      assert init + [xs[|xs| - 1]] == xs;
    }
  }

  lemma {:induction false} MovesSnoc(s: Swipe, xs: seq<int>, x: int)
    ensures Moves(s, xs + [x]) == Move(Moves(s, xs), x)
    decreases |xs|
  {
    if |xs| == 0 {
      assert Moves(s, [x]) == Moves(Move(s, x), []);
    } else {
      assert (xs + [x])[1..] == xs[1..] + [x];
      MovesSnoc(Move(s, xs[0]), xs[1..], x);
    }
  }

  /** A gesture from rest replies exactly when its last followed move went past 50 pixels. */
  lemma GestureReplies(x0: int, xs: seq<int>)
    ensures var r := Lift(Moves(Press(Rest, x0), xs));
      r.next == Rest && (r.reply <==> LastFollowed(x0, xs) > 50)
  {
    OffsetIsLastFollowed(x0, xs);
  }

  /** A single jump of 100 pixels or more is not followed, so it does not reply. */
  lemma FastSwipeIgnored(x0: int, x1: int)
    requires x1 - x0 >= 100
    ensures !Lift(Moves(Press(Rest, x0), [x1])).reply
  {
    GestureReplies(x0, [x1]);
    assert [x1][..0] == [];
  }

  // ---------------------------------------------------------------------------
  // Reaction tally
  // ---------------------------------------------------------------------------

  /** How many reactions use the emoji. */
  function EmojiCount(rs: seq<Reaction>, e: string): nat
    decreases |rs|
  {
    if |rs| == 0 then 0
    else EmojiCount(rs[..|rs| - 1], e) + (if rs[|rs| - 1].emoji == e then 1 else 0)
  }

  /** An emoji with a positive count is used by some reaction. */
  lemma {:induction false} CountedEmojiUsed(rs: seq<Reaction>, e: string)
    requires EmojiCount(rs, e) > 0
    ensures exists i :: 0 <= i < |rs| && rs[i].emoji == e
    decreases |rs|
  {
    var init := rs[..|rs| - 1];
    if rs[|rs| - 1].emoji != e {
      CountedEmojiUsed(init, e);
      var i :| 0 <= i < |init| && init[i].emoji == e;
      assert rs[i] == init[i];
    }
  }

  /** One more use of the emoji: its entry is incremented, or added with count 1 after the others. */
  function Bump(t: seq<(string, nat)>, e: string): seq<(string, nat)>
  {
    match FirstIndex(t, (p: (string, nat)) => p.0 == e)
    case None => t + [(e, 1)]
    case Some(k) => t[k := (e, t[k].1 + 1)]
  }

  /** The `reduce` over the reactions, one bump per reaction in order. */
  function Tally(rs: seq<Reaction>): seq<(string, nat)>
    decreases |rs|
  {
    if |rs| == 0 then [] else Bump(Tally(rs[..|rs| - 1]), rs[|rs| - 1].emoji)
  }

  function SumCounts(t: seq<(string, nat)>): nat
    decreases |t|
  {
    if |t| == 0 then 0 else t[0].1 + SumCounts(t[1..])
  }

  /** Each emoji once, with the number of reactions that use it. */
  predicate TallyOf(t: seq<(string, nat)>, rs: seq<Reaction>)
  {
    && (forall i, j :: 0 <= i < j < |t| ==> t[i].0 != t[j].0)
    && (forall k :: 0 <= k < |t| ==> t[k].1 == EmojiCount(rs, t[k].0) && t[k].1 > 0)
    && (forall i :: 0 <= i < |rs| ==> exists k :: 0 <= k < |t| && t[k].0 == rs[i].emoji)
  }

  lemma EmojiCountSnoc(rs: seq<Reaction>, r: Reaction, e: string)
    ensures EmojiCount(rs + [r], e) == EmojiCount(rs, e) + (if r.emoji == e then 1 else 0)
  {
    assert (rs + [r])[..|rs|] == rs;
  }

  lemma {:induction false} SumCountsAppend(t: seq<(string, nat)>, p: (string, nat))
    ensures SumCounts(t + [p]) == SumCounts(t) + p.1
    decreases |t|
  {
    if |t| == 0 {
      assert SumCounts([p]) == p.1 + SumCounts([]);
    } else {
      assert (t + [p])[1..] == t[1..] + [p];
      SumCountsAppend(t[1..], p);
    }
  }

  lemma {:induction false} SumCountsUpdate(t: seq<(string, nat)>, k: nat, p: (string, nat))
    requires k < |t|
    ensures SumCounts(t[k := p]) == SumCounts(t) - t[k].1 + p.1
    decreases |t|
  {
    if k > 0 {
      assert t[k := p][1..] == t[1..][k - 1 := p];
      SumCountsUpdate(t[1..], k - 1, p);
    }
  }

  /** A missing emoji counts nothing. */
  lemma AbsentEmojiCountsZero(t: seq<(string, nat)>, rs: seq<Reaction>, e: string)
    requires TallyOf(t, rs)
    requires forall k :: 0 <= k < |t| ==> t[k].0 != e
    ensures EmojiCount(rs, e) == 0
  {
    if EmojiCount(rs, e) > 0 {
      CountedEmojiUsed(rs, e);
    }
  }

  /** A new emoji is appended with count 1. */
  lemma BumpNew(t: seq<(string, nat)>, init: seq<Reaction>, r: Reaction)
    requires TallyOf(t, init) && SumCounts(t) == |init|
    requires FirstIndex(t, (p: (string, nat)) => p.0 == r.emoji).None?
    ensures TallyOf(Bump(t, r.emoji), init + [r]) && SumCounts(Bump(t, r.emoji)) == |init| + 1
  {
    var e := r.emoji;
    var rs := init + [r];
    var t1 := Bump(t, e);
    assert t1 == t + [(e, 1)];
    AbsentEmojiCountsZero(t, init, e);
    SumCountsAppend(t, (e, 1));
    forall e' ensures EmojiCount(rs, e') == EmojiCount(init, e') + (if e == e' then 1 else 0) {
      EmojiCountSnoc(init, r, e');
    }
    forall i | 0 <= i < |rs|
      ensures exists k :: 0 <= k < |t1| && t1[k].0 == rs[i].emoji
    {
      if i < |init| {
        assert rs[i] == init[i];
        var k :| 0 <= k < |t| && t[k].0 == init[i].emoji;
        assert t1[k] == t[k];
      } else {
        assert t1[|t|].0 == rs[i].emoji;
      }
    }
  }

  /** A known emoji has its count raised by one, in place. */
  lemma BumpKnown(t: seq<(string, nat)>, init: seq<Reaction>, r: Reaction, k: nat)
    requires TallyOf(t, init) && SumCounts(t) == |init|
    requires FirstIndex(t, (p: (string, nat)) => p.0 == r.emoji) == Some(k)
    ensures TallyOf(Bump(t, r.emoji), init + [r]) && SumCounts(Bump(t, r.emoji)) == |init| + 1
  {
    var e := r.emoji;
    var rs := init + [r];
    var t1 := Bump(t, e);
    assert t1 == t[k := (e, t[k].1 + 1)];
    SumCountsUpdate(t, k, (e, t[k].1 + 1));
    forall e' ensures EmojiCount(rs, e') == EmojiCount(init, e') + (if e == e' then 1 else 0) {
      EmojiCountSnoc(init, r, e');
    }
    forall i | 0 <= i < |rs|
      ensures exists j :: 0 <= j < |t1| && t1[j].0 == rs[i].emoji
    {
      if i < |init| {
        assert rs[i] == init[i];
        var j :| 0 <= j < |t| && t[j].0 == init[i].emoji;
        assert t1[j].0 == rs[i].emoji;
      } else {
        assert t1[k].0 == rs[i].emoji;
      }
    }
  }

  /**
   The tally lists each emoji once with its number of reactions, and the
   counts add up to the number of reactions.
   */
  lemma {:induction false} TallyCounts(rs: seq<Reaction>)
    ensures TallyOf(Tally(rs), rs)
    ensures SumCounts(Tally(rs)) == |rs|
    decreases |rs|
  {
    if |rs| > 0 {
      var init := rs[..|rs| - 1];
      var r := rs[|rs| - 1];
      assert rs == init + [r];
      TallyCounts(init);
      var t := Tally(init);
      match FirstIndex(t, (p: (string, nat)) => p.0 == r.emoji)
      case None => BumpNew(t, init, r);
      case Some(k) => BumpKnown(t, init, r, k);
    }
  }

  // ---------------------------------------------------------------------------
  // Read receipt
  // ---------------------------------------------------------------------------

  datatype Receipt = BlueDoubleTick | GreyDoubleTick | GreyTick

  /** Only the user's own messages carry a receipt. */
  function ReceiptFor(isOwn: bool, status: MessageStatus): Option<Receipt>
  {
    if !isOwn then None
    else if status == Read then Some(BlueDoubleTick)
    else if status == Delivered then Some(GreyDoubleTick)
    else Some(GreyTick)
  }

  /** The receipt distinguishes all three states on own messages and shows nothing on others'. */
  lemma ReceiptCases(isOwn: bool, a: MessageStatus, b: MessageStatus)
    ensures ReceiptFor(isOwn, a).None? <==> !isOwn
    ensures isOwn && a != b ==> ReceiptFor(isOwn, a) != ReceiptFor(isOwn, b)
    ensures ReceiptFor(true, a) == Some(BlueDoubleTick) <==> a == Read
  {
  }

  /**
   A read receipt for a message turns the sender's ticks blue; a delivery
   receipt arriving later turns them grey again.
   */
  lemma ReadThenDeliveredTicks(st: Store, k: nat, reader: Id, t1: Millis, t2: Millis)
    requires reader != "" && k < |st.messages|
    ensures var ids := [st.messages[k].id];
      var h1 := StatusApi.UpdateStatus(st, StatusApi.StatusRequest(Some(ids), Some("read"), Some(reader)), t1);
      var h2 := StatusApi.UpdateStatus(h1.st, StatusApi.StatusRequest(Some(ids), Some("delivered"), Some(reader)), t2);
      && ReceiptFor(true, h1.st.messages[k].status) == Some(BlueDoubleTick)
      && ReceiptFor(true, h2.st.messages[k].status) == Some(GreyDoubleTick)
  {
    var ids := [st.messages[k].id];
    var h1 := StatusApi.UpdateStatus(st, StatusApi.StatusRequest(Some(ids), Some("read"), Some(reader)), t1);
    assert "read" != "delivered";
    assert h1.st.messages == StatusApi.MarkRead(st.messages, ids, reader, t1);
    StatusApi.DeliveredAfterReadRegresses(h1.st, k, reader, t2);
  }

  // ---------------------------------------------------------------------------
  // Edit, star, deleted placeholder
  // ---------------------------------------------------------------------------

  /**
   Saving an edit sends the draft as typed, only with a chat selected, a
   draft that is not blank and one that differs from the message; the editor
   closes either way.
   */
  function EditSave(selected: Option<Id>, original: string, draft: string): Option<string>
  {
    if selected.Some? && Trim(draft) != "" && draft != original then Some(draft) else None
  }

  /**
   What a saved edit does on the server: the sender's message takes the
   draft, after which saving the same draft again sends nothing.
   */
  lemma EditSaveStored(st: Store, messageId: Id, user: Id, selected: Option<Id>, draft: string, now: Millis)
    requires Lookup(st, messageId).Some?
    requires EditSave(selected, st.messages[Lookup(st, messageId).value].text, draft).Some?
    requires st.messages[Lookup(st, messageId).value].senderId == user
    ensures var i := Lookup(st, messageId).value;
      var h := MessagesApi.Act(st, MessagesApi.ActionRequest(Some(messageId), user, "edit",
                                                            Some(MessagesApi.ActionData(false, draft))), now);
      && h.reply.Ok? && h.st.messages == st.messages[i := h.reply.body]
      && h.reply.body.text == draft && h.reply.body.edited
      && EditSave(selected, h.reply.body.text, draft).None?
  {
    MessagesApi.EditBySenderOnly(st, messageId, user, Some(MessagesApi.ActionData(false, draft)), now);
  }

  function Lookup(st: Store, messageId: Id): Option<nat>
  {
    MessagesApi.Lookup(st, Some(messageId))
  }

  /** Blank drafts, unchanged drafts and drafts without a selected chat are never sent. */
  lemma EditSaveGuards(selected: Option<Id>, original: string, draft: string)
    ensures EditSave(selected, original, draft).Some? <==>
      selected.Some? && draft != original && exists i :: 0 <= i < |draft| && !IsJsWhitespace(draft[i])
    ensures EditSave(selected, original, draft).Some? ==> EditSave(selected, original, draft).value == draft
  {
    TrimEmptyIffBlank(draft);
  }

  /** The star button asks to unstar a starred message and to star any other. */
  function StarAction(starred: bool): MessagesApi.MessageAction
  {
    if starred then MessagesApi.Unstar else MessagesApi.Star
  }

  /** Pressing the star flips the starred flag the user sees. */
  lemma StarToggleFlips(st: Store, messageId: Id, user: Id, now: Millis)
    requires Lookup(st, messageId).Some?
    ensures var i := Lookup(st, messageId).value;
      var before := MessagesApi.View(st.messages[i], Some(user)).starred;
      var h := MessagesApi.Act(st, MessagesApi.ActionRequest(Some(messageId), user,
                                                            MessagesApi.MessageActionName(StarAction(before)), None), now);
      h.reply.Ok? && MessagesApi.View(h.reply.body, Some(user)).starred == !before
  {
    MessagesApi.StarUnstar(st, messageId, user, None, now);
  }

  datatype Body = DeletedPlaceholder | Content(kind: MessageType)

  function BodyOf(v: MessagesApi.MessageView): Body
  {
    if v.deletedForEveryone then DeletedPlaceholder else Content(v.kind)
  }

  /**
   A message its sender deletes for everyone within the hour shows the
   placeholder to every viewer, whatever its type; any other message shows
   its own content.
   */
  lemma DeletedShowsPlaceholder(st: Store, messageId: Id, sender: Id, viewer: Option<Id>, now: Millis)
    requires Lookup(st, messageId).Some?
    requires st.messages[Lookup(st, messageId).value].senderId == sender
    requires now - st.messages[Lookup(st, messageId).value].createdAt < 3600000
    ensures var i := Lookup(st, messageId).value;
      var h := MessagesApi.Act(st, MessagesApi.ActionRequest(Some(messageId), sender, "delete",
                                                            Some(MessagesApi.ActionData(true, ""))), now);
      && BodyOf(MessagesApi.View(h.st.messages[i], viewer)) == DeletedPlaceholder
      && (!st.messages[i].deletedForEveryone ==>
            BodyOf(MessagesApi.View(st.messages[i], viewer)) == Content(st.messages[i].kind))
  {
    MessagesApi.DeleteForEveryoneWindow(st, messageId, sender, "", now);
  }
}
