/** The chat window: the message listener of the selected chat and the send, edit and
    delete actions. */
module Window {
  import opened Wrappers
  import opened Records
  import Seqs
  import Sorting
  import Text
  import Display

  // ---------------------------------------------------------------------------
  // Message listener

  function CreatedKey(m: Message): int {
    m.createdAt
  }

  /** What the store delivers for the query "messages of chat `chatId` ordered by
      `createdAt` ascending": the stored messages, stably sorted, so that messages created
      at the same time stay in insertion order. */
  function MessageQuery(s: Store, chatId: Id): (r: seq<Message>)
    ensures multiset(r) == multiset(Msgs(s, chatId))
    ensures forall i, j :: 0 <= i < j < |r| ==> r[i].createdAt <= r[j].createdAt
  {
    Sorting.SortBy(Msgs(s, chatId), CreatedKey)
  }

  /** The message list shown for the current selection: empty with no chat selected,
      otherwise the query result for the selected chat. */
  function MessagesFor(selected: Option<Chat>, s: Store): (r: seq<Message>)
    ensures selected.None? ==> r == []
    ensures selected.Some? ==> multiset(r) == multiset(Msgs(s, selected.value.id))
    ensures forall i, j :: 0 <= i < j < |r| ==> r[i].createdAt <= r[j].createdAt
  {
    match selected
    case None => []
    case Some(c) => MessageQuery(s, c.id)
  }

  /** The listener applied to a series of deliveries: each snapshot replaces the list, so
      the result is the last delivery, whatever was shown before. */
  function ApplyDeliveries(current: seq<Message>, deliveries: seq<seq<Message>>): (r: seq<Message>)
    ensures deliveries == [] ==> r == current
    ensures deliveries != [] ==> r == deliveries[|deliveries| - 1]
    decreases deliveries
  {
    if deliveries == [] then current
    else ApplyDeliveries(deliveries[0], deliveries[1..])
  }

  // ---------------------------------------------------------------------------
  // Send

  datatype SendOutcome = Rejected | MessageWriteFailed | SummaryWriteFailed | Sent

  /** The store after the action, the composer input, and how far the action got. */
  datatype SendStep = SendStep(store: Store, input: string, outcome: SendOutcome)

  function NewMessage(id: Id, me: Profile, text: string, now: nat): Message {
    Message(id, text, me.uid, Text.OrElse(me.displayName, me.email), me.email, now, false, None)
  }

  /** `addDoc` on a chat's `messages` sub-collection. */
  function AddMessage(s: Store, chatId: Id, m: Message): (r: Store)
    ensures Msgs(r, chatId) == Msgs(s, chatId) + [m.(id := s.nextId)]
    ensures forall c :: c != chatId ==> Msgs(r, c) == Msgs(s, c)
    ensures r.chats == s.chats
    ensures WellFormed(s) ==> WellFormed(r)
  {
    var r := Store(s.chats, s.messages[chatId := Msgs(s, chatId) + [m.(id := s.nextId)]], s.nextId + 1);
    assert WellFormed(s) ==> WellFormed(r) by {
      if WellFormed(s) {
        forall c | c in r.messages ensures MessageIdsBelow(r.messages[c], r.nextId) && DistinctIds(r.messages[c]) {
          if c == chatId {
            var ms := Msgs(s, chatId);
            assert MessageIdsBelow(ms, s.nextId);
          }
        }
      }
    }
    r
  }

  /** The chat-summary update: `lastMessage` and `lastMessageTime` of chat `chatId`. */
  function SetSummary(chats: seq<Chat>, chatId: Id, text: string, now: nat): (r: seq<Chat>)
    ensures |r| == |chats|
    ensures forall i :: 0 <= i < |r| && chats[i].id == chatId ==>
              r[i] == chats[i].(lastMessage := text, lastMessageTime := Some(now))
    ensures forall i :: 0 <= i < |r| && chats[i].id != chatId ==> r[i] == chats[i]
  {
    seq(|chats|, i requires 0 <= i < |chats| =>
      if chats[i].id == chatId then chats[i].(lastMessage := text, lastMessageTime := Some(now)) else chats[i])
  }

  /** `handleSubmit`: rejected without any write when the trimmed input is empty or no
      chat is selected. Otherwise the message (with the untrimmed input) is added, then
      the chat summary is updated, and the input is cleared only when both writes
      succeed. The summary update fails when the chat document does not exist. */
  function Send(s: Store, selected: Option<Chat>, me: Profile, input: string, now: nat,
                messageOk: bool, summaryOk: bool): (r: SendStep)
    ensures Text.Trim(input) == "" || selected.None? <==> r.outcome == Rejected
    ensures r.outcome == Rejected || r.outcome == MessageWriteFailed ==> r.store == s && r.input == input
    ensures r.outcome == MessageWriteFailed <==> r.outcome != Rejected && !messageOk
    ensures r.outcome == SummaryWriteFailed || r.outcome == Sent ==>
              && Msgs(r.store, selected.value.id) == Msgs(s, selected.value.id) + [NewMessage(s.nextId, me, input, now)]
              && (forall c :: c != selected.value.id ==> Msgs(r.store, c) == Msgs(s, c))
    ensures r.outcome == SummaryWriteFailed ==> r.store.chats == s.chats && r.input == input
    ensures r.outcome == Sent <==> r.outcome != Rejected && messageOk && summaryOk && HasChat(s, selected.value.id)
    ensures r.outcome == Sent ==> r.input == "" && r.store.chats == SetSummary(s.chats, selected.value.id, input, now)
    ensures WellFormed(s) ==> WellFormed(r.store)
  {
    if Text.Trim(input) == "" || selected.None? then SendStep(s, input, Rejected)
    else if !messageOk then SendStep(s, input, MessageWriteFailed)
    else
      var chatId := selected.value.id;
      var s1 := AddMessage(s, chatId, NewMessage(s.nextId, me, input, now));
      if !summaryOk || !HasChat(s1, chatId) then SendStep(s1, input, SummaryWriteFailed)
      else
        var s2 := s1.(chats := SetSummary(s1.chats, chatId, input, now));
        assert WellFormed(s1) ==> WellFormed(s2) by {
          if WellFormed(s1) {
            assert forall i :: 0 <= i < |s2.chats| ==> s2.chats[i].id == s1.chats[i].id;
          }
        }
        SendStep(s2, "", Sent)
  }

  /** The message that was sent holds the untrimmed input, the sender's uid and email, the
      display name falling back to the email, `createdAt` now, and is not edited. */
  lemma SentMessageShape(id: Id, me: Profile, text: string, now: nat)
    ensures var m := NewMessage(id, me, text, now);
      && m.text == text && m.uid == me.uid && m.email == me.email && m.createdAt == now
      && m.displayName == (if me.displayName.Some? && me.displayName.value != "" then me.displayName.value else me.email)
      && !m.edited && m.editedAt.None?
  {
  }

  /** After a successful send the sidebar preview of the chat is the sent text, and its
      `lastMessageTime` is the send time. */
  lemma SentChatPreview(s: Store, selected: Option<Chat>, me: Profile, input: string, now: nat, i: nat)
    requires Send(s, selected, me, input, now, true, true).outcome == Sent
    requires i < |s.chats| && s.chats[i].id == selected.value.id
    ensures var c := Send(s, selected, me, input, now, true, true).store.chats[i];
            Display.ChatPreview(c) == input && c.lastMessageTime == Some(now)
  {
    Text.TrimEmptyIff(input);
  }

  /** A message sent at a time no earlier than every stored message of the chat comes
      last in the chat's message list. */
  lemma SentMessageLast(s: Store, selected: Option<Chat>, me: Profile, input: string, now: nat, summaryOk: bool)
    requires Send(s, selected, me, input, now, true, summaryOk).outcome != Rejected
    requires forall i :: 0 <= i < |Msgs(s, selected.value.id)| ==> Msgs(s, selected.value.id)[i].createdAt <= now
    ensures MessagesFor(selected, Send(s, selected, me, input, now, true, summaryOk).store)
            == MessagesFor(selected, s) + [NewMessage(s.nextId, me, input, now)]
  {
    Sorting.SortByAppendMax(Msgs(s, selected.value.id), NewMessage(s.nextId, me, input, now), CreatedKey);
  }

  // ---------------------------------------------------------------------------
  // Edit and delete

  /** The messages of one chat after the edit `updateDoc`: the message with id `msgId`
      gets the new text, `edited` and `editedAt`. */
  function EditIn(ms: seq<Message>, msgId: Id, text: string, now: nat): (r: seq<Message>)
    ensures |r| == |ms|
    ensures forall i :: 0 <= i < |ms| ==>
              && r[i].id == ms[i].id && r[i].uid == ms[i].uid && r[i].createdAt == ms[i].createdAt
              && r[i].displayName == ms[i].displayName && r[i].email == ms[i].email
    ensures forall i :: 0 <= i < |ms| && ms[i].id == msgId ==>
              r[i].text == text && r[i].edited && r[i].editedAt == Some(now)
    ensures forall i :: 0 <= i < |ms| && ms[i].id != msgId ==> r[i] == ms[i]
  {
    seq(|ms|, i requires 0 <= i < |ms| =>
      if ms[i].id == msgId then ms[i].(text := text, edited := true, editedAt := Some(now)) else ms[i])
  }

  /** `handleEditMessage(id, text)` on the selected chat. With no chat selected the
      call throws inside its `try` and nothing is written; a failed write changes nothing;
      an edit of a missing message changes nothing either. */
  function EditMessage(s: Store, selected: Option<Chat>, msgId: Id, text: string, now: nat, writeOk: bool): (r: Store)
    ensures selected.None? || !writeOk ==> r == s
    ensures r.chats == s.chats && r.nextId == s.nextId
    ensures selected.Some? && writeOk ==> Msgs(r, selected.value.id) == EditIn(Msgs(s, selected.value.id), msgId, text, now)
    ensures selected.Some? ==> forall c :: c != selected.value.id ==> Msgs(r, c) == Msgs(s, c)
    ensures WellFormed(s) ==> WellFormed(r)
  {
    if selected.None? || !writeOk then s
    else
      var chatId := selected.value.id;
      var ms := Msgs(s, chatId);
      var ms' := EditIn(ms, msgId, text, now);
      var r := s.(messages := s.messages[chatId := ms']);
      assert WellFormed(s) ==> WellFormed(r) by {
        if WellFormed(s) {
          assert MessageIdsBelow(ms, s.nextId) && DistinctIds(ms);
        }
      }
      r
  }

  function NotId(msgId: Id): Message -> bool {
    (m: Message) => m.id != msgId
  }

  /** `handleDeleteMessage(id)` on the selected chat: the messages with that id go, the
      others stay in order; the chat documents, including `lastMessage`, are untouched. */
  function DeleteMessage(s: Store, selected: Option<Chat>, msgId: Id, writeOk: bool): (r: Store)
    ensures selected.None? || !writeOk ==> r == s
    ensures r.chats == s.chats && r.nextId == s.nextId
    ensures selected.Some? && writeOk ==>
              && (forall i :: 0 <= i < |Msgs(r, selected.value.id)| ==>
                    Msgs(r, selected.value.id)[i].id != msgId && Msgs(r, selected.value.id)[i] in Msgs(s, selected.value.id))
              && (forall i :: 0 <= i < |Msgs(s, selected.value.id)| && Msgs(s, selected.value.id)[i].id != msgId ==>
                    Msgs(s, selected.value.id)[i] in Msgs(r, selected.value.id))
              && Msgs(r, selected.value.id) == Seqs.Filter(Msgs(s, selected.value.id), NotId(msgId))
    ensures selected.Some? ==> forall c :: c != selected.value.id ==> Msgs(r, c) == Msgs(s, c)
    ensures WellFormed(s) ==> WellFormed(r)
  {
    if selected.None? || !writeOk then s
    else
      var chatId := selected.value.id;
      var ms := Msgs(s, chatId);
      var ms' := Seqs.Filter(ms, NotId(msgId));
      var r := s.(messages := s.messages[chatId := ms']);
      assert WellFormed(s) ==> WellFormed(r) by {
        if WellFormed(s) {
          assert MessageIdsBelow(ms, s.nextId) && DistinctIds(ms);
          FilterDistinct(ms, NotId(msgId), s.nextId);
        }
      }
      r
  }

  lemma {:induction false} FilterDistinct(ms: seq<Message>, p: Message -> bool, bound: nat)
    requires MessageIdsBelow(ms, bound) && DistinctIds(ms)
    ensures MessageIdsBelow(Seqs.Filter(ms, p), bound) && DistinctIds(Seqs.Filter(ms, p))
  {
    if ms != [] {
      FilterDistinct(ms[1..], p, bound);
      var rest := Seqs.Filter(ms[1..], p);
      forall j | 0 <= j < |rest| ensures rest[j].id != ms[0].id {
        var k :| 0 <= k < |ms[1..]| && ms[1..][k] == rest[j];
        assert ms[k + 1] == rest[j];
      }
    }
  }

  /** In a well-formed store, deleting a message that exists removes exactly one message. */
  lemma DeleteRemovesOne(s: Store, selected: Option<Chat>, msgId: Id, i: nat)
    requires WellFormed(s) && selected.Some?
    requires i < |Msgs(s, selected.value.id)| && Msgs(s, selected.value.id)[i].id == msgId
    ensures |Msgs(DeleteMessage(s, selected, msgId, true), selected.value.id)| == |Msgs(s, selected.value.id)| - 1
  {
    var ms := Msgs(s, selected.value.id);
    assert ms == ms[..i] + [ms[i]] + ms[i + 1..];
    Seqs.FilterConcat(ms[..i] + [ms[i]], ms[i + 1..], NotId(msgId));
    Seqs.FilterConcat(ms[..i], [ms[i]], NotId(msgId));
    assert selected.value.id in s.messages;
    assert DistinctIds(ms);
    Seqs.FilterKeepsAll(ms[..i], NotId(msgId));
    Seqs.FilterKeepsAll(ms[i + 1..], NotId(msgId));
  }

  // ---------------------------------------------------------------------------
  // Header

  /** The header title: "" with no chat selected, otherwise the chat's title. */
  function WindowTitle(selected: Option<Chat>, me: Profile): (r: string)
    ensures selected.None? ==> r == ""
    ensures selected.Some? && selected.value.kind == Group ==> r == selected.value.name.GetOr("")
    ensures selected.Some? && selected.value.kind != Group
            && (forall i :: 0 <= i < |selected.value.details| ==> selected.value.details[i].1.email == me.email)
            ==> r == "Unknown User"
  {
    match selected
    case None => ""
    case Some(c) => Display.ChatTitle(c, me)
  }
}
