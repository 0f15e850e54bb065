# Chat state of a realtime chat client, in Dafny

This project models the chat-state logic of a small realtime chat client. The client is
a React app on a push-based document store with three collections: `users`, `chats`,
and a `messages` sub-collection per chat. Its logic lives in three components:

- the **sidebar** keeps two projections alive:
  - the roster: every user except the signed-in one;
  - the chat list: the chats the user takes part in, newest first.

  It also finds or creates the direct chat with another user, creates group chats from
  a small form, and toggles users in and out of the group selection.
- the **chat window** shows the message list of the selected chat. It sends a message
  (the message write followed by the chat-summary write), and it edits and deletes
  messages.
- the **message** component decides whether a message is the user's own. It shows the
  Edit/Delete actions and the "(edited)" marker, and runs the inline edit state machine.

The store is immutable data: `Records.Store` holds the chats in the order a snapshot lists them, each
chat's messages, and a counter for document ids. Every listener delivery and every user
action is a pure function. It returns the new store together with the new component
state: the selection, the form, the composer input or the message view. The caller passes in:

- server timestamps, as a natural `now`;
- whether each store call succeeds, as booleans (a failure is caught, logged and
  changes nothing).

Modules, one per file: `Wrappers` (Option), `Seqs` (filter, count, first/last match),
`Text` (JavaScript `trim` and `||` on strings), `Sorting` (stable sort by key),
`Records` (documents and the store), `Display` (chat title and preview), `Sidebar`,
`Window`, `MessageView`.

Behaviour of the code worth noting:

- Direct chats are found by scanning. The scan selects the last matching chat in
  snapshot order, and nothing prevents two clients from both creating one.
- A chat without `lastMessageTime` sorts as time 0. The sort is stable, so it keeps
  its snapshot position among the chats at time 0.
- Only the message component checks ownership before an edit. The chat window's edit
  handler checks nothing.
- The no-op test on edit compares the trimmed draft with the untrimmed stored text.
- The chat-list listener's error handler only logs. Unlike the roster, it has no
  loading or error state.
- Group participants are the list `[creator] ++ picked`, in pick order.
- There is no operation that deletes a chat.

## Model

| member | source | states |
|---|---|---|
| Sidebar.OnUsersEvent | src/components/Chat/ChatSidebar.jsx:30-53 | A users snapshot makes the roster exactly the snapshot users whose uid differs from the signed-in uid. Loading becomes false and the error null. A listener error sets the error message and clears loading, and keeps the previous roster. |
| Sidebar.RosterKeepsOrder | src/components/Chat/ChatSidebar.jsx:34-44 | The roster keeps snapshot order. The roster of a concatenation is the concatenation of the rosters, and a snapshot without the signed-in user is the roster unchanged. |
| Sidebar.ProjectChats | src/components/Chat/ChatSidebar.jsx:71-87 | The chat list holds exactly the snapshot chats whose `participants` exists and includes the signed-in uid, each at most as often as in the snapshot. It is sorted by `lastMessageTime` descending, with a missing time counting as 0. |
| Sidebar.ProjectChatsStable | src/components/Chat/ChatSidebar.jsx:81-85 | Chats with equal timestamps keep their snapshot order. |
| Sidebar.UntimedSortLast | src/components/Chat/ChatSidebar.jsx:82-84 | Only chats at time 0 or with no time can follow a chat that has no timestamp. |
| Sidebar.OnChatsEvent | src/components/Chat/ChatSidebar.jsx:67-92 | A chats snapshot replaces the list with its projection. A listener error leaves the list unchanged. |
| Sidebar.StartDirectChat | src/components/Chat/ChatSidebar.jsx:112-168 | If a direct chat has exactly two participants including both users, the last such chat in snapshot order is selected and the store is not written. Otherwise the new direct chat for the pair (type direct, participants [self, other], empty last message, both timestamps `now`, one details entry per participant) is appended under a fresh id and selected. A failed read or write changes nothing. |
| Sidebar.NewDirectChatShape | src/components/Chat/ChatSidebar.jsx:141-159 | The new direct chat has type direct and participants [self, other]. Its last message is empty and both timestamps are `now`. It has no name and no creator. It has a details entry for each participant, built from that user's profile. |
| Sidebar.DirectChatTitle | src/components/Chat/ChatSidebar.jsx:225-232 | In a new direct chat between users with different emails, each side's title is the other side's display name, or "Unknown User" when that name is empty. |
| Sidebar.StartDirectChatTwice | src/components/Chat/ChatSidebar.jsx:116-164 | Once a first call has succeeded, a second serialized call for the same pair writes nothing and selects the same chat. The store then holds exactly one direct chat for the pair if it held none before, and otherwise as many as before. |
| Sidebar.StartDirectChatBack | src/components/Chat/ChatSidebar.jsx:120-137 | When the other user then starts a chat back, that call finds the chat just selected and writes nothing: the pair test does not depend on participant order. |
| Sidebar.CreateGroupChat | src/components/Chat/ChatSidebar.jsx:170-212 | With a blank trimmed name, no picked users, or a failed write, nothing changes: not the store, the form or the selection. Otherwise the group chat is appended under a fresh id and selected, and the form is reset (name empty, no picks, hidden). |
| Sidebar.GroupChatShape | src/components/Chat/ChatSidebar.jsx:174-200 | The new group chat has type group and the trimmed name. Its participants are the creator followed by the picked uids in pick order, and the creator is `createdBy`. Its last message is empty and both timestamps are `now`. |
| Sidebar.GroupChatKeys | src/components/Chat/ChatSidebar.jsx:175-189 | The details keys of the new group chat are exactly its participants, with no duplicate key. |
| Sidebar.GroupDetails | src/components/Chat/ChatSidebar.jsx:175-189 | The details entry of each picked user comes from that user's profile (from its last pick if picked twice). The creator's entry comes from the creator's profile when the creator is not picked. |
| Sidebar.PickedDetailsLookup | src/components/Chat/ChatSidebar.jsx:183-189 | After the per-user loop, a user's entry is the one written for its last occurrence in the list. |
| Sidebar.Toggle | src/components/Chat/ChatSidebar.jsx:214-223 | Toggling flips whether the user's uid is picked and leaves every other uid's membership as it was. An absent user is appended at the end. |
| Sidebar.ToggleKeepsOthers | src/components/Chat/ChatSidebar.jsx:216-221 | The entries of other users keep their relative order. |
| Sidebar.ToggleTwice | src/components/Chat/ChatSidebar.jsx:214-223 | Toggling an absent user twice restores the original selection. |
| Display.ChatTitle | src/components/Chat/ChatSidebar.jsx:225-232 | A group's title is its name. Any other chat's title is the display name of the first details entry whose email differs from the user's, or "Unknown User" when there is no such entry or its name is empty. |
| Display.ChatPreview | src/components/Chat/ChatSidebar.jsx:234-236 | The preview is the last message, or "No messages yet" when that is empty. It is never empty. |
| Window.MessagesFor | src/components/Chat/ChatWindow.jsx:28-45 | With no chat selected the message list is empty. Otherwise it holds exactly the selected chat's stored messages, ordered by `createdAt` ascending. |
| Window.MessageQuery | src/components/Chat/ChatWindow.jsx:34 | The query result is a permutation of the chat's messages, sorted by `createdAt` ascending. |
| Window.ApplyDeliveries | src/components/Chat/ChatWindow.jsx:36-42 | Each snapshot replaces the list wholesale. After any series of deliveries the list is the last delivery, whatever it held before. |
| Window.Send | src/components/Chat/ChatWindow.jsx:51-76 | Send is rejected with no write when the trimmed input is empty or no chat is selected. Otherwise the message is appended (a failed write changes nothing), then the chat summary is updated. The input is cleared only when both writes succeed. If the summary write fails, the message stays and the summary is stale. The store invariant is preserved. |
| Window.SentMessageShape | src/components/Chat/ChatWindow.jsx:57-63 | The sent message holds the untrimmed input, the sender's uid and email, the display name falling back to the email, `createdAt` now, and no edit mark. |
| Window.SentChatPreview | src/components/Chat/ChatWindow.jsx:66-69 | After a successful send, the chat's preview in the sidebar is the sent text and its `lastMessageTime` is the send time. |
| Window.SentMessageLast | src/components/Chat/ChatWindow.jsx:34-41 | A message sent no earlier than every stored message of the chat appears last in the chat's message list, after all prior messages. |
| Window.AddMessage | src/components/Chat/ChatWindow.jsx:57-63 | The message write appends one message with a fresh id to the chat's sub-collection and leaves every other chat's messages and all chat documents alone. |
| Window.SetSummary | src/components/Chat/ChatWindow.jsx:66-69 | The summary write changes only `lastMessage` and `lastMessageTime` of the selected chat, and leaves every other chat as it was. |
| Window.EditMessage | src/components/Chat/ChatWindow.jsx:93-103 | The edit writes only the selected chat's messages and never the chat documents. With no selection or a failed write, nothing changes. |
| Window.EditIn | src/components/Chat/ChatWindow.jsx:95-99 | The edited message gets the new text, `edited` true and `editedAt` now. Its id, uid, `createdAt`, display name and email are unchanged, and every other message is unchanged. |
| Window.DeleteMessage | src/components/Chat/ChatWindow.jsx:85-91 | Delete removes from the selected chat only the messages with the given id. The others stay in order. Other chats' messages and all chat documents, `lastMessage` included, are untouched. |
| Window.DeleteRemovesOne | src/components/Chat/ChatWindow.jsx:87 | In a well-formed store, deleting an existing message removes exactly one message. |
| Window.WindowTitle | src/components/Chat/ChatWindow.jsx:105-116 | The header title is "" with no chat selected, the name for a group, and "Unknown User" when no participant has another email. |
| MessageView.HandleEdit | src/components/Chat/Message.jsx:12-17 | An edit is requested exactly when the trimmed draft differs from the stored text, and it carries the trimmed draft. Edit mode is left in every case. |
| MessageView.Step | src/components/Chat/Message.jsx:19-91 | A delete is requested only through a visible action, and a click on the visible Delete action requests it. An edit is requested only from edit mode, and in edit mode Enter without Shift or a blur runs the edit handler. Edit mode is entered only through the Edit action, and a click on the visible Edit action enters it. Escape leaves edit mode, resets the draft to the message text and requests nothing. |
| MessageView.RunRequestsOnlyOwn | src/components/Chat/Message.jsx:76-91 | Over any sequence of user inputs, edit mode implies that the message is the user's own (uid equality), and every request concerns this message. Any request at all implies ownership. |
| MessageView.FromInitialOnlyOwn | src/components/Chat/Message.jsx:10 | For a message of another user, no sequence of inputs produces an edit or delete request. |
| MessageView.EditedMarkerAfterEdit | src/components/Chat/Message.jsx:65-67 | After an edit is stored, the message shows "(edited)" outside edit mode. |
| MessageView.BlankDraftClearsText | src/components/Chat/Message.jsx:13-14 | There is no empty-text guard: a white-space-only draft on a non-empty message is sent as "". |
| MessageView.UnchangedDraftTrimsText | src/components/Chat/Message.jsx:13-14 | Stored text with white space at either end is rewritten to its trimmed form even when the draft is unchanged. |
| MessageView.UnchangedTrimmedDraftNoRequest | src/components/Chat/Message.jsx:13-15 | A draft whose trim equals the stored text requests nothing. |
| Text.Trim | src/components/Chat/ChatWindow.jsx:53 | The trim is a contiguous part of the input, with only white space before and after it. It neither starts nor ends with a white-space character. |
| Text.TrimEmptyIff | src/components/Chat/ChatWindow.jsx:53 | The trimmed input is empty exactly when every character is white space, which is what the blank-input guards test. |
| Records.DetailOf | src/components/Chat/ChatSidebar.jsx:145-154 | A details entry copies the email. Its display name falls back to the email when missing or empty. Its photo URL is the profile's when that is present and non-empty, and null otherwise. |
| Records.Put | src/components/Chat/ChatSidebar.jsx:184-188 | After assigning a details property, the key set gains that key, the key maps to the new value, and every other key keeps its value. |
| Records.PutPlace | src/components/Chat/ChatSidebar.jsx:184-188 | Assigning an existing property leaves the length unchanged, and a new one is appended at the end. Keys stay unique. |
| Records.PutInPlace | src/components/Chat/ChatSidebar.jsx:184-188 | With unique keys, assigning an existing property replaces that entry in its position and leaves every other entry where it was. |
| Sidebar.UsersRunLoading | src/components/Chat/ChatSidebar.jsx:30-52 | Over any series of users-listener deliveries, loading is set exactly when it was set before and nothing has been delivered. Errors alone leave the roster as it was. |
| Sidebar.InitialRosterLoading | src/components/Chat/ChatSidebar.jsx:10-52 | Starting from the empty, loading roster, loading shows exactly until the first delivery, and the roster stays empty until a snapshot arrives. |
| Records.AddChat | src/components/Chat/ChatSidebar.jsx:161-162 | Adding a chat appends it under the next fresh id and preserves the store invariant (ids below the counter and distinct). |
| Seqs.LastIndex | src/components/Chat/ChatSidebar.jsx:120-131 | The scan that overwrites its result on every match ends with the last match. With no match it ends with nothing. |
| Seqs.FirstIndex | src/components/Chat/ChatSidebar.jsx:229 | `find` returns the first match, or nothing when no element matches. |
| Sorting.SortByStable | src/components/Chat/ChatSidebar.jsx:81-85 | The sort is stable: elements with equal keys keep their original relative order. |

## Left out

- Sign-in, sign-up, the auth-state listener and the presence writes on sign-in, logout and page unload: they are session plumbing. The signed-in user is a plain `Profile` parameter.
- Listener setup and teardown: React effects manage `onSnapshot`/unsubscribe. Each delivery is a pure handler applied to a full snapshot, so late deliveries after teardown are not modelled.
- Cross-client races: only serialized operations are modelled. The scan-then-insert of direct chats is not atomic across clients, and no global uniqueness of direct chats is claimed.
- Chat deletion and its creator check: the code has no such operation.
- Time: server timestamps are naturals passed in as `now`. Pending server timestamps, which read as null in local snapshots, are not modelled, and neither is time formatting.
- Message ordering ties: the store orders by `createdAt` and then by document id. The model breaks ties by insertion order. Messages without `createdAt`, which such a query would skip, do not occur in the model.
- The `{...data, id}` merge of each document: snapshots are given as records that already carry their ids.
- Order of `participantDetails` fields: the model keeps details entries in creation order. The store does not promise to return map fields in that order, and the JavaScript rule that integer-like keys come first is not modelled either. Display.ChatTitle takes the first entry with another email, so when several entries have another email the title shown may differ from the model's.
- Browser event delivery: whether Escape reaches an `onKeyPress` handler, and whether a blur fires when the edit box unmounts after Enter, are browser concerns. The model takes the handlers as written.
- The chat window's `loading` flag, which disables the input during a send, and the sidebar's show/hide toggle of the group form: both are transient UI state.
- Rendering, styling, scrolling and console logging.
- Snapshot order of chats: the chats query has no `orderBy`, so the store lists chats in document-id order, and `addDoc` draws random ids. A new chat can therefore appear anywhere in later snapshots, and the last-match scan of `startDirectChat` runs over that order. The model's ids come from a counter, so its snapshot order is creation order.
- Records.AddChat: appends the new chat last. The store promises no position for a new document in later snapshots (see the line above).
- Window.WindowTitle: states the group, empty-selection and no-other-participant cases. The first-other-participant case is stated by Display.ChatTitle, which it delegates to.
- Sidebar.OnChatsEvent: for a snapshot it states only that the list is replaced by Sidebar.ProjectChats, whose own contract carries the membership and order properties.
